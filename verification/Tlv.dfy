/** The property-bag codec: a growing buffer of (key, type, value) entries behind a one-byte
    count, and the defensive decoder. */
module Tlv {
  import opened Bytes

  datatype ValueType = U8 | U16 | U32 | RawBytes | Utf8 | Bool | Unassigned(code: u8)

  function TypeCode(t: ValueType): (code: u8) {
    match t
    case U8 => 0
    case U16 => 1
    case U32 => 2
    case RawBytes => 3
    case Utf8 => 4
    case Bool => 5
    case Unassigned(code) => code
  }

  /** The type a byte stands for; bytes beyond the assigned ones are passed through. */
  function TypeOf(code: u8): (t: ValueType)
    ensures TypeCode(t) == code
  {
    if code == 0 then U8 else if code == 1 then U16 else if code == 2 then U32
    else if code == 3 then RawBytes else if code == 4 then Utf8 else if code == 5 then Bool
    else Unassigned(code)
  }

  datatype Entry = Entry(key: seq<u8>, vtype: ValueType, value: seq<u8>)

  /** An entry the format can carry. */
  predicate Encodable(e: Entry) {
    && 0 < |e.key| < 0x100
    && |e.value| < 0x100
    && TypeOf(TypeCode(e.vtype)) == e.vtype
  }

  predicate AllEncodable(es: seq<Entry>) {
    forall i :: 0 <= i < |es| ==> Encodable(es[i])
  }

  // ---------------------------------------------------------------------------
  // The wire format
  // ---------------------------------------------------------------------------

  function EntrySize(e: Entry): (n: nat) {
    |e.key| + |e.value| + 3
  }

  function EntryBytes(e: Entry): (bytes: seq<u8>)
    requires |e.key| < 0x100 && |e.value| < 0x100
    ensures |bytes| == EntrySize(e)
  {
    [|e.key|] + e.key + [TypeCode(e.vtype), |e.value|] + e.value
  }

  /** The canonical serialisation of the entries, without the count byte. */
  function Body(es: seq<Entry>): (bytes: seq<u8>)
    requires AllEncodable(es)
  {
    if |es| == 0 then [] else Body(es[..|es| - 1]) + EntryBytes(es[|es| - 1])
  }

  /** A whole bag. */
  function Bag(es: seq<Entry>): (bytes: seq<u8>)
    requires AllEncodable(es) && |es| < 0x100
  {
    [|es|] + Body(es)
  }

  // ---------------------------------------------------------------------------
  // The decoder
  // ---------------------------------------------------------------------------

  datatype DecodeError = Ok | Malformed | EmptyBuffer | CallbackAbort

  /** One entry read at an offset, with the offset behind it, or nothing if it overruns. */
  function ReadEntry(buf: seq<u8>, off: nat): (r: Option<(Entry, nat)>)
    requires off <= |buf|
    ensures r.Some? ==> off < r.value.1 <= |buf|
  {
    if off + 1 > |buf| then None
    else
      var keyLen := buf[off];
      if keyLen == 0 || off + 1 + keyLen > |buf| then None
      else
        var typeAt := off + 1 + keyLen;
        if typeAt + 1 > |buf| || typeAt + 2 > |buf| then None
        else
          var valueLen := buf[typeAt + 1];
          var end := typeAt + 2 + valueLen;
          if end > |buf| then None
          else Some((Entry(buf[off + 1..typeAt], TypeOf(buf[typeAt]), buf[typeAt + 2..end]), end))
  }

  /** The entries delivered from an offset on, how the walk ends and where. */
  datatype Walk = Walk(delivered: seq<Entry>, err: DecodeError, end: nat)

  function WalkFrom(buf: seq<u8>, off: nat, remaining: nat): (w: Walk)
    requires off <= |buf|
    decreases remaining
  {
    if remaining == 0 then Walk([], Ok, off)
    else
      match ReadEntry(buf, off)
      case None => Walk([], Malformed, off)
      case Some((e, next)) =>
        var rest := WalkFrom(buf, next, remaining - 1);
        Walk([e] + rest.delivered, rest.err, rest.end)
  }

  /** Decoding with a callback that accepts every entry, as both of the firmware's do. */
  function Decode(buf: seq<u8>): (w: Walk) {
    if |buf| == 0 then Walk([], EmptyBuffer, 0) else WalkFrom(buf, 1, buf[0])
  }

  /** Feed entries to a callback until it refuses one. */
  function Deliver<C>(es: seq<Entry>, cb: (Entry, C) -> (bool, C), ctx: C): (r: (bool, C)) {
    if |es| == 0 then (true, ctx)
    else
      var (more, ctx') := cb(es[0], ctx);
      if more then Deliver(es[1..], cb, ctx') else (false, ctx')
  }

  // ---------------------------------------------------------------------------
  // Reading back what was written
  // ---------------------------------------------------------------------------

  lemma ReadWritten(pre: seq<u8>, e: Entry, post: seq<u8>)
    requires Encodable(e)
    ensures ReadEntry(pre + EntryBytes(e) + post, |pre|) == Some((e, |pre| + EntrySize(e)))
  {
    var buf := pre + EntryBytes(e) + post;
    var off := |pre|;
    assert buf[off] == |e.key|;
    var typeAt := off + 1 + |e.key|;
    assert buf[off + 1..typeAt] == e.key;
    assert buf[typeAt] == TypeCode(e.vtype) && buf[typeAt + 1] == |e.value|;
    assert buf[typeAt + 2..typeAt + 2 + |e.value|] == e.value;
  }

  /** An entry cut short at any byte is not read. */
  lemma ReadCut(pre: seq<u8>, e: Entry, n: nat)
    requires Encodable(e) && n < EntrySize(e)
    ensures ReadEntry(pre + EntryBytes(e)[..n], |pre|) == None
  {
    var buf, off := pre + EntryBytes(e)[..n], |pre|;
    if n > 0 {
      assert buf[off] == |e.key|;
      var typeAt := off + 1 + |e.key|;
      if typeAt + 2 <= |buf| {
        assert buf[typeAt + 1] == |e.value|;
      }
    }
  }

  /** What is read is what canonical encoding would have put there. */
  lemma ReadIsCanonical(buf: seq<u8>, off: nat)
    requires off <= |buf| && ReadEntry(buf, off).Some?
    ensures var (e, next) := ReadEntry(buf, off).value;
            Encodable(e) && next == off + EntrySize(e) && buf[off..next] == EntryBytes(e)
  {
    var (e, next) := ReadEntry(buf, off).value;
    var typeAt := off + 1 + |e.key|;
    assert TypeOf(TypeCode(e.vtype)) == e.vtype;
    assert buf[off..next] == [buf[off]] + buf[off + 1..typeAt] + [buf[typeAt], buf[typeAt + 1]] + buf[typeAt + 2..next];
  }

  lemma BodyOfSnoc(es: seq<Entry>, e: Entry)
    requires AllEncodable(es) && Encodable(e)
    ensures AllEncodable(es + [e]) && Body(es + [e]) == Body(es) + EntryBytes(e)
  {
    assert (es + [e])[..|es|] == es;
  }

  /** The type bytes on the wire; every other byte stands for an unassigned type of its own. */
  lemma TypesOnWire(code: u8)
    ensures TypeOf(0) == U8 && TypeOf(1) == U16 && TypeOf(2) == U32
    ensures TypeOf(3) == RawBytes && TypeOf(4) == Utf8 && TypeOf(5) == Bool
    ensures code > 5 ==> TypeOf(code) == Unassigned(code)
  {
  }

  /** An entry is read from arbitrary bytes exactly when it has a key, of the length its first byte
      says, a type byte, a length byte and as many value bytes, all inside the buffer; and it is then
      those bytes. */
  lemma EntryFromBytes(buf: seq<u8>, off: nat)
    requires off <= |buf|
    ensures ReadEntry(buf, off).Some?
            <==> && off < |buf| && buf[off] > 0 && off + 3 + buf[off] <= |buf|
                 && off + 3 + buf[off] + buf[off + 2 + buf[off]] <= |buf|
    ensures ReadEntry(buf, off).Some? ==>
              var (e, next) := ReadEntry(buf, off).value;
              var k := off + 1 + buf[off];
              && e.key == buf[off + 1..k] && e.vtype == TypeOf(buf[k])
              && next == k + 2 + buf[k + 1] && e.value == buf[k + 2..next]
  {
  }

  lemma ConcatAssociates(a: seq<u8>, b: seq<u8>, c: seq<u8>)
    ensures (a + b) + c == a + (b + c)
  {
  }

  lemma {:induction false} BodyOfCons(e: Entry, es: seq<Entry>)
    requires Encodable(e) && AllEncodable(es)
    ensures AllEncodable([e] + es) && Body([e] + es) == EntryBytes(e) + Body(es)
  {
    hide EntryBytes, Body;
    BodyOfEmpty();
    if |es| == 0 {
      BodyOfSnoc([], e);
      assert [e] + es == [] + [e];
      assert EntryBytes(e) + [] == [] + EntryBytes(e);
    } else {
      var front, last := es[..|es| - 1], es[|es| - 1];
      BodyOfCons(e, front);
      BodyOfSnoc([e] + front, last);
      BodyOfSnoc(front, last);
      assert front + [last] == es && [e] + front + [last] == [e] + es;
      ConcatAssociates(EntryBytes(e), Body(front), EntryBytes(last));
    }
  }

  lemma WalkStep(buf: seq<u8>, off: nat, remaining: nat, e: Entry, next: nat)
    requires off <= |buf| && remaining > 0 && ReadEntry(buf, off) == Some((e, next))
    ensures next <= |buf|
    ensures var rest := WalkFrom(buf, next, remaining - 1);
            WalkFrom(buf, off, remaining) == Walk([e] + rest.delivered, rest.err, rest.end)
  {
  }

  lemma WalkStop(buf: seq<u8>, off: nat, remaining: nat)
    requires off <= |buf| && remaining > 0 && ReadEntry(buf, off) == None
    ensures WalkFrom(buf, off, remaining) == Walk([], Malformed, off)
  {
  }

  lemma WalkEnd(buf: seq<u8>, off: nat)
    requires off <= |buf|
    ensures WalkFrom(buf, off, 0) == Walk([], Ok, off)
  {
  }

  lemma BodyOfEmpty()
    ensures Body([]) == []
  {
  }

  lemma {:induction false} WalkReadsBody(pre: seq<u8>, es: seq<Entry>, post: seq<u8>)
    requires AllEncodable(es)
    ensures WalkFrom(pre + Body(es) + post, |pre|, |es|) == Walk(es, Ok, |pre| + |Body(es)|)
    decreases |es|
  {
    hide ReadEntry, Body, EntryBytes, WalkFrom;
    var buf := pre + Body(es) + post;
    BodyOfEmpty();
    if |es| == 0 {
      WalkEnd(buf, |pre|);
    } else {
      var e, rest := es[0], es[1..];
      assert es == [e] + rest;
      BodyOfCons(e, rest);
      var head := EntryBytes(e);
      assert pre + head + (Body(rest) + post) == buf;
      ReadWritten(pre, e, Body(rest) + post);
      assert (pre + head) + Body(rest) + post == buf;
      WalkReadsBody(pre + head, rest, post);
      WalkStep(buf, |pre|, |es|, e, |pre| + EntrySize(e));
    }
  }

  /** Decode inverts encode, whatever follows the bag in the buffer. */
  lemma DecodeInvertsBag(es: seq<Entry>, junk: seq<u8>)
    requires AllEncodable(es) && |es| < 0x100
    ensures Decode(Bag(es) + junk) == Walk(es, Ok, |Bag(es)|)
  {
    WalkReadsBody([|es|], es, junk);
    assert Bag(es) + junk == [|es|] + Body(es) + junk;
  }

  lemma {:induction false} WalkIsCanonical(buf: seq<u8>, off: nat, remaining: nat)
    requires off <= |buf|
    ensures var w := WalkFrom(buf, off, remaining);
            && AllEncodable(w.delivered) && |w.delivered| <= remaining && off <= w.end <= |buf|
            && buf[off..w.end] == Body(w.delivered)
            && (w.err == Ok <==> |w.delivered| == remaining)
            && (w.err != Ok ==> w.err == Malformed && ReadEntry(buf, w.end) == None)
    decreases remaining
  {
    hide ReadEntry, Body, EntryBytes, WalkFrom;
    BodyOfEmpty();
    assert buf[off..off] == [];
    if remaining == 0 {
      WalkEnd(buf, off);
    } else if ReadEntry(buf, off).None? {
      WalkStop(buf, off, remaining);
    } else {
      var (e, next) := ReadEntry(buf, off).value;
      ReadIsCanonical(buf, off);
      WalkStep(buf, off, remaining, e, next);
      WalkIsCanonical(buf, next, remaining - 1);
      var rest := WalkFrom(buf, next, remaining - 1);
      BodyOfCons(e, rest.delivered);
      assert buf[off..rest.end] == buf[off..next] + buf[next..rest.end];
    }
  }

  /** A clean decode of arbitrary bytes consumed exactly the canonical bag of what it delivered;
      a failed one delivered a canonical prefix and stopped at an entry that overruns. */
  lemma DecodeIsCanonical(buf: seq<u8>)
    requires |buf| > 0
    ensures var w := Decode(buf);
            && AllEncodable(w.delivered) && |w.delivered| <= buf[0]
            && 1 <= w.end <= |buf| && buf[1..w.end] == Body(w.delivered)
            && (w.err == Ok <==> |w.delivered| == buf[0])
            && (w.err == Ok ==> buf[..w.end] == Bag(w.delivered))
            && (w.err != Ok ==> w.err == Malformed && ReadEntry(buf, w.end) == None)
  {
    WalkIsCanonical(buf, 1, buf[0]);
    var w := Decode(buf);
    assert buf[..w.end] == [buf[0]] + buf[1..w.end];
  }

  /** How many entries of a body lie wholly within its first n bytes. */
  function WholeEntries(es: seq<Entry>, n: nat): (m: nat)
    ensures m <= |es|
  {
    if |es| == 0 || EntrySize(es[0]) > n then 0 else 1 + WholeEntries(es[1..], n - EntrySize(es[0]))
  }

  lemma {:induction false} WalkOfCut(pre: seq<u8>, es: seq<Entry>, n: nat)
    requires AllEncodable(es) && n < |Body(es)|
    ensures var w := WalkFrom(pre + Body(es)[..n], |pre|, |es|);
            w.delivered == es[..WholeEntries(es, n)] && w.err == Malformed
    decreases |es|
  {
    hide ReadEntry, Body, EntryBytes, WalkFrom;
    BodyOfEmpty();
    var e, rest := es[0], es[1..];
    assert es == [e] + rest;
    BodyOfCons(e, rest);
    var head, buf := EntryBytes(e), pre + Body(es)[..n];
    if n < EntrySize(e) {
      assert Body(es)[..n] == head[..n];
      ReadCut(pre, e, n);
      WalkStop(buf, |pre|, |es|);
    } else {
      var k := n - EntrySize(e);
      var cut := Body(rest)[..k];
      assert Body(es)[..n] == head + cut;
      assert buf == pre + head + cut;
      ReadWritten(pre, e, cut);
      WalkOfCut(pre + head, rest, k);
      WalkStep(buf, |pre|, |es|, e, |pre| + EntrySize(e));
      assert [e] + rest[..WholeEntries(rest, k)] == es[..WholeEntries(es, n)];
    }
  }

  /** Any strict prefix of a bag that keeps its count byte is malformed, after delivering
      exactly the entries that lie wholly within it. */
  lemma DecodeOfTruncated(es: seq<Entry>, n: nat)
    requires AllEncodable(es) && |es| < 0x100 && 0 < n < |Bag(es)|
    ensures Decode(Bag(es)[..n]).err == Malformed
    ensures Decode(Bag(es)[..n]).delivered == es[..WholeEntries(es, n - 1)]
  {
    WalkOfCut([|es|], es, n - 1);
    assert Bag(es)[..n] == [|es|] + Body(es)[..n - 1];
  }

  lemma {:induction false} DeliverConcat<C>(a: seq<Entry>, b: seq<Entry>, cb: (Entry, C) -> (bool, C), ctx: C)
    ensures Deliver(a + b, cb, ctx)
            == if Deliver(a, cb, ctx).0 then Deliver(b, cb, Deliver(a, cb, ctx).1) else Deliver(a, cb, ctx)
  {
    if |a| == 0 {
      assert a + b == b;
    } else {
      assert (a + b)[1..] == a[1..] + b;
      DeliverConcat(a[1..], b, cb, cb(a[0], ctx).1);
    }
  }

  // ---------------------------------------------------------------------------
  // The encoder object and the decoding loop
  // ---------------------------------------------------------------------------

  /** s with the bytes from at on overwritten. */
  function Splice(s: seq<u8>, at: nat, bytes: seq<u8>): (r: seq<u8>)
    requires at + |bytes| <= |s|
    ensures |r| == |s|
  {
    s[..at] + bytes + s[at + |bytes|..]
  }

  lemma SpliceOn(s: seq<u8>, at: nat, a: seq<u8>, b: seq<u8>)
    requires at + |a| + |b| <= |s|
    ensures Splice(Splice(s, at, a), at + |a|, b) == Splice(s, at, a + b)
  {
    var t := Splice(s, at, a);
    assert t[..at + |a|] == s[..at] + a;
    assert t[at + |a| + |b|..] == s[at + |a| + |b|..];
  }

  /** The value bytes an entry ends up with: those given, or what the buffer held there. */
  function Stored(value: Option<seq<u8>>, n: nat, buf: seq<u8>, at: nat): (v: seq<u8>)
    requires value.Some? ==> n <= |value.value|
    requires at + n <= |buf|
    ensures |v| == n
  {
    if value.Some? then value.value[..n] else buf[at..at + n]
  }

  lemma SpliceRead(s: seq<u8>, at: nat, a: seq<u8>)
    requires at + |a| <= |s|
    ensures Splice(s, at, a)[..at + |a|] == s[..at] + a
    ensures Splice(s, at, a)[at + |a|..] == s[at + |a|..]
  {
  }

  /** Four splices in a row, the last of what is stored as the value, write an entry. */
  lemma SpliceEntry(s: seq<u8>, at: nat, e: Entry)
    requires |e.key| < 0x100 && |e.value| < 0x100 && at + EntrySize(e) <= |s|
    ensures var t := Splice(Splice(s, at, [|e.key|]), at + 1, e.key);
            var u := Splice(t, at + 1 + |e.key|, [TypeCode(e.vtype), |e.value|]);
            Splice(u, at + |e.key| + 3, e.value) == Splice(s, at, EntryBytes(e))
  {
    hide Splice;
    var head, codes := [|e.key|], [TypeCode(e.vtype), |e.value|];
    SpliceOn(s, at, head, e.key);
    SpliceOn(s, at, head + e.key, codes);
    SpliceOn(s, at, head + e.key + codes, e.value);
  }

  lemma SplitAt(a: array<u8>, s: seq<u8>, n: nat)
    requires s == a[..] && n <= a.Length
    ensures a[..n] == s[..n] && a[n..] == s[n..]
  {
  }

  /** Splicing in what is there already changes nothing. */
  lemma SpliceSame(s: seq<u8>, at: nat, n: nat)
    requires at + n <= |s|
    ensures Splice(s, at, s[at..at + n]) == s
  {
  }

  /** A splice leaves what lies behind it. */
  lemma SpliceBehind(s: seq<u8>, at: nat, a: seq<u8>, from: nat, to: nat)
    requires at + |a| <= from <= to <= |s|
    ensures Splice(s, at, a)[from..to] == s[from..to]
  {
  }

  /** Bumping the count byte and appending the entry's bytes is appending the entry. */
  lemma BagGrows(es: seq<Entry>, e: Entry)
    requires AllEncodable(es) && Encodable(e) && |es| < 0xFF
    ensures AllEncodable(es + [e])
    ensures Bag(es + [e]) == [|es| + 1] + (Bag(es) + EntryBytes(e))[1..]
  {
    BodyOfSnoc(es, e);
    assert (Bag(es) + EntryBytes(e))[1..] == Body(es) + EntryBytes(e);
  }

  /** A C string's content: no terminator inside. */
  predicate CString(s: seq<u8>) {
    forall i :: 0 <= i < |s| ==> s[i] != 0
  }

  class TlvEncoder {
    const buf: array<u8>
    var len: nat
    var count: u8
    ghost var entries: seq<Entry>

    ghost predicate Valid()
      reads this, buf
    {
      && AllEncodable(entries)
      && count == |entries| < 0x100
      && len <= buf.Length
      && (if buf.Length == 0 then entries == [] && len == 0 else buf[..len] == Bag(entries))
    }

    constructor (buf: array<u8>)
      modifies buf
      ensures this.buf == buf && Valid() && entries == []
      ensures forall k :: 1 <= k < buf.Length ==> buf[k] == old(buf[k])
    {
      this.buf := buf;
      len := 0;
      count := 0;
      entries := [];
      new;
      if buf.Length >= 1 {
        buf[0] := 0;
        len := 1;
      }
    }

    /** Copy a run of bytes into the buffer. */
    method Put(at: nat, bytes: seq<u8>)
      requires at + |bytes| <= buf.Length
      modifies buf
      ensures buf[..] == Splice(old(buf[..]), at, bytes)
    {
      for i := 0 to |bytes|
        invariant forall k :: 0 <= k < i ==> buf[at + k] == bytes[k]
        invariant forall k :: 0 <= k < buf.Length && !(at <= k < at + i) ==> buf[k] == old(buf[k])
      {
        buf[at + i] := bytes[i];
      }
      assert buf[at..at + |bytes|] == bytes;
      assert buf[..] == buf[..at] + buf[at..at + |bytes|] + buf[at + |bytes|..];
    }

    /** Write an entry's bytes at the end of the bag, leaving the bag's extent alone. */
    method StoreEntry(key: seq<u8>, vtype: ValueType, value: Option<seq<u8>>, valueLen: nat) returns (ghost e: Entry)
      requires 0 < |key| < 0x100 && valueLen < 0x100 && len + |key| + 3 + valueLen <= buf.Length
      requires value.Some? ==> valueLen <= |value.value|
      modifies buf
      ensures e == Entry(key, vtype, Stored(value, valueLen, old(buf[..]), len + |key| + 3))
      ensures buf[..len + EntrySize(e)] == old(buf[..len]) + EntryBytes(e)
      ensures buf[len + EntrySize(e)..] == old(buf[..])[len + EntrySize(e)..]
    {
      hide Splice, EntryBytes, Stored, TypeCode;
      ghost var was := buf[..];
      SplitAt(buf, was, len);
      e := SpliceIn(key, vtype, value, valueLen);
      SpliceRead(was, len, EntryBytes(e));
      SplitAt(buf, buf[..], len + EntrySize(e));
    }

    /** Length, key, type, length and value, one behind the other. */
    method SpliceIn(key: seq<u8>, vtype: ValueType, value: Option<seq<u8>>, valueLen: nat) returns (ghost e: Entry)
      requires 0 < |key| < 0x100 && valueLen < 0x100 && len + |key| + 3 + valueLen <= buf.Length
      requires value.Some? ==> valueLen <= |value.value|
      modifies buf
      ensures e == Entry(key, vtype, Stored(value, valueLen, old(buf[..]), len + |key| + 3))
      ensures buf[..] == Splice(old(buf[..]), len, EntryBytes(e))
    {
      hide Splice, EntryBytes, TypeCode;
      ghost var was := buf[..];
      var typeAt, at := len + 1 + |key|, len + |key| + 3;
      e := Entry(key, vtype, Stored(value, valueLen, was, at));
      SpliceEntry(was, len, e);
      Put(len, [|key|]);
      SpliceBehind(was, len, [|key|], at, at + valueLen);
      ghost var one := buf[..];
      Put(len + 1, key);
      SpliceBehind(one, len + 1, key, at, at + valueLen);
      ghost var two := buf[..];
      Put(typeAt, [TypeCode(vtype), valueLen]);
      SpliceBehind(two, typeAt, [TypeCode(vtype), valueLen], at, at + valueLen);
      if valueLen > 0 && value.Some? {
        Put(at, value.value[..valueLen]);
      } else {
        SpliceSame(buf[..], at, valueLen);
        assert e.value == buf[..][at..at + valueLen];
      }
    }

    /** Append one entry or leave everything as it was. A missing value pointer reserves the
        value's room without writing it. */
    method WriteEntry(key: Option<seq<u8>>, vtype: ValueType, value: Option<seq<u8>>, valueLen: u8) returns (ok: bool)
      requires Valid()
      requires key.Some? ==> CString(key.value)
      requires TypeOf(TypeCode(vtype)) == vtype
      requires value.Some? ==> valueLen <= |value.value|
      modifies this`len, this`count, this`entries, buf
      ensures Valid()
      ensures ok <==> buf.Length > 0 && key.Some? && 0 < |key.value| < 0x100 && |old(entries)| < 0xFF
                      && old(len) + |key.value| + 3 + valueLen as int <= buf.Length
      ensures ok ==>
                var at := old(len) + |key.value| + 3;
                && entries == old(entries) + [Entry(key.value, vtype, Stored(value, valueLen, old(buf[..]), at))]
                && len == at + valueLen as int
      ensures !ok ==> entries == old(entries) && len == old(len) && buf[..] == old(buf[..])
      ensures len <= buf.Length && buf[len..] == old(buf[..])[len..]
    {
      if buf.Length == 0 || key.None? { return false; }
      if count == 0xFF { return false; }
      var keyLen := |key.value|;
      if keyLen > 0xFF { return false; }
      if keyLen == 0 { return false; }
      var need := 1 + keyLen + 1 + 1 + valueLen as int;
      if len + need > buf.Length { return false; }
      Append(key.value, vtype, value, valueLen);
      return true;
    }

    /** Append an entry that is known to fit. */
    method Append(key: seq<u8>, vtype: ValueType, value: Option<seq<u8>>, valueLen: nat)
      requires Valid() && 0 < buf.Length && |entries| < 0xFF && TypeOf(TypeCode(vtype)) == vtype
      requires 0 < |key| < 0x100 && valueLen < 0x100 && len + |key| + 3 + valueLen <= buf.Length
      requires value.Some? ==> valueLen <= |value.value|
      modifies this`len, this`count, this`entries, buf
      ensures Valid()
      ensures len == old(len) + |key| + 3 + valueLen <= buf.Length
      ensures entries == old(entries) + [Entry(key, vtype, Stored(value, valueLen, old(buf[..]), old(len) + |key| + 3))]
      ensures buf[len..] == old(buf[..])[len..]
    {
      assert len == |buf[..len]| == |Bag(entries)| > 0;
      hide Valid, EntryBytes, Bag, Splice, Stored, AllEncodable, TypeOf, TypeCode;
      ghost var e := StoreEntry(key, vtype, value, valueLen);
      var need := 1 + |key| + 1 + 1 + valueLen;
      Commit(need, e);
    }

    /** Extend the bag over the entry just stored and bump the count byte. */
    method Commit(need: nat, ghost e: Entry)
      requires AllEncodable(entries) && Encodable(e) && count == |entries| < 0xFF
      requires need == EntrySize(e) && 0 < len && len + need <= buf.Length
      requires buf[..len + need] == Bag(entries) + EntryBytes(e)
      modifies this`len, this`count, this`entries, buf
      ensures Valid() && entries == old(entries) + [e] && len == old(len) + need
      ensures len <= buf.Length && buf[len..] == old(buf[..])[len..]
    {
      hide EntryBytes, Bag;
      BagGrows(entries, e);
      ghost var was := buf[..len + need];
      len := len + need;
      count := count + 1;
      buf[0] := count;
      assert buf[..len] == [count] + was[1..];
      entries := entries + [e];
    }

    method AddU8(key: seq<u8>, value: u8) returns (ok: bool)
      requires Valid() && CString(key)
      modifies this`len, this`count, this`entries, buf
      ensures Valid() && ok == Fits(old(entries), old(len), key, 1, buf.Length)
      ensures entries == old(entries) + (if ok then [U8Entry(key, value)] else [])
      ensures len == old(len) + (if ok then |key| + 4 else 0)
    {
      ok := WriteEntry(Some(key), U8, Some([value]), 1);
      assert [value][..1] == [value];
    }

    /** Two bytes, little-endian. */
    method AddU16(key: seq<u8>, value: u16) returns (ok: bool)
      requires Valid() && CString(key)
      modifies this`len, this`count, this`entries, buf
      ensures Valid() && ok == Fits(old(entries), old(len), key, 2, buf.Length)
      ensures entries == old(entries) + (if ok then [U16Entry(key, value)] else [])
      ensures len == old(len) + (if ok then |key| + 5 else 0)
    {
      var bytes := [value % 256, value / 256];
      ok := WriteEntry(Some(key), U16, Some(bytes), 2);
      assert bytes[..2] == bytes;
    }

    /** A text value of a given length. */
    method AddUtf8(key: seq<u8>, value: seq<u8>) returns (ok: bool)
      requires Valid() && CString(key)
      modifies this`len, this`count, this`entries, buf
      ensures Valid() && ok == (|value| < 0x100 && Fits(old(entries), old(len), key, |value|, buf.Length))
      ensures entries == old(entries) + (if ok then [Entry(key, Utf8, value)] else [])
      ensures len == old(len) + (if ok then |key| + 3 + |value| else 0)
    {
      if |value| > 0xFF { return false; }
      ok := WriteEntry(Some(key), Utf8, Some(value), |value|);
      assert value[..|value|] == value;
    }
  }

  function U8Entry(key: seq<u8>, value: u8): (e: Entry) {
    Entry(key, U8, [value])
  }

  function U16Entry(key: seq<u8>, value: u16): (e: Entry) {
    Entry(key, U16, [value % 256, value / 256])
  }

  /** Whether one more entry goes into a bag of the given extent. */
  predicate Fits(entries: seq<Entry>, len: nat, key: seq<u8>, valueLen: nat, capacity: nat) {
    capacity > 0 && 0 < |key| < 0x100 && |entries| < 0xFF && len + |key| + 3 + valueLen <= capacity
  }

  lemma DeliverStep<C>(e: Entry, es: seq<Entry>, cb: (Entry, C) -> (bool, C), ctx: C)
    ensures Deliver([e] + es, cb, ctx)
            == if cb(e, ctx).0 then Deliver(es, cb, cb(e, ctx).1) else (false, cb(e, ctx).1)
  {
    assert ([e] + es)[1..] == es;
  }

  lemma DeliverNone<C>(cb: (Entry, C) -> (bool, C), ctx: C)
    ensures Deliver([], cb, ctx) == (true, ctx)
  {
  }

  /** Walk the entries of a buffer, handing each to the callback until it refuses. */
  method DecodePropertyBag<C>(buf: seq<u8>, cb: Option<(Entry, C) -> (bool, C)>, ctx: C)
    returns (err: DecodeError, ctx': C)
    ensures |buf| == 0 ==> err == EmptyBuffer && ctx' == ctx
    ensures |buf| > 0 && cb.None? ==> err == Malformed && ctx' == ctx
    ensures |buf| > 0 && cb.Some? ==>
              var w := Decode(buf);
              var (all, end) := Deliver(w.delivered, cb.value, ctx);
              ctx' == end && err == if all then w.err else CallbackAbort
  {
    hide WalkFrom, Deliver;
    ctx' := ctx;
    if |buf| == 0 { return EmptyBuffer, ctx'; }
    if cb.None? { return Malformed, ctx'; }
    ghost var w := Decode(buf);
    var entryCount: nat := buf[0];
    var off := 1;
    var i := 0;
    while i < entryCount
      invariant i <= entryCount && 1 <= off <= |buf|
      invariant WalkFrom(buf, off, entryCount - i).err == w.err
      invariant Deliver(w.delivered, cb.value, ctx) == Deliver(WalkFrom(buf, off, entryCount - i).delivered, cb.value, ctx')
    {
      ghost var start := off;
      DeliverNone(cb.value, ctx');
      if ReadEntry(buf, start).None? { WalkStop(buf, start, entryCount - i); }
      if off + 1 > |buf| { return Malformed, ctx'; }
      var keyLen: int := buf[off];
      off := off + 1;
      if keyLen == 0 { return Malformed, ctx'; }
      if off + keyLen > |buf| { return Malformed, ctx'; }
      var key := buf[off..off + keyLen];
      off := off + keyLen;
      if off + 1 > |buf| { return Malformed, ctx'; }
      var typeByte := buf[off];
      off := off + 1;
      if off + 1 > |buf| { return Malformed, ctx'; }
      var valueLen: int := buf[off];
      off := off + 1;
      if off + valueLen > |buf| { return Malformed, ctx'; }
      var value := buf[off..off + valueLen];
      off := off + valueLen;
      var e := Entry(key, TypeOf(typeByte), value);
      WalkStep(buf, start, entryCount - i, e, off);
      DeliverStep(e, WalkFrom(buf, off, entryCount - i - 1).delivered, cb.value, ctx');
      var (more, next) := cb.value(e, ctx');
      ctx' := next;
      if !more { return CallbackAbort, ctx'; }
      i := i + 1;
    }
    WalkEnd(buf, off);
    DeliverNone(cb.value, ctx');
    return Ok, ctx';
  }
}
