/** The authenticated configuration channel: signing a config write, and the receive path that
    checks target, replay guard and signature before any entry reaches the settings. */
module ConfigChannel {
  import opened Bytes
  import opened Frame
  import opened Hmac
  import opened Tlv
  import NumonceLru
  import Sha256

  // ---------------------------------------------------------------------------
  // Sending
  // ---------------------------------------------------------------------------

  function Numonce(bytes: Eight): (v: u64)
  {
    Pow256Values();
    FromLittleEndian(bytes)
  }

  function NumonceBytes(v: u64): (bytes: Eight) {
    ToLittleEndian(v, 8)
  }

  lemma NumonceRoundTrip(v: u64)
    ensures Numonce(NumonceBytes(v)) == v
  {
    Pow256Values();
    LittleEndianRoundTrip(v, 8);
  }

  /** Everything the signature covers: the header and the payload up to the end of the bag. */
  function SignedPart(source: u16, target: u32, bag: seq<u8>, numonce: u64): (bytes: seq<u8>)
    requires |bag| <= MAX_BAG
    ensures |bytes| == HEADER_SIZE + 13 + |bag|
  {
    HeaderBytes(ConfigHeader(source, 1, 0, |bag|)) +
    (ToLittleEndian(target, 4) + NumonceBytes(numonce) + [|bag|] + bag)
  }

  function SignedFrame(source: u16, target: u32, key: Key, bag: seq<u8>, numonce: u64): (frame: seq<u8>)
    requires |bag| <= MAX_BAG
  {
    var part := SignedPart(source, target, bag, numonce);
    part + Sign(key, part)
  }

  /** The frame is a header and a payload that carries the signature of what precedes it. */
  lemma FrameShape(source: u16, target: u32, key: Key, bag: seq<u8>, numonce: u64)
    requires |bag| <= MAX_BAG
    ensures var part := SignedPart(source, target, bag, numonce);
            SignedFrame(source, target, key, bag, numonce)
            == HeaderBytes(ConfigHeader(source, 1, 0, |bag|))
               + ConfigPayload(ConfigWrite(target, NumonceBytes(numonce), bag, Sign(key, part)))
  {
    hide ToLittleEndian, Sign, HeaderBytes;
  }

  /** The trailing eight bytes are the truncated code of section 2 of RFC 2104. */
  lemma FrameIsSigned(source: u16, target: u32, key: Key, bag: seq<u8>, numonce: u64)
    requires |bag| <= 220
    ensures var frame := SignedFrame(source, target, key, bag, numonce);
            var part := frame[..|frame| - 8];
            && frame[|frame| - 8..] == Full(key, part)[..8]
            && Sha256.BitsOf(Full(key, part)) == Rfc2104(key, part)
  {
    hide ToLittleEndian, Full, HeaderBytes, Rfc2104;
    var frame, part := SignedFrame(source, target, key, bag, numonce), SignedPart(source, target, bag, numonce);
    assert frame[..|frame| - MAC_LEN] == part;
    FullIsRfc2104(key, part);
  }

  method BuildSignedConfigWrite(out: array<u8>, source: u16, target: u32, key: Key, bag: seq<u8>, numonce: u64)
    returns (n: nat)
    requires |bag| < 0x100
    modifies out
    ensures n == if |bag| > MAX_BAG || out.Length < HEADER_SIZE + FIXED_OVERHEAD + |bag| then 0
                 else HEADER_SIZE + FIXED_OVERHEAD + |bag|
    ensures n == 0 ==> out[..] == old(out[..])
    ensures n > 0 ==> out[..n] == SignedFrame(source, target, key, bag, numonce) && out[n..] == old(out[n..])
  {
    hide ToLittleEndian, Sign, HeaderBytes;
    if out.Length == 0 || |bag| > MAX_BAG {
      return 0;
    }
    var numonceBytes := SplitNumonce(numonce);
    var placeholder: Eight := [0, 0, 0, 0, 0, 0, 0, 0];
    var w := ConfigWrite(target, numonceBytes, bag, placeholder);
    n := EncodeConfigWrite(out, Header(source, 1, 0, 0, 0), w);
    if n == 0 {
      return;
    }
    var signedLen := n - MAC_LEN;
    ghost var part := SignedPart(source, target, bag, numonce);
    assert out[..signedLen] == part by {
      assert ConfigPayload(w)[..13 + |bag|] == ToLittleEndian(target, 4) + numonceBytes + [|bag|] + bag;
      assert out[..signedLen] == out[..n][..signedLen];
    }
    ghost var tail := out[n..];
    var mac := SignT8(key, out[..signedLen]);
    CopyInto(out, signedLen, mac);
    assert out[..n] == out[..signedLen] + out[signedLen..n];
  }

  /** The eight bytes of the counter, low byte first, by shifts. */
  method SplitNumonce(v: u64) returns (bytes: Eight)
    ensures bytes == NumonceBytes(v)
  {
    hide ToLittleEndian;
    var low: seq<u8> := [];
    var rest: nat := v;
    for i := 0 to 8
      invariant |low| == i
      invariant ToLittleEndian(v, 8) == low + ToLittleEndian(rest, 8 - i)
    {
      LittleEndianStep(rest, 8 - i);
      low := low + [rest % 256];
      rest := rest / 256;
    }
    LittleEndianNone(rest);
    bytes := low;
  }

  lemma LittleEndianStep(v: nat, n: nat)
    requires n > 0
    ensures ToLittleEndian(v, n) == [v % 256] + ToLittleEndian(v / 256, n - 1)
  {
  }

  lemma LittleEndianNone(v: nat)
    ensures ToLittleEndian(v, 0) == []
  {
  }

  // ---------------------------------------------------------------------------
  // Receiving
  // ---------------------------------------------------------------------------

  datatype Verdict = Accepted | BadTarget | Replay | BadHmac | MalformedFrame | MalformedBag

  datatype Detail = Detail(result: Verdict, numonce: u64, appliedKeys: u8, status: u8)

  function Rejected(v: Verdict): (d: Detail) {
    Detail(v, 0, 0, 0)
  }

  /** The config write a frame carries, if it carries one. */
  function Carried(frame: seq<u8>): (r: Option<(u16, ConfigWrite)>)
    ensures r.Some? ==> |frame| >= HEADER_SIZE + FIXED_OVERHEAD
  {
    match DecodeHeader(frame)
    case Fail(_) => None
    case Ok(h) =>
      if h.messageType != CONFIG_WRITE then None
      else
        match DecodeConfigWrite(h, PayloadOf(frame, h))
        case Fail(_) => None
        case Ok(w) => Some((h.source, w))
  }

  /** The callback of the walk, counting up to 255 entries. */
  function Counting<C>(cb: (Entry, C) -> (bool, C)): (r: (Entry, (u8, C)) -> (bool, (u8, C))) {
    (e: Entry, wc: (u8, C)) =>
      var walked: u8 := if wc.0 < 0xFF then wc.0 + 1 else wc.0;
      var (more, c) := cb(e, wc.1);
      (more, (walked, c))
  }

  /** Whether the walk of a bag ends well, and with what count and settings. */
  function WalkOutcome<C>(w: ConfigWrite, cb: (Entry, C) -> (bool, C), ctx: C): (r: (bool, (u8, C))) {
    var walk := Decode(w.bag);
    var (all, wc) := Deliver(walk.delivered, Counting(cb), (0, ctx));
    (all && walk.err == DecodeError.Ok, wc)
  }

  /** Apply the bag of an authenticated frame. */
  function ApplyBag<C>(w: ConfigWrite, cb: (Entry, C) -> (bool, C), ctx: C): (r: (Detail, C)) {
    var (well, (walked, ctx')) := WalkOutcome(w, cb, ctx);
    if well then (Detail(Accepted, Numonce(w.numonce), walked, 0), ctx') else (Rejected(MalformedBag), ctx')
  }

  predicate Genuine(frame: seq<u8>, key: Key, w: ConfigWrite)
    requires |frame| >= MAC_LEN
  {
    w.mac == Sign(key, frame[..|frame| - MAC_LEN])
  }

  function Process<C>(frame: seq<u8>, uid: u32, key: Key, t: NumonceLru.Table, cb: (Entry, C) -> (bool, C), ctx: C)
    : (r: (Detail, NumonceLru.Table, C))
    requires |t.slots| == NumonceLru.SLOTS
    ensures |r.1.slots| == NumonceLru.SLOTS
  {
    match Carried(frame)
    case None => (Rejected(MalformedFrame), t, ctx)
    case Some((source, w)) =>
      if w.target != uid then (Rejected(BadTarget), t, ctx)
      else
        var (admitted, t') := NumonceLru.Check(t, source, Numonce(w.numonce));
        if !admitted then (Rejected(Replay), t', ctx)
        else if !Genuine(frame, key, w) then (Rejected(BadHmac), t', ctx)
        else
          var (detail, ctx') := ApplyBag(w, cb, ctx);
          (detail, t', ctx')
  }

  /** A frame that is a whole config write, by its bytes. */
  predicate WriteFrame(f: seq<u8>) {
    && |f| >= 30 && f[0] == 0x4E && f[1] == 0x4E && f[2] == 4 && f[7] == 0x0F
    && f[21] <= 220 && f[8] == 21 + f[21] && 9 + f[8] <= |f|
  }

  /** What a whole config write carries, byte by byte. */
  lemma CarriedFromBytes(f: seq<u8>)
    ensures Carried(f).Some? <==> WriteFrame(f)
    ensures WriteFrame(f) ==>
              var (source, w) := Carried(f).value;
              && source == (f[3] as int) + 256 * (f[4] as int)
              && w.target == FromLittleEndian(f[9..13]) && w.numonce == f[13..21]
              && w.bag == f[22..22 + f[21]] && w.mac == f[22 + f[21]..30 + f[21]]
  {
    HeaderFromBytes(f);
    hide FromLittleEndian, DecodeHeader, DecodeConfigWrite;
    if DecodeHeader(f).Ok? {
      var h := DecodeHeader(f).value;
      var p := PayloadOf(f, h);
      ConfigWriteFromBytes(h, p);
      assert |p| > 12 ==> p[12] == f[21];
      if |p| >= 21 {
        SliceOfSlice(f, 9, 9 + |p|, 4, 12);
        var n: nat := p[12];
        if |p| == 21 + n {
          SliceOfSlice(f, 9, 9 + |p|, 13, 13 + n);
          SliceOfSlice(f, 9, 9 + |p|, 13 + n, |p|);
          SliceOfSlice(f, 9, 9 + |p|, 0, 4);
        }
      }
    }
  }

  lemma SliceOfSlice(f: seq<u8>, a: nat, b: nat, i: nat, j: nat)
    requires a <= b <= |f| && i <= j <= b - a
    ensures f[a..b][i..j] == f[a + i..a + j]
  {
    var x, y := f[a..b][i..j], f[a + i..a + j];
    assert |x| == |y| && forall k :: 0 <= k < |x| ==> x[k] == f[a + i + k] == y[k];
  }

  /** Which answer arbitrary bytes get: the first check that fails, in the order form, address, replay,
      signature, bag. */
  lemma AnswerFromBytes<C>(f: seq<u8>, uid: u32, key: Key, t: NumonceLru.Table, cb: (Entry, C) -> (bool, C), ctx: C)
    requires |t.slots| == 16
    ensures var d := Process(f, uid, key, t, cb, ctx).0;
            && (d == Detail(MalformedFrame, 0, 0, 0) <==> !WriteFrame(f))
            && (WriteFrame(f) ==>
                  var source, number := (f[3] as int) + 256 * (f[4] as int), FromLittleEndian(f[13..21]);
                  && number < 0x1_0000_0000_0000_0000
                  && var mine := FromLittleEndian(f[9..13]) == uid;
                     var admitted := NumonceLru.Check(t, source, number).0;
                     var genuine := f[22 + f[21]..30 + f[21]] == Sign(key, f[..|f| - 8]);
                     && (d == Detail(BadTarget, 0, 0, 0) <==> !mine)
                     && (d == Detail(Replay, 0, 0, 0) <==> mine && !admitted)
                     && (d == Detail(BadHmac, 0, 0, 0) <==> mine && admitted && !genuine)
                     && (d.result == MalformedBag || d.result == Accepted <==> mine && admitted && genuine)
                     && (d.result == Accepted ==> d.numonce == number && d.status == 0))
  {
    Pow256Values();
    CarriedFromBytes(f);
    hide Carried, FromLittleEndian, NumonceLru.Check, Sign, WalkOutcome, Pow256;
  }

  /** How many entries the callback sees. */
  function Taken<C>(es: seq<Entry>, cb: (Entry, C) -> (bool, C), ctx: C): (n: nat)
    ensures n <= |es|
  {
    if |es| == 0 then 0
    else
      var (more, ctx') := cb(es[0], ctx);
      if more then 1 + Taken(es[1..], cb, ctx') else 1
  }

  lemma {:induction false} CountingCounts<C>(es: seq<Entry>, cb: (Entry, C) -> (bool, C), k: u8, ctx: C)
    ensures Deliver(es, Counting(cb), (k, ctx))
            == (Deliver(es, cb, ctx).0,
                (if k + Taken(es, cb, ctx) < 0xFF then k + Taken(es, cb, ctx) else 0xFF, Deliver(es, cb, ctx).1))
  {
    if |es| > 0 {
      var (more, ctx') := cb(es[0], ctx);
      var k': u8 := if k < 0xFF then k + 1 else k;
      assert Counting(cb)(es[0], (k, ctx)) == (more, (k', ctx'));
      if more {
        CountingCounts(es[1..], cb, k', ctx');
      }
    }
  }

  /** A callback that never refuses, as the firmware's, sees every entry. */
  lemma {:induction false} WillingTakesAll<C(!new)>(es: seq<Entry>, cb: (Entry, C) -> (bool, C), ctx: C)
    requires forall e: Entry, c: C :: cb(e, c).0
    ensures Taken(es, cb, ctx) == |es| && Deliver(es, cb, ctx).0
  {
    if |es| > 0 {
      WillingTakesAll(es[1..], cb, cb(es[0], ctx).1);
    }
  }

  /** Every entry takes at least four bytes, so a bag cannot carry enough to saturate the count. */
  lemma {:induction false} FewEntries(es: seq<Entry>)
    requires AllEncodable(es)
    ensures 4 * |es| <= |Body(es)|
  {
    if |es| > 0 {
      FewEntries(es[..|es| - 1]);
      assert Encodable(es[|es| - 1]);
    }
  }

  lemma SignedHeader(source: u16, bagLen: nat)
    requires bagLen <= MAX_BAG
    ensures var b := HeaderBytes(ConfigHeader(source, 1, 0, bagLen)); b[5] == 1 && b[6] == 0
  {
  }

  /** A signed frame has sequence number 1 and no hops, and carries what was put in. */
  lemma CarriedOfSigned(source: u16, target: u32, key: Key, bag: seq<u8>, numonce: u64)
    requires |bag| <= 220
    ensures var part := SignedPart(source, target, bag, numonce);
            var frame := SignedFrame(source, target, key, bag, numonce);
            var w := ConfigWrite(target, NumonceBytes(numonce), bag, Sign(key, part));
            && Carried(frame) == Some((source, w)) && Genuine(frame, key, w)
            && WriteFrame(frame) && |frame| == 30 + |bag| && frame[5] == 1 && frame[6] == 0
  {
    hide ToLittleEndian, Sign, HeaderBytes, ConfigPayload, DecodeConfigWrite, DecodeHeader, PayloadOf, SignedPart;
    var part, frame := SignedPart(source, target, bag, numonce), SignedFrame(source, target, key, bag, numonce);
    var w := ConfigWrite(target, NumonceBytes(numonce), bag, Sign(key, part));
    var h := ConfigHeader(source, 1, 0, |bag|);
    FrameShape(source, target, key, bag, numonce);
    SignedHeader(source, |bag|);
    CarriedFromBytes(frame);
    assert frame[..9] == HeaderBytes(h);
    assert frame[5] == frame[..9][5] && frame[6] == frame[..9][6];
    HeaderRoundTrip(h, ConfigPayload(w), []);
    assert HeaderBytes(h) + ConfigPayload(w) + [] == frame;
    ConfigWriteRoundTrip(h, w);
    assert frame[..|frame| - MAC_LEN] == part;
  }

  /** A frame built over any encoder bag and received under the same address and secret is accepted
      exactly when the replay guard admits its number; then every entry is delivered in order, and
      the detail returns the 64-bit number and the entry count. */
  lemma SignedIsAccepted<C(!new)>(source: u16, uid: u32, key: Key, es: seq<Entry>, numonce: u64,
                                  t: NumonceLru.Table, cb: (Entry, C) -> (bool, C), ctx: C)
    requires AllEncodable(es) && |es| < 0x100 && |Bag(es)| <= 220
    requires |t.slots| == 16 && forall e: Entry, c: C :: cb(e, c).0
    ensures var (admitted, t') := NumonceLru.Check(t, source, numonce);
            Process(SignedFrame(source, uid, key, Bag(es), numonce), uid, key, t, cb, ctx)
            == if admitted then (Detail(Accepted, numonce, |es|, 0), t', Deliver(es, cb, ctx).1)
               else (Rejected(Replay), t', ctx)
  {
    hide SignedFrame, Carried, Genuine, Sign, Numonce, NumonceBytes, Decode, Deliver, NumonceLru.Check, Bag;
    CarriedOfSigned(source, uid, key, Bag(es), numonce);
    NumonceRoundTrip(numonce);
    var w := ConfigWrite(uid, NumonceBytes(numonce), Bag(es), Sign(key, SignedPart(source, uid, Bag(es), numonce)));
    DecodeInvertsBag(es, []);
    assert Bag(es) + [] == Bag(es);
    CountingCounts(es, cb, 0, ctx);
    WillingTakesAll(es, cb, ctx);
    FewEntries(es);
    assert |es| <= 55 by {
      BagSize(es);
    }
    assert ApplyBag(w, cb, ctx) == (Detail(Accepted, numonce, |es|, 0), Deliver(es, cb, ctx).1);
  }

  lemma BagSize(es: seq<Entry>)
    requires AllEncodable(es) && |es| < 0x100
    ensures |Bag(es)| == 1 + |Body(es)|
  {
  }

  // ---------------------------------------------------------------------------
  // Runs
  // ---------------------------------------------------------------------------

  /** The write a frame delivers: addressed to this device, fresh for the guard, and genuine. */
  function Delivers(frame: seq<u8>, uid: u32, key: Key, t: NumonceLru.Table): (r: Option<(u16, ConfigWrite)>)
    requires |t.slots| == NumonceLru.SLOTS
  {
    match Carried(frame)
    case None => None
    case Some((source, w)) =>
      if w.target == uid && NumonceLru.Check(t, source, Numonce(w.numonce)).0 && Genuine(frame, key, w)
      then Some((source, w)) else None
  }

  /** No settings move, and nothing is accepted, unless all three checks pass. */
  lemma OnlyAfterChecks<C>(frame: seq<u8>, uid: u32, key: Key, t: NumonceLru.Table, cb: (Entry, C) -> (bool, C), ctx: C)
    requires |t.slots| == 16
    ensures var (detail, t', ctx') := Process(frame, uid, key, t, cb, ctx);
            match Delivers(frame, uid, key, t)
            case None => ctx' == ctx && detail.result != Accepted && detail.result != MalformedBag
            case Some((_, w)) => (detail, ctx') == ApplyBag(w, cb, ctx)
                                 && (detail.result == Accepted || detail.result == MalformedBag)
  {
    hide NumonceLru.Check, Genuine, Carried;
  }

  /** A frame that delivers was addressed to this device and carries a number the guard admits, and
      the code field of its payload is the truncated RFC 2104 code of all but the frame's last eight
      bytes; a radio frame is always short enough for that. Those eight bytes are the field itself
      unless other bytes trail the payload. */
  lemma DeliveringIsAuthentic(frame: seq<u8>, uid: u32, key: Key, t: NumonceLru.Table)
    requires |t.slots| == 16 && |frame| <= 250
    requires Delivers(frame, uid, key, t).Some?
    ensures var (source, w) := Delivers(frame, uid, key, t).value;
            var part := frame[..|frame| - 8];
            && w.target == uid && NumonceLru.Check(t, source, Numonce(w.numonce)).0
            && w.mac == Full(key, part)[..8] && Sha256.BitsOf(Full(key, part)) == Rfc2104(key, part)
  {
    hide NumonceLru.Check, Full, Rfc2104, DecodeHeader, DecodeConfigWrite;
    FullIsRfc2104(key, frame[..|frame| - MAC_LEN]);
  }

  function Run<C>(frames: seq<seq<u8>>, uid: u32, key: Key, t: NumonceLru.Table, cb: (Entry, C) -> (bool, C), ctx: C)
    : (r: (NumonceLru.Table, C))
    requires |t.slots| == NumonceLru.SLOTS
    ensures |r.0.slots| == NumonceLru.SLOTS
  {
    if |frames| == 0 then (t, ctx)
    else
      var (t0, ctx0) := Run(frames[..|frames| - 1], uid, key, t, cb, ctx);
      var (_, t', ctx') := Process(frames[|frames| - 1], uid, key, t0, cb, ctx0);
      (t', ctx')
  }

  /** The calls a run makes to the replay guard: one for each frame addressed to this device. */
  function GuardCalls(frames: seq<seq<u8>>, uid: u32): (calls: seq<NumonceLru.Call>) {
    if |frames| == 0 then []
    else
      GuardCalls(frames[..|frames| - 1], uid) +
      match Carried(frames[|frames| - 1])
      case None => []
      case Some((source, w)) => if w.target == uid then [NumonceLru.Call(source, Numonce(w.numonce))] else []
  }

  lemma {:induction false} RunGuards<C>(frames: seq<seq<u8>>, uid: u32, key: Key, t: NumonceLru.Table,
                                        cb: (Entry, C) -> (bool, C), ctx: C)
    requires |t.slots| == 16
    ensures Run(frames, uid, key, t, cb, ctx).0 == NumonceLru.RunTable(t, GuardCalls(frames, uid))
  {
    hide NumonceLru.Check, Genuine, Carried;
    if |frames| > 0 {
      var front := frames[..|frames| - 1];
      RunGuards(front, uid, key, t, cb, ctx);
      var calls := GuardCalls(frames, uid);
      if calls != GuardCalls(front, uid) {
        assert calls[..|calls| - 1] == GuardCalls(front, uid);
      }
    }
  }

  /** The replay guard as it stands before frame i of a run from a fresh table. */
  function GuardBefore(frames: seq<seq<u8>>, uid: u32, i: nat): (t: NumonceLru.Table)
    requires i <= |frames|
    ensures |t.slots| == NumonceLru.SLOTS
  {
    NumonceLru.RunTable(NumonceLru.Fresh(), GuardCalls(frames[..i], uid))
  }

  /** All entries that a run delivers, in order. */
  function Delivered(frames: seq<seq<u8>>, uid: u32, key: Key): (es: seq<Entry>) {
    if |frames| == 0 then []
    else
      var front := frames[..|frames| - 1];
      var t := NumonceLru.RunTable(NumonceLru.Fresh(), GuardCalls(front, uid));
      Delivered(front, uid, key) +
      match Delivers(frames[|frames| - 1], uid, key, t)
      case None => []
      case Some((_, w)) => Decode(w.bag).delivered
  }

  /** Over any run of arbitrary frames the settings are the fold of the entries of the frames that
      passed every check, in order, and of nothing else. */
  lemma {:induction false} SettingsAreFold<C(!new)>(frames: seq<seq<u8>>, uid: u32, key: Key,
                                                    cb: (Entry, C) -> (bool, C), ctx: C)
    requires forall e: Entry, c: C :: cb(e, c).0
    ensures Run(frames, uid, key, NumonceLru.Fresh(), cb, ctx).1 == Deliver(Delivered(frames, uid, key), cb, ctx).1
  {
    hide NumonceLru.Check, Genuine, Carried, Deliver, Decode, Delivers, Process, ApplyBag, Counting, GuardCalls;
    if |frames| == 0 {
      DeliverNone(cb, ctx);
    } else {
      var front, last := frames[..|frames| - 1], frames[|frames| - 1];
      var t := NumonceLru.RunTable(NumonceLru.Fresh(), GuardCalls(front, uid));
      SettingsAreFold(front, uid, key, cb, ctx);
      RunGuards(front, uid, key, NumonceLru.Fresh(), cb, ctx);
      var ctx0 := Run(front, uid, key, NumonceLru.Fresh(), cb, ctx).1;
      OnlyAfterChecks(last, uid, key, t, cb, ctx0);
      var before := Delivered(front, uid, key);
      WillingTakesAll(before, cb, ctx);
      match Delivers(last, uid, key, t)
      case None =>
        assert before + [] == before;
      case Some((_, w)) =>
        BagIsDelivered(w, cb, ctx0);
        DeliverConcat(before, Decode(w.bag).delivered, cb, ctx);
    }
  }

  lemma BagIsDelivered<C>(w: ConfigWrite, cb: (Entry, C) -> (bool, C), ctx: C)
    ensures ApplyBag(w, cb, ctx).1 == Deliver(Decode(w.bag).delivered, cb, ctx).1
  {
    hide Counting;
    CountingCounts(Decode(w.bag).delivered, cb, 0, ctx);
  }

  lemma {:induction false} AdmittedPrefix(calls: seq<NumonceLru.Call>, m: nat)
    requires m <= |calls|
    ensures NumonceLru.Admitted(calls[..m]) <= NumonceLru.Admitted(calls)
  {
    if m < |calls| {
      AdmittedPrefix(calls[..|calls| - 1], m);
      assert calls[..|calls| - 1][..m] == calls[..m];
    } else {
      assert calls[..m] == calls;
    }
  }

  lemma {:induction false} GuardCallsPrefix(frames: seq<seq<u8>>, uid: u32, m: nat)
    requires m <= |frames|
    ensures GuardCalls(frames[..m], uid) <= GuardCalls(frames, uid)
  {
    if m < |frames| {
      GuardCallsPrefix(frames[..|frames| - 1], uid, m);
      assert frames[..|frames| - 1][..m] == frames[..m];
    } else {
      assert frames[..m] == frames;
    }
  }

  /** A frame that delivers is admitted by the guard at that moment, so it enters the log. */
  lemma DeliveryIsLogged(frames: seq<seq<u8>>, uid: u32, key: Key, i: nat) returns (at: nat)
    requires i < |frames| && Delivers(frames[i], uid, key, GuardBefore(frames, uid, i)).Some?
    ensures at == |NumonceLru.Admitted(GuardCalls(frames[..i], uid))|
    ensures var (source, w) := Delivers(frames[i], uid, key, GuardBefore(frames, uid, i)).value;
            NumonceLru.Admitted(GuardCalls(frames[..i + 1], uid))
            == NumonceLru.Admitted(GuardCalls(frames[..i], uid)) + [NumonceLru.Call(source, Numonce(w.numonce))]
  {
    hide NumonceLru.Check, Genuine, Carried, Numonce, NumonceLru.RunTable, NumonceLru.RunList;
    var (source, w) := Delivers(frames[i], uid, key, GuardBefore(frames, uid, i)).value;
    var calls, call := GuardCalls(frames[..i], uid), NumonceLru.Call(source, Numonce(w.numonce));
    at := |NumonceLru.Admitted(calls)|;
    assert frames[..i + 1][..i] == frames[..i];
    var calls' := GuardCalls(frames[..i + 1], uid);
    assert calls' == calls + [call];
    assert calls'[..|calls'| - 1] == calls;
    var order := NumonceLru.TableIsMru(calls);
    var order' := NumonceLru.StepRefines(GuardBefore(frames, uid, i), order, NumonceLru.RunList(calls), source, call.numonce);
  }

  /** While at most sixteen senders get past the guard, the numbers of the frames that deliver
      strictly increase for each sender: in particular no frame is ever delivered twice. */
  lemma DeliveredOnce(frames: seq<seq<u8>>, uid: u32, key: Key, i: nat, j: nat)
    requires |NumonceLru.Since(NumonceLru.Admitted(GuardCalls(frames, uid)), -1)| <= 16
    requires i < j < |frames|
    requires Delivers(frames[i], uid, key, GuardBefore(frames, uid, i)).Some?
    requires Delivers(frames[j], uid, key, GuardBefore(frames, uid, j)).Some?
    requires Delivers(frames[i], uid, key, GuardBefore(frames, uid, i)).value.0
             == Delivers(frames[j], uid, key, GuardBefore(frames, uid, j)).value.0
    ensures Numonce(Delivers(frames[i], uid, key, GuardBefore(frames, uid, i)).value.1.numonce)
            < Numonce(Delivers(frames[j], uid, key, GuardBefore(frames, uid, j)).value.1.numonce)
    ensures frames[i] != frames[j]
  {
    hide Delivers, Numonce, NumonceLru.Admitted, GuardCalls, NumonceLru.Since, GuardBefore;
    var a := DeliveryIsLogged(frames, uid, key, i);
    var b := DeliveryIsLogged(frames, uid, key, j);
    var calls := GuardCalls(frames, uid);
    LogPrefix(frames, uid, j + 1);
    LogPrefix(frames[..j], uid, i + 1);
    assert frames[..j][..i + 1] == frames[..i + 1];
    NumonceLru.NumbersIncrease(calls, a, b);
    CarriedSame(frames[i], frames[j], uid, key, GuardBefore(frames, uid, i), GuardBefore(frames, uid, j));
  }

  lemma LogPrefix(frames: seq<seq<u8>>, uid: u32, m: nat)
    requires m <= |frames|
    ensures NumonceLru.Admitted(GuardCalls(frames[..m], uid)) <= NumonceLru.Admitted(GuardCalls(frames, uid))
  {
    hide GuardCalls, NumonceLru.Admitted;
    GuardCallsPrefix(frames, uid, m);
    var whole, part := GuardCalls(frames, uid), GuardCalls(frames[..m], uid);
    AdmittedPrefix(whole, |part|);
    assert whole[..|part|] == part;
  }

  lemma CarriedSame(a: seq<u8>, b: seq<u8>, uid: u32, key: Key, ta: NumonceLru.Table, tb: NumonceLru.Table)
    requires |ta.slots| == NumonceLru.SLOTS && |tb.slots| == NumonceLru.SLOTS
    requires Delivers(a, uid, key, ta).Some? && Delivers(b, uid, key, tb).Some?
    ensures a == b ==> Delivers(a, uid, key, ta) == Delivers(b, uid, key, tb)
  {
    hide NumonceLru.Check, Genuine, Carried;
  }

  // ---------------------------------------------------------------------------
  // The receive method
  // ---------------------------------------------------------------------------

  /** The little-endian 64-bit value, most significant byte first. */
  method ReadU64(bytes: Eight) returns (v: u64)
    ensures v == Numonce(bytes)
  {
    hide FromLittleEndian, Pow256;
    var acc: nat := 0;
    var i := 8;
    assert bytes[8..] == [];
    FromNothing();
    while i > 0
      invariant 0 <= i <= 8 && acc == FromLittleEndian(bytes[i..])
    {
      i := i - 1;
      FromStep(bytes, i);
      acc := acc * 256 + bytes[i];
    }
    assert bytes[0..] == bytes;
    Pow256Values();
    v := acc;
  }

  lemma FromNothing()
    ensures FromLittleEndian([]) == 0
  {
  }

  lemma FromStep(bytes: seq<u8>, i: nat)
    requires i < |bytes|
    ensures FromLittleEndian(bytes[i..]) == bytes[i] + 256 * FromLittleEndian(bytes[i + 1..])
  {
    assert bytes[i..][1..] == bytes[i + 1..];
  }

  method ProcessConfigWrite<C>(frame: seq<u8>, uid: u32, key: Key, guard: NumonceLru.NumonceLru,
                               cb: (Entry, C) -> (bool, C), ctx: C)
    returns (detail: Detail, ctx': C)
    requires guard.Valid()
    modifies guard`tick, guard.slots
    ensures guard.Valid() && guard.slots == old(guard.slots)
    ensures (detail, guard.State(), ctx') == Process(frame, uid, key, old(guard.State()), cb, ctx)
  {
    hide NumonceLru.Check, Genuine, Numonce, DecodeConfigWrite, DecodeHeader, Deliver, Decode, Sign;
    detail, ctx' := Rejected(MalformedFrame), ctx;
    var header := DecodeHeader(frame);
    if header.Fail? || header.value.messageType != CONFIG_WRITE {
      return;
    }
    var decoded := DecodeConfigWrite(header.value, PayloadOf(frame, header.value));
    if decoded.Fail? {
      return;
    }
    var w := decoded.value;
    assert Carried(frame) == Some((header.value.source, w));
    if w.target != uid {
      detail := Rejected(BadTarget);
      return;
    }
    var incoming := ReadU64(w.numonce);
    var admitted := guard.CheckAndUpdate(header.value.source, incoming);
    if !admitted {
      detail := Rejected(Replay);
      return;
    }
    var genuine := VerifyT8(key, frame[..|frame| - MAC_LEN], w.mac);
    assert genuine == Genuine(frame, key, w) by {
      GenuineMeans(frame, key, w);
    }
    if !genuine {
      detail := Rejected(BadHmac);
      return;
    }
    var err, wc := DecodePropertyBag(w.bag, Some(Counting(cb)), (0, ctx));
    ctx' := wc.1;
    assert (err == DecodeError.Ok, wc) == WalkOutcome(w, cb, ctx) by {
      NothingInEmpty(w, cb, ctx);
    }
    detail := if err == DecodeError.Ok then Detail(Accepted, incoming, wc.0, 0) else Rejected(MalformedBag);
  }

  lemma GenuineMeans(frame: seq<u8>, key: Key, w: ConfigWrite)
    requires |frame| >= MAC_LEN
    ensures Genuine(frame, key, w) <==> w.mac == Sign(key, frame[..|frame| - MAC_LEN])
  {
  }

  lemma NothingInEmpty<C>(w: ConfigWrite, cb: (Entry, C) -> (bool, C), ctx: C)
    ensures |w.bag| == 0 ==> WalkOutcome(w, cb, ctx) == (false, (0, ctx))
  {
  }
}
