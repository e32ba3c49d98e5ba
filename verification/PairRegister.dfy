/** The Director's pairing register: a 20-slot array edited in place, with a saturating sequence
    counter and a blob in non-volatile storage. Specification functions work on the occupied
    slots; the class edits the slot array. */
module PairRegister {
  import opened Bytes
  import opened Counting

  const MAX_ENTRIES: nat := 20
  const SATURATION: u32 := 0xFFFF_FFF0
  const BLOB_VERSION: u8 := 2
  const BLOB_HEADER_SIZE: nat := 6

  /** Last-known configuration of a paired Lume. */
  datatype Snapshot = Snapshot(group: u8, ledPower: u8, channelPref: u8, stripChain: u16,
                               stripGroupSize: u8, pairWinS: u8)

  datatype Entry = Entry(uid: u32, secret: seq<u8>, role: u8, host: u8, friendlyName: seq<u8>,
                         capturedAt: u32, lastConfiguredAt: u32, snapshot: Snapshot, snapValid: u8)

  const BLANK: Entry := Entry(0, [], 0, 0, [], 0, 0, Snapshot(0, 0, 0, 0, 0, 0), 0)

  /** The register's state: occupied slots in storage order and the next sequence number. */
  datatype Reg = Reg(entries: seq<Entry>, next: u32)

  const EMPTY: Reg := Reg([], 1)

  predicate WellFormed(r: Reg) {
    && |r.entries| <= MAX_ENTRIES
    && 1 <= r.next <= SATURATION
    && (forall i, j :: 0 <= i < j < |r.entries| ==> r.entries[i].uid != r.entries[j].uid)
    && (forall i :: 0 <= i < |r.entries| ==> r.entries[i].capturedAt <= r.next)
    && (r.next < SATURATION ==> FreshStamps(r.entries, r.next))
  }

  /** Stamps are pairwise distinct and all handed out already. */
  predicate FreshStamps(es: seq<Entry>, next: u32) {
    && (forall i :: 0 <= i < |es| ==> es[i].capturedAt < next)
    && (forall i, j :: 0 <= i < j < |es| ==> es[i].capturedAt != es[j].capturedAt)
  }

  function Bump(next: u32): (n: u32)
    ensures next <= n
  {
    if next < SATURATION then next + 1 else next
  }

  /** First slot holding uid, or the number of slots. */
  function Find(es: seq<Entry>, uid: u32): (k: nat)
    ensures k <= |es|
    ensures k < |es| ==> es[k].uid == uid
    ensures forall i :: 0 <= i < k ==> es[i].uid != uid
  {
    if |es| == 0 || es[0].uid == uid then 0 else 1 + Find(es[1..], uid)
  }

  /** First of the first m slots with the least capture stamp. */
  function Oldest(es: seq<Entry>, m: nat): (k: nat)
    requires 0 < m <= |es|
    ensures k < m
    ensures forall i :: 0 <= i < m ==> es[k].capturedAt <= es[i].capturedAt
    ensures forall i :: 0 <= i < k ==> es[k].capturedAt < es[i].capturedAt
  {
    if m == 1 then 0
    else
      var k := Oldest(es, m - 1);
      if es[m - 1].capturedAt < es[k].capturedAt then m - 1 else k
  }

  function AddStep(r: Reg, e: Entry): (r': Reg)
    requires |r.entries| <= MAX_ENTRIES
  {
    var k := Find(r.entries, e.uid);
    if k < |r.entries| then
      var was := r.entries[k];
      Reg(r.entries[k := e.(capturedAt := was.capturedAt, lastConfiguredAt := was.lastConfiguredAt)], r.next)
    else
      var stamped := e.(capturedAt := r.next);
      if |r.entries| == MAX_ENTRIES then
        Reg(r.entries[Oldest(r.entries, MAX_ENTRIES) := stamped], Bump(r.next))
      else
        Reg(r.entries + [stamped], Bump(r.next))
  }

  function RemoveStep(r: Reg, uid: u32): (r': Reg) {
    var k := Find(r.entries, uid);
    if k < |r.entries| then Reg(r.entries[..k] + r.entries[k + 1..], r.next) else r
  }

  function MarkStep(r: Reg, uid: u32): (r': Reg) {
    var k := Find(r.entries, uid);
    if k < |r.entries| then
      Reg(r.entries[k := r.entries[k].(lastConfiguredAt := r.next)], Bump(r.next))
    else r
  }

  function SnapshotStep(r: Reg, uid: u32, s: Snapshot): (r': Reg) {
    var k := Find(r.entries, uid);
    if k < |r.entries| then
      Reg(r.entries[k := r.entries[k].(snapshot := s, snapValid := 1, lastConfiguredAt := r.next)], Bump(r.next))
    else r
  }

  // ---------------------------------------------------------------------------
  // Storage blob
  // ---------------------------------------------------------------------------

  /** The stored blob: six header bytes and the raw entry records behind them. */
  datatype Blob = Blob(header: seq<u8>, records: seq<Entry>)

  function SaveBlob(r: Reg): (b: Blob)
    requires |r.entries| <= MAX_ENTRIES
  {
    Blob([BLOB_VERSION, |r.entries|] + ToLittleEndian(r.next, 4), r.entries)
  }

  function LoadBlob(stored: Option<Blob>): (r: Reg)
    ensures |r.entries| <= MAX_ENTRIES && r.next >= 1
  {
    match stored
    case None => EMPTY
    case Some(b) =>
      if |b.header| < BLOB_HEADER_SIZE || b.header[0] != BLOB_VERSION then EMPTY
      else
        var count: nat := b.header[1];
        var next: nat := FromLittleEndian(b.header[2..6]);
        assert next < Pow256(4) == 0x1_0000_0000;
        if count > MAX_ENTRIES || |b.records| < count then EMPTY
        else Reg(b.records[..count], if next == 0 then 1 else next)
  }

  lemma LoadAfterSave(r: Reg)
    requires |r.entries| <= 20 && r.next >= 1
    ensures LoadBlob(Some(SaveBlob(r))) == r
    ensures |SaveBlob(r).header| == 6 && SaveBlob(r).header[0] == 2 && SaveBlob(r).header[1] == |r.entries|
  {
    var b := SaveBlob(r);
    assert b.header[2..6] == ToLittleEndian(r.next, 4);
    assert Pow256(4) == 0x1_0000_0000;
    LittleEndianRoundTrip(r.next, 4);
    assert b.records[..|r.entries|] == r.entries;
  }

  /** A stored blob is taken up exactly when its six header bytes say version 2 and at most 20 entries
      and that many records follow; a counter of zero then counts as 1. Anything else is an empty
      register that starts at 1. */
  lemma LoadFromBytes(b: Blob)
    ensures var taken := |b.header| >= 6 && b.header[0] == 2 && b.header[1] <= 20 && b.header[1] <= |b.records|;
            && LoadBlob(None) == Reg([], 1)
            && (!taken ==> LoadBlob(Some(b)) == Reg([], 1))
            && (taken ==>
                  var r := LoadBlob(Some(b));
                  var n := (b.header[2] as int) + 0x100 * (b.header[3] as int) + 0x1_0000 * (b.header[4] as int)
                           + 0x100_0000 * (b.header[5] as int);
                  r.entries == b.records[..b.header[1]] && r.next == if n == 0 then 1 else n)
  {
    hide FromLittleEndian;
    if |b.header| >= 6 {
      FourByteValue(b.header[2..6]);
    }
  }

  // ---------------------------------------------------------------------------
  // Sorted views
  // ---------------------------------------------------------------------------

  predicate Descending(es: seq<Entry>) {
    forall i, j :: 0 <= i < j < |es| ==> es[i].capturedAt >= es[j].capturedAt
  }

  /** Insert behind every entry whose stamp is at least as recent. */
  function InsertDescending(s: seq<Entry>, e: Entry): (r: seq<Entry>)
    ensures |r| == |s| + 1
  {
    if |s| > 0 && s[|s| - 1].capturedAt < e.capturedAt then
      InsertDescending(s[..|s| - 1], e) + [s[|s| - 1]]
    else s + [e]
  }

  /** Insertion sort of the first m entries, most recent first. */
  function SortFirst(es: seq<Entry>, m: nat): (r: seq<Entry>)
    requires m <= |es|
    ensures |r| == m
  {
    if m == 0 then [] else InsertDescending(SortFirst(es, m - 1), es[m - 1])
  }

  function SortDescending(es: seq<Entry>): (r: seq<Entry>)
    ensures |r| == |es|
  {
    SortFirst(es, |es|)
  }

  lemma {:induction false} InsertPermutes(s: seq<Entry>, e: Entry)
    ensures multiset(InsertDescending(s, e)) == multiset(s) + multiset{e}
  {
    if |s| > 0 && s[|s| - 1].capturedAt < e.capturedAt {
      assert s == s[..|s| - 1] + [s[|s| - 1]];
      InsertPermutes(s[..|s| - 1], e);
    }
  }

  lemma {:induction false} SortFirstPermutes(es: seq<Entry>, m: nat)
    requires m <= |es|
    ensures multiset(SortFirst(es, m)) == multiset(es[..m])
  {
    hide InsertDescending;
    if m > 0 {
      assert es[..m] == es[..m - 1] + [es[m - 1]];
      SortFirstPermutes(es, m - 1);
      InsertPermutes(SortFirst(es, m - 1), es[m - 1]);
    }
  }

  /** How many of the first m entries carry a stamp of at least c. */
  function CountFrom(es: seq<Entry>, m: nat, c: u32): (n: nat)
    requires m <= |es|
    ensures n <= m
  {
    if m == 0 then 0 else CountFrom(es, m - 1, c) + (if es[m - 1].capturedAt >= c then 1 else 0)
  }

  lemma {:induction false} CountFromPrefix(s: seq<Entry>, t: seq<Entry>, m: nat, c: u32)
    requires m <= |s| && m <= |t| && s[..m] == t[..m]
    ensures CountFrom(s, m, c) == CountFrom(t, m, c)
  {
    if m > 0 {
      assert s[m - 1] == s[..m][m - 1] == t[..m][m - 1] == t[m - 1];
      assert s[..m - 1] == s[..m][..m - 1] == t[..m][..m - 1] == t[..m - 1];
      CountFromPrefix(s, t, m - 1, c);
    }
  }

  /** In a descending sequence the entries stamped at least c are exactly the first CountFrom. */
  lemma {:induction false} CountFromSplits(s: seq<Entry>, m: nat, c: u32)
    requires Descending(s) && m <= |s|
    ensures forall k :: 0 <= k < m ==> (s[k].capturedAt >= c <==> k < CountFrom(s, m, c))
  {
    if m > 0 {
      CountFromSplits(s, m - 1, c);
    }
  }

  /** Insertion by scanning from the back stops at the right place. */
  lemma {:induction false} InsertAt(s: seq<Entry>, e: Entry, j: nat)
    requires j <= |s| && (j == 0 || s[j - 1].capturedAt >= e.capturedAt)
    requires forall k :: j <= k < |s| ==> s[k].capturedAt < e.capturedAt
    ensures InsertDescending(s, e) == s[..j] + [e] + s[j..]
  {
    if j < |s| {
      InsertAt(s[..|s| - 1], e, j);
      assert s[..|s| - 1][j..] + [s[|s| - 1]] == s[j..];
    }
  }

  lemma InsertPlaces(s: seq<Entry>, e: Entry)
    requires Descending(s)
    ensures var p := CountFrom(s, |s|, e.capturedAt); InsertDescending(s, e) == s[..p] + [e] + s[p..]
  {
    CountFromSplits(s, |s|, e.capturedAt);
    InsertAt(s, e, CountFrom(s, |s|, e.capturedAt));
  }

  lemma InsertDescends(s: seq<Entry>, e: Entry)
    requires Descending(s)
    ensures Descending(InsertDescending(s, e))
  {
    InsertPlaces(s, e);
    CountFromSplits(s, |s|, e.capturedAt);
  }

  lemma {:induction false} InsertCounts(s: seq<Entry>, e: Entry, c: u32)
    ensures CountFrom(InsertDescending(s, e), |s| + 1, c)
            == CountFrom(s, |s|, c) + (if e.capturedAt >= c then 1 else 0)
  {
    var r := InsertDescending(s, e);
    if |s| > 0 && s[|s| - 1].capturedAt < e.capturedAt {
      var front := s[..|s| - 1];
      InsertCounts(front, e, c);
      CountFromPrefix(front, s, |front|, c);
      CountFromPrefix(InsertDescending(front, e), r, |s|, c);
    } else {
      CountFromPrefix(s, r, |s|, c);
    }
  }

  lemma {:induction false} SortIsDescending(es: seq<Entry>, m: nat)
    requires m <= |es|
    ensures Descending(SortFirst(es, m))
  {
    if m > 0 {
      SortIsDescending(es, m - 1);
      InsertDescends(SortFirst(es, m - 1), es[m - 1]);
    }
  }

  lemma {:induction false} SortCounts(es: seq<Entry>, m: nat, c: u32)
    requires m <= |es|
    ensures CountFrom(SortFirst(es, m), m, c) == CountFrom(es, m, c)
  {
    if m > 0 {
      SortCounts(es, m - 1, c);
      InsertCounts(SortFirst(es, m - 1), es[m - 1], c);
    }
  }

  /** The list the operator sees: the register's entries, most recent first. */
  lemma ListIsDescendingPermutation(es: seq<Entry>)
    ensures Descending(SortDescending(es)) && multiset(SortDescending(es)) == multiset(es)
  {
    SortIsDescending(es, |es|);
    SortFirstPermutes(es, |es|);
    assert es[..|es|] == es;
  }

  /** Slot j is listed ahead of slot i: more recent, or equally recent in an earlier slot. */
  predicate Ahead(es: seq<Entry>, j: nat, i: nat)
    requires i < |es| && j < |es|
  {
    es[j].capturedAt > es[i].capturedAt || (es[j].capturedAt == es[i].capturedAt && j < i)
  }

  /** How many of the first m slots are listed ahead of slot i. */
  function Rank(es: seq<Entry>, m: nat, i: nat): (n: nat)
    requires m <= |es| && i < |es|
  {
    if m == 0 then 0
    else Rank(es, m - 1, i) + (if m - 1 != i && Ahead(es, m - 1, i) then 1 else 0)
  }

  lemma {:induction false} RankOfLater(es: seq<Entry>, m: nat, i: nat)
    requires m <= i < |es|
    ensures Rank(es, m, i) == CountFrom(es, m, es[i].capturedAt)
  {
    if m > 0 {
      RankOfLater(es, m - 1, i);
    }
  }

  /** The newest slot's rank is its insertion point. */
  lemma NewestRank(es: seq<Entry>, m: nat)
    requires 0 < m <= |es|
    ensures Rank(es, m, m - 1) == CountFrom(SortFirst(es, m - 1), m - 1, es[m - 1].capturedAt) < m
  {
    RankOfLater(es, m - 1, m - 1);
    SortCounts(es, m - 1, es[m - 1].capturedAt);
  }

  /** Where insertion moves what was already listed. */
  lemma InsertShifts(s: seq<Entry>, e: Entry, k: nat)
    requires Descending(s) && k < |s|
    ensures var p := CountFrom(s, |s|, e.capturedAt);
            && (k < p <==> s[k].capturedAt >= e.capturedAt)
            && InsertDescending(s, e)[if k < p then k else k + 1] == s[k]
  {
    InsertPlaces(s, e);
    CountFromSplits(s, |s|, e.capturedAt);
  }

  /** Rank counting and insertion sort agree, ties included. */
  lemma {:induction false} RankPlaces(es: seq<Entry>, m: nat, i: nat)
    requires i < m <= |es|
    ensures Rank(es, m, i) < m
    ensures SortFirst(es, m)[Rank(es, m, i)] == es[i]
  {
    hide InsertDescending, CountFrom;
    var s, e := SortFirst(es, m - 1), es[m - 1];
    SortIsDescending(es, m - 1);
    if i < m - 1 {
      RankPlaces(es, m - 1, i);
      InsertShifts(s, e, Rank(es, m - 1, i));
    } else {
      NewestRank(es, m);
      InsertPlaces(s, e);
    }
  }

  /** The newest slot pushes down exactly the ranks at or behind its own. */
  lemma RankShifts(es: seq<Entry>, m: nat, i: nat)
    requires i < m - 1 < |es|
    ensures Rank(es, m, i) == Rank(es, m - 1, i) + (if Rank(es, m - 1, i) < Rank(es, m, m - 1) then 0 else 1)
  {
    SortIsDescending(es, m - 1);
    RankPlaces(es, m - 1, i);
    NewestRank(es, m);
    InsertShifts(SortFirst(es, m - 1), es[m - 1], Rank(es, m - 1, i));
  }

  /** Every position of the list is some slot's rank. */
  lemma {:induction false} RankOnto(es: seq<Entry>, m: nat, k: nat) returns (i: nat)
    requires k < m <= |es|
    ensures i < m && Rank(es, m, i) == k
  {
    NewestRank(es, m);
    var p := Rank(es, m, m - 1);
    if k == p {
      i := m - 1;
    } else {
      i := RankOnto(es, m - 1, if k < p then k else k - 1);
      RankShifts(es, m, i);
    }
  }

  lemma {:induction false} RankBelow(es: seq<Entry>, m: nat, i: nat, j: nat)
    requires m <= |es| && i < |es| && j < |es| && i != j
    requires es[i].capturedAt > es[j].capturedAt || (es[i].capturedAt == es[j].capturedAt && i < j)
    ensures Rank(es, m, i) + (if i < m then 1 else 0) <= Rank(es, m, j)
  {
    if m > 0 {
      RankBelow(es, m - 1, i, j);
    }
  }

  /** The more recent of two entries is listed first, and of two equally recent ones the one in the
      lower slot. */
  lemma ListingOrder(es: seq<Entry>, i: nat, j: nat)
    requires i < |es| && j < |es| && i != j
    ensures var p, q := Rank(es, |es|, i), Rank(es, |es|, j);
            && p < |es| && q < |es| && SortDescending(es)[p] == es[i] && SortDescending(es)[q] == es[j]
            && (p < q <==> es[i].capturedAt > es[j].capturedAt || (es[i].capturedAt == es[j].capturedAt && i < j))
  {
    RankPlaces(es, |es|, i);
    RankPlaces(es, |es|, j);
    if es[i].capturedAt > es[j].capturedAt || (es[i].capturedAt == es[j].capturedAt && i < j) {
      RankBelow(es, |es|, i, j);
    } else {
      RankBelow(es, |es|, j, i);
    }
  }

  /** Each of the first n slots is at least as recent as every later one. */
  predicate NewestFirst(es: seq<Entry>, n: nat)
    requires n <= |es|
  {
    forall i, j :: 0 <= i < n <= j < |es| ==> es[i].capturedAt >= es[j].capturedAt
  }

  lemma {:induction false} LaterSortsBehind(es: seq<Entry>, n: nat, m: nat)
    requires n <= m <= |es| && NewestFirst(es, n)
    ensures SortFirst(es, m)[..n] == SortFirst(es, n)
  {
    hide InsertDescending, CountFrom;
    if m > n {
      LaterSortsBehind(es, n, m - 1);
      var s, e := SortFirst(es, m - 1), es[m - 1];
      SortIsDescending(es, m - 1);
      InsertPlaces(s, e);
      if n > 0 {
        var i := RankOnto(es, n, n - 1);
        RankPlaces(es, n, i);
        assert s[n - 1] == SortFirst(es, n)[n - 1] == es[i];
        CountFromSplits(s, |s|, e.capturedAt);
      }
    }
  }

  lemma {:induction false} RankCountsLater(es: seq<Entry>, n: nat, m: nat, i: nat, j: nat)
    requires i < n <= m <= |es| && n <= j < |es| && Ahead(es, j, i)
    ensures Rank(es, m, i) >= Rank(es, n, i) + if j < m then 1 else 0
  {
    if m > n {
      RankCountsLater(es, n, m - 1, i, j);
    }
  }

  lemma LastIsAhead(es: seq<Entry>, n: nat, last: nat, j: nat)
    requires last < n <= j < |es| && forall a, b :: 0 <= a < b < |es| ==> es[a].uid != es[b].uid
    requires SortFirst(es, n) == SortDescending(es)[..n] && Rank(es, n, last) == n - 1
    ensures es[last].capturedAt >= es[j].capturedAt
  {
    hide SortFirst, Rank;
    RankPlaces(es, n, last);
    var p := RankOnto(es, |es|, n - 1);
    RankPlaces(es, |es|, p);
    assert SortDescending(es)[..n][n - 1] == es[p];
    assert p == last;
    if es[last].capturedAt < es[j].capturedAt {
      RankCountsLater(es, n, |es|, last, j);
    }
  }

  /** A listing into a buffer of n places holds the n newest entries, in order, exactly when they
      are the first n slots: otherwise it lists the wrong ones. */
  lemma ShortListIff(es: seq<Entry>, n: nat)
    requires n <= |es| && forall a, b :: 0 <= a < b < |es| ==> es[a].uid != es[b].uid
    ensures SortFirst(es, n) == SortDescending(es)[..n] <==> NewestFirst(es, n)
  {
    hide SortFirst, Rank, CountFrom;
    if NewestFirst(es, n) {
      LaterSortsBehind(es, n, |es|);
    } else if SortFirst(es, n) == SortDescending(es)[..n] {
      var last := RankOnto(es, n, n - 1);
      SortIsDescending(es, n);
      forall i, j | 0 <= i < n <= j < |es| ensures es[i].capturedAt >= es[j].capturedAt {
        LastIsAhead(es, n, last, j);
        RankPlaces(es, n, i);
        RankPlaces(es, n, last);
      }
    }
  }

  // ---------------------------------------------------------------------------
  // The FIFO queue the register stands for
  // ---------------------------------------------------------------------------

  /** A register entry without its capture stamp: the queue knows age by position only. */
  datatype Paired = Paired(uid: u32, secret: seq<u8>, role: u8, host: u8, friendlyName: seq<u8>,
                           lastConfiguredAt: nat, snapshot: Snapshot, snapValid: u8)

  datatype Fifo = Fifo(items: seq<Paired>, clock: u32)

  function View(e: Entry): (p: Paired) {
    Paired(e.uid, e.secret, e.role, e.host, e.friendlyName, e.lastConfiguredAt, e.snapshot, e.snapValid)
  }

  function Views(es: seq<Entry>): (ps: seq<Paired>)
    ensures |ps| == |es|
    ensures forall i :: 0 <= i < |es| ==> ps[i] == View(es[i])
  {
    seq(|es|, i requires 0 <= i < |es| => View(es[i]))
  }

  function QFind(q: seq<Paired>, uid: u32): (k: nat)
    ensures k <= |q|
    ensures k < |q| ==> q[k].uid == uid
    ensures forall i :: 0 <= i < k ==> q[i].uid != uid
  {
    if |q| == 0 || q[0].uid == uid then 0 else 1 + QFind(q[1..], uid)
  }

  datatype Op =
    | Add(entry: Entry)
    | Remove(uid: u32)
    | MarkConfigured(uid: u32)
    | UpdateSnapshot(uid: u32, snapshot: Snapshot)
    | PowerCycle

  /** The queue's counter stops at its last value. */
  function Later(clock: u32): (c: u32) {
    if clock >= 0xFFFF_FFF0 then clock else clock + 1
  }

  /** One operation on the queue: join at the back, leave the front only to make room. */
  function QStep(f: Fifo, op: Op): (f': Fifo) {
    match op
    case Add(e) =>
      var k := QFind(f.items, e.uid);
      if k < |f.items| then
        Fifo(f.items[k := View(e).(lastConfiguredAt := f.items[k].lastConfiguredAt)], f.clock)
      else
        Fifo((if |f.items| < 20 then f.items else f.items[1..]) + [View(e)], Later(f.clock))
    case Remove(uid) =>
      var k := QFind(f.items, uid);
      if k < |f.items| then Fifo(f.items[..k] + f.items[k + 1..], f.clock) else f
    case MarkConfigured(uid) =>
      var k := QFind(f.items, uid);
      if k < |f.items| then Fifo(f.items[k := f.items[k].(lastConfiguredAt := f.clock)], Later(f.clock)) else f
    case UpdateSnapshot(uid, s) =>
      var k := QFind(f.items, uid);
      if k < |f.items| then
        Fifo(f.items[k := f.items[k].(lastConfiguredAt := f.clock, snapshot := s, snapValid := 1)], Later(f.clock))
      else f
    case PowerCycle => f
  }

  function QRun(f: Fifo, ops: seq<Op>): (f': Fifo) {
    if |ops| == 0 then f else QStep(QRun(f, ops[..|ops| - 1]), ops[|ops| - 1])
  }

  /** One operation on the register; a power cycle reloads what was last saved. */
  function Step(r: Reg, op: Op): (r': Reg)
    requires |r.entries| <= MAX_ENTRIES
    ensures |r'.entries| <= MAX_ENTRIES
  {
    match op
    case Add(e) => AddStep(r, e)
    case Remove(uid) => RemoveStep(r, uid)
    case MarkConfigured(uid) => MarkStep(r, uid)
    case UpdateSnapshot(uid, s) => SnapshotStep(r, uid, s)
    case PowerCycle => LoadBlob(Some(SaveBlob(r)))
  }

  function Run(r: Reg, ops: seq<Op>): (r': Reg)
    requires |r.entries| <= MAX_ENTRIES
    ensures |r'.entries| <= MAX_ENTRIES
  {
    if |ops| == 0 then r else Step(Run(r, ops[..|ops| - 1]), ops[|ops| - 1])
  }

  function Reversed(es: seq<Entry>): (r: seq<Entry>)
    ensures |r| == |es|
    ensures forall i :: 0 <= i < |es| ==> r[i] == es[|es| - 1 - i]
  {
    seq(|es|, i requires 0 <= i < |es| => es[|es| - 1 - i])
  }

  lemma {:induction false} ReversedIsPermutation(es: seq<Entry>)
    ensures multiset(Reversed(es)) == multiset(es)
  {
    if |es| > 0 {
      var front := es[..|es| - 1];
      ReversedIsPermutation(front);
      assert es == front + [es[|es| - 1]];
      assert Reversed(es) == [es[|es| - 1]] + Reversed(front);
    }
  }

  /** Entries in order of first capture: the sorted list the operator sees, read backwards. */
  function ByAge(r: Reg): (es: seq<Entry>)
    ensures |es| == |r.entries|
  {
    Reversed(SortDescending(r.entries))
  }

  function Queue(r: Reg): (f: Fifo) {
    Fifo(Views(ByAge(r)), r.next)
  }

  predicate Ascending(q: seq<Entry>) {
    forall i, j :: 0 <= i < j < |q| ==> q[i].capturedAt < q[j].capturedAt
  }

  lemma ByAgeAscends(r: Reg)
    requires FreshStamps(r.entries, r.next)
    ensures Ascending(ByAge(r)) && multiset(ByAge(r)) == multiset(r.entries)
  {
    var s := SortDescending(r.entries);
    ListIsDescendingPermutation(r.entries);
    ReversedIsPermutation(s);
    forall i, j | 0 <= i < j < |s| ensures s[i].capturedAt > s[j].capturedAt {
      DistinctInPermutation(r.entries, s, i, j);
    }
  }

  lemma RepeatsCount(s: seq<Entry>, i: nat, j: nat)
    requires i < j < |s| && s[i] == s[j]
    ensures multiset(s)[s[i]] >= 2
  {
    assert s == s[..j] + [s[j]] + s[j + 1..];
    assert s[i] == s[..j][i];
  }

  lemma {:induction false} DistinctCountOnce(es: seq<Entry>, x: Entry)
    requires forall a, b :: 0 <= a < b < |es| ==> es[a].capturedAt != es[b].capturedAt
    ensures multiset(es)[x] <= 1
  {
    if |es| > 0 {
      DistinctCountOnce(es[1..], x);
      assert es == [es[0]] + es[1..];
      assert es[0] !in es[1..];
    }
  }

  /** Distinct stamps stay distinct under permutation. */
  lemma DistinctInPermutation(es: seq<Entry>, s: seq<Entry>, i: nat, j: nat)
    requires multiset(s) == multiset(es) && i < j < |s|
    requires forall a, b :: 0 <= a < b < |es| ==> es[a].capturedAt != es[b].capturedAt
    ensures s[i].capturedAt != s[j].capturedAt
  {
    assert s[i] in multiset(es) && s[j] in multiset(es);
    var a :| 0 <= a < |es| && es[a] == s[i];
    var b :| 0 <= b < |es| && es[b] == s[j];
    DistinctCountOnce(es, s[i]);
    if s[i] == s[j] {
      RepeatsCount(s, i, j);
    }
  }

  lemma TailMultiset(p: seq<Entry>)
    requires |p| > 0
    ensures multiset(p[1..]) == multiset(p) - multiset{p[0]}
  {
    assert p == [p[0]] + p[1..];
  }

  /** A strictly ascending arrangement is determined by its contents. */
  lemma {:induction false} AscendingIsUnique(p: seq<Entry>, q: seq<Entry>)
    requires Ascending(p) && Ascending(q) && multiset(p) == multiset(q)
    ensures p == q
  {
    assert |p| == |multiset(p)| == |multiset(q)| == |q|;
    if |p| > 0 {
      assert p[0] == q[0] by {
        assert p[0] in multiset(q) && q[0] in multiset(p);
      }
      assert multiset(p[1..]) == multiset(q[1..]) by {
        TailMultiset(p);
        TailMultiset(q);
      }
      AscendingIsUnique(p[1..], q[1..]);
      assert p == [p[0]] + p[1..] && q == [q[0]] + q[1..];
    }
  }

  /** A candidate arrangement that ascends and has the register's contents is the queue. */
  lemma ArrangementIsQueue(r: Reg, q: seq<Entry>)
    requires FreshStamps(r.entries, r.next)
    requires Ascending(q) && multiset(q) == multiset(r.entries)
    ensures ByAge(r) == q
  {
    ByAgeAscends(r);
    AscendingIsUnique(ByAge(r), q);
  }

  /** Looking a uid up by slot and by queue position meets the same entry. */
  lemma FindInQueue(r: Reg, uid: u32) returns (j: nat)
    requires WellFormed(r) && r.next < SATURATION
    ensures j == QFind(Queue(r).items, uid)
    ensures j < |Queue(r).items| <==> Find(r.entries, uid) < |r.entries|
    ensures j < |Queue(r).items| ==> ByAge(r)[j] == r.entries[Find(r.entries, uid)]
  {
    var q := ByAge(r);
    ByAgeAscends(r);
    j := QFind(Views(q), uid);
    var k := Find(r.entries, uid);
    if j < |q| {
      assert q[j] in multiset(r.entries);
    }
    if k < |r.entries| {
      assert r.entries[k] in multiset(q);
    }
  }

  /** Overwriting a slot without touching its stamp overwrites the same queue position. */
  lemma OverwriteKeepsPlace(r: Reg, k: nat, e: Entry, j: nat, next: u32)
    requires WellFormed(r) && r.next < SATURATION && r.next <= next
    requires k < |r.entries| && e.capturedAt == r.entries[k].capturedAt
    requires j < |r.entries| && ByAge(r)[j] == r.entries[k]
    ensures FreshStamps(r.entries[k := e], next)
    ensures ByAge(Reg(r.entries[k := e], next)) == ByAge(r)[j := e]
  {
    ByAgeAscends(r);
    ArrangementIsQueue(Reg(r.entries[k := e], next), ByAge(r)[j := e]);
  }

  /** A new entry on a register with room joins at the back. */
  lemma AppendFits(r: Reg, e: Entry)
    requires WellFormed(r) && r.next < SATURATION && e.capturedAt == r.next
    ensures ByAge(Reg(r.entries + [e], r.next + 1)) == ByAge(r) + [e]
  {
    hide ByAge;
    ByAgeAscends(r);
    var q := ByAge(r);
    assert forall i :: 0 <= i < |q| ==> q[i] in multiset(r.entries);
    ArrangementIsQueue(Reg(r.entries + [e], r.next + 1), q + [e]);
  }

  /** On a full register the slot reused is the one at the front of the queue. */
  lemma OldestIsFront(r: Reg)
    requires WellFormed(r) && r.next < SATURATION && |r.entries| > 0
    ensures ByAge(r)[0] == r.entries[Oldest(r.entries, |r.entries|)]
  {
    ByAgeAscends(r);
    var q, e := ByAge(r), r.entries[Oldest(r.entries, |r.entries|)];
    assert q[0] in multiset(r.entries) && e in multiset(q);
    var k :| 0 <= k < |q| && q[k] == e;
  }

  lemma OverwriteMultiset(s: seq<Entry>, k: nat, e: Entry)
    requires k < |s|
    ensures multiset(s[k := e]) == multiset(s) - multiset{s[k]} + multiset{e}
  {
    assert s == s[..k] + [s[k]] + s[k + 1..];
    assert s[k := e] == s[..k] + [e] + s[k + 1..];
  }

  lemma EvictFits(r: Reg, e: Entry)
    requires WellFormed(r) && r.next < SATURATION && e.capturedAt == r.next && |r.entries| == MAX_ENTRIES
    ensures ByAge(Reg(r.entries[Oldest(r.entries, MAX_ENTRIES) := e], r.next + 1)) == ByAge(r)[1..] + [e]
  {
    hide ByAge;
    var q, o := ByAge(r), Oldest(r.entries, MAX_ENTRIES);
    ByAgeAscends(r);
    assert multiset(q[1..] + [e]) == multiset(r.entries[o := e]) by {
      OldestIsFront(r);
      TailMultiset(q);
      OverwriteMultiset(r.entries, o, e);
    }
    assert Ascending(q[1..] + [e]) by {
      assert forall i :: 0 <= i < |q| ==> q[i] in multiset(r.entries);
    }
    ArrangementIsQueue(Reg(r.entries[o := e], r.next + 1), q[1..] + [e]);
  }

  lemma ViewsReplaced(p: seq<Entry>, k: nat, e: Entry)
    requires k < |p|
    ensures Views(p[k := e]) == Views(p)[k := View(e)]
  {
  }

  lemma ViewsJoined(p: seq<Entry>, q: seq<Entry>)
    ensures Views(p + q) == Views(p) + Views(q)
  {
  }

  lemma ViewsDropped(p: seq<Entry>, k: nat)
    requires k < |p|
    ensures Views(p[..k] + p[k + 1..]) == Views(p)[..k] + Views(p)[k + 1..]
  {
  }

  lemma AddFitsQueue(r: Reg, e: Entry)
    requires WellFormed(r) && AddStep(r, e).next < SATURATION
    ensures Queue(AddStep(r, e)) == QStep(Queue(r), Add(e))
  {
    hide ByAge, FreshStamps, Oldest;
    var j := FindInQueue(r, e.uid);
    var q, k := ByAge(r), Find(r.entries, e.uid);
    if k < |r.entries| {
      OverwriteKeepsPlace(r, k, AddStep(r, e).entries[k], j, r.next);
    } else if |r.entries| == MAX_ENTRIES {
      EvictFits(r, e.(capturedAt := r.next));
      assert Views(q[1..]) == Views(q)[1..];
    } else {
      AppendFits(r, e.(capturedAt := r.next));
    }
  }

  lemma DropMultiset(s: seq<Entry>, k: nat)
    requires k < |s|
    ensures multiset(s[..k] + s[k + 1..]) == multiset(s) - multiset{s[k]}
  {
    assert s == s[..k] + [s[k]] + s[k + 1..];
  }

  lemma RemoveFits(r: Reg, k: nat, j: nat)
    requires WellFormed(r) && r.next < SATURATION && k < |r.entries| && j < |r.entries|
    requires ByAge(r)[j] == r.entries[k]
    ensures ByAge(Reg(r.entries[..k] + r.entries[k + 1..], r.next)) == ByAge(r)[..j] + ByAge(r)[j + 1..]
  {
    hide ByAge;
    var q := ByAge(r);
    ByAgeAscends(r);
    assert multiset(q[..j] + q[j + 1..]) == multiset(r.entries[..k] + r.entries[k + 1..]) by {
      DropMultiset(q, j);
      DropMultiset(r.entries, k);
    }
    ArrangementIsQueue(Reg(r.entries[..k] + r.entries[k + 1..], r.next), q[..j] + q[j + 1..]);
  }

  lemma RemoveFitsQueue(r: Reg, uid: u32)
    requires WellFormed(r) && r.next < SATURATION
    ensures Queue(RemoveStep(r, uid)) == QStep(Queue(r), Remove(uid))
  {
    hide ByAge, WellFormed, Find, QFind, Views;
    var j := FindInQueue(r, uid);
    var k := Find(r.entries, uid);
    if k < |r.entries| {
      RemoveFits(r, k, j);
      ViewsDropped(ByAge(r), j);
    }
  }

  lemma AppendKeepsWellFormed(r: Reg, e: Entry)
    requires WellFormed(r) && |r.entries| < MAX_ENTRIES && e.capturedAt == r.next
    requires forall i :: 0 <= i < |r.entries| ==> r.entries[i].uid != e.uid
    ensures WellFormed(Reg(r.entries + [e], Bump(r.next)))
  {
  }

  lemma EvictKeepsWellFormed(r: Reg, k: nat, e: Entry)
    requires WellFormed(r) && k < |r.entries| && e.capturedAt == r.next
    requires forall i :: 0 <= i < |r.entries| ==> r.entries[i].uid != e.uid
    ensures WellFormed(Reg(r.entries[k := e], Bump(r.next)))
  {
  }

  lemma AddKeepsWellFormed(r: Reg, e: Entry)
    requires WellFormed(r)
    ensures |r.entries| <= MAX_ENTRIES
    ensures WellFormed(AddStep(r, e)) && r.next <= AddStep(r, e).next
  {
    var k := Find(r.entries, e.uid);
    WellFormedBounds(r);
    hide WellFormed, Find, Oldest;
    if k < |r.entries| {
      OverwriteKeepsWellFormed(r, k, AddStep(r, e).entries[k], r.next);
    } else if |r.entries| == MAX_ENTRIES {
      EvictKeepsWellFormed(r, Oldest(r.entries, MAX_ENTRIES), e.(capturedAt := r.next));
    } else {
      AppendKeepsWellFormed(r, e.(capturedAt := r.next));
    }
  }

  lemma WellFormedBounds(r: Reg)
    requires WellFormed(r)
    ensures |r.entries| <= MAX_ENTRIES && 1 <= r.next <= SATURATION
  {
  }

  lemma DropKeepsWellFormed(r: Reg, k: nat)
    requires WellFormed(r) && k < |r.entries|
    ensures WellFormed(Reg(r.entries[..k] + r.entries[k + 1..], r.next))
  {
    var es := Without(r.entries, k);
    assert forall i :: 0 <= i < |es| ==> es[i] == r.entries[if i < k then i else i + 1];
    assert WellFormed(Reg(es, r.next)) by { hide Without; }
  }

  lemma RemoveKeepsWellFormed(r: Reg, uid: u32)
    requires WellFormed(r)
    ensures WellFormed(RemoveStep(r, uid))
  {
    hide WellFormed, Find;
    var k := Find(r.entries, uid);
    if k < |r.entries| {
      DropKeepsWellFormed(r, k);
    }
  }

  /** Overwriting a slot with its own uid and stamp breaks nothing. */
  lemma OverwriteKeepsWellFormed(r: Reg, k: nat, e: Entry, next: u32)
    requires WellFormed(r) && k < |r.entries| && (next == r.next || next == Bump(r.next))
    requires e.uid == r.entries[k].uid && e.capturedAt == r.entries[k].capturedAt
    ensures WellFormed(Reg(r.entries[k := e], next))
  {
  }

  /** Every operation keeps the register well formed, saturated or not. */
  lemma StepKeepsWellFormed(r: Reg, op: Op)
    requires |r.entries| <= 20 && WellFormed(r)
    ensures WellFormed(Step(r, op)) && r.next <= Step(r, op).next
  {
    hide WellFormed;
    match op
    case Add(e) => AddKeepsWellFormed(r, e);
    case Remove(uid) => RemoveKeepsWellFormed(r, uid);
    case MarkConfigured(uid) =>
      var k := Find(r.entries, uid);
      if k < |r.entries| {
        OverwriteKeepsWellFormed(r, k, Step(r, op).entries[k], Bump(r.next));
      }
    case UpdateSnapshot(uid, s) =>
      var k := Find(r.entries, uid);
      if k < |r.entries| {
        OverwriteKeepsWellFormed(r, k, Step(r, op).entries[k], Bump(r.next));
      }
    case PowerCycle =>
      assert r.next >= 1 by { WellFormedBounds(r); }
      LoadAfterSave(r);
  }

  /** Below saturation each operation does to the register what it does to the queue. */
  lemma StepFitsQueue(r: Reg, op: Op)
    requires WellFormed(r) && Step(r, op).next < SATURATION
    ensures Queue(Step(r, op)) == QStep(Queue(r), op)
  {
    hide ByAge, FreshStamps;
    match op
    case Add(e) => AddFitsQueue(r, e);
    case Remove(uid) => RemoveFitsQueue(r, uid);
    case MarkConfigured(uid) =>
      var j := FindInQueue(r, uid);
      var k := Find(r.entries, uid);
      if k < |r.entries| {
        OverwriteKeepsPlace(r, k, Step(r, op).entries[k], j, Bump(r.next));
      }
    case UpdateSnapshot(uid, s) =>
      var j := FindInQueue(r, uid);
      var k := Find(r.entries, uid);
      if k < |r.entries| {
        OverwriteKeepsPlace(r, k, Step(r, op).entries[k], j, Bump(r.next));
      }
    case PowerCycle => LoadAfterSave(r);
  }

  /** Main result: over every run that ends below saturation the register is a 20-place FIFO
      queue with unique uids, and power cycles do not show. */
  lemma {:induction false} RegisterIsFifo(r: Reg, ops: seq<Op>)
    requires WellFormed(r)
    ensures WellFormed(Run(r, ops)) && r.next <= Run(r, ops).next
    ensures Run(r, ops).next < 0xFFFF_FFF0 ==> Queue(Run(r, ops)) == QRun(Queue(r), ops)
  {
    if |ops| > 0 {
      var before := ops[..|ops| - 1];
      RegisterIsFifo(r, before);
      StepKeepsWellFormed(Run(r, before), ops[|ops| - 1]);
      if Run(r, ops).next < SATURATION {
        StepFitsQueue(Run(r, before), ops[|ops| - 1]);
      }
    }
  }

  lemma StepDrawsAtMostOne(r: Reg, op: Op)
    requires WellFormed(r)
    ensures Step(r, op).next <= r.next + 1
  {
    LoadAfterSave(r);
  }

  /** Runs short enough to stay below saturation, by a count the caller can make. */
  lemma {:induction false} ShortRunsStayBelow(r: Reg, ops: seq<Op>)
    requires WellFormed(r) && r.next + |ops| < 0xFFFF_FFF0
    ensures Run(r, ops).next <= r.next + |ops|
  {
    if |ops| > 0 {
      hide Step;
      var before := ops[..|ops| - 1];
      ShortRunsStayBelow(r, before);
      RegisterIsFifo(r, before);
      StepDrawsAtMostOne(Run(r, before), ops[|ops| - 1]);
    }
  }

  // ---------------------------------------------------------------------------
  // Beyond saturation
  // ---------------------------------------------------------------------------

  /** In order of insertion: stamps ascend, and repeat only where they are saturated. */
  predicate InOrder(p: seq<Entry>) {
    forall i, j :: 0 <= i < j < |p| ==>
      p[i].capturedAt < p[j].capturedAt || p[i].capturedAt == p[j].capturedAt == 0xFFFF_FFF0
  }

  /** The register's entries in order of insertion. */
  predicate Arranged(r: Reg, p: seq<Entry>) {
    multiset(p) == multiset(r.entries) && InOrder(p)
  }

  /** A full register meets a new uid. */
  predicate Evicts(r: Reg, op: Op) {
    op.Add? && |r.entries| == 20 && Find(r.entries, op.entry.uid) == 20
  }

  function Evictee(r: Reg): (e: Entry)
    requires |r.entries| == MAX_ENTRIES
  {
    r.entries[Oldest(r.entries, MAX_ENTRIES)]
  }

  /** The order of insertion after an operation of the register, whichever entry that drops. */
  function OrderStep(p: seq<Entry>, r: Reg, op: Op): (p': seq<Entry>)
    requires |p| == |r.entries| <= MAX_ENTRIES
  {
    if Evicts(r, op) then Without(p, Find(p, Evictee(r).uid)) + [op.entry.(capturedAt := r.next)]
    else Step(Reg(p, r.next), op).entries
  }

  /** At an eviction the earliest-inserted entry goes if and only if some stamp is not saturated or
      slot 0 holds that entry. */
  lemma EvictionRule(r: Reg, p: seq<Entry>)
    requires |r.entries| == 20 && Arranged(r, p) && forall i :: 0 <= i < 20 ==> r.entries[i].capturedAt <= 0xFFFF_FFF0
    ensures |p| == 20
    ensures Evictee(r) == p[0]
            <==> (exists i :: 0 <= i < 20 && r.entries[i].capturedAt < 0xFFFF_FFF0) || r.entries[0] == p[0]
  {
    var o := Oldest(r.entries, MAX_ENTRIES);
    assert |p| == |multiset(p)| == |multiset(r.entries)| == MAX_ENTRIES;
    assert o > 0 ==> r.entries[o].capturedAt < r.entries[0].capturedAt;
    if exists i :: 0 <= i < MAX_ENTRIES && r.entries[i].capturedAt < SATURATION {
      var i :| 0 <= i < MAX_ENTRIES && r.entries[i].capturedAt < SATURATION;
      FrontIsLeast(r, p, o);
    } else {
      assert r.entries[o].capturedAt >= r.entries[0].capturedAt;
    }
  }

  lemma FrontIsLeast(r: Reg, p: seq<Entry>, o: nat)
    requires Arranged(r, p) && o < |r.entries| && r.entries[o].capturedAt < SATURATION
    requires forall i :: 0 <= i < |r.entries| ==> r.entries[o].capturedAt <= r.entries[i].capturedAt
    ensures |p| > 0 && p[0] == r.entries[o]
  {
    assert r.entries[o] in multiset(p);
    var k :| 0 <= k < |p| && p[k] == r.entries[o];
    assert p[0] in multiset(r.entries);
  }

  /** A uid is found in the one slot that carries it. */
  lemma FoundAt(r: Reg, i: nat)
    requires WellFormed(r) && i < |r.entries|
    ensures Find(r.entries, r.entries[i].uid) == i
  {
  }

  lemma SameSize(r: Reg, p: seq<Entry>)
    requires WellFormed(r) && Arranged(r, p)
    ensures |p| == |r.entries| <= MAX_ENTRIES
  {
    assert |p| == |multiset(p)| == |multiset(r.entries)| == |r.entries|;
  }

  lemma FindInOrder(r: Reg, p: seq<Entry>, uid: u32)
    requires WellFormed(r) && Arranged(r, p)
    ensures |p| == |r.entries| <= MAX_ENTRIES
    ensures Find(p, uid) < |p| <==> Find(r.entries, uid) < |r.entries|
    ensures Find(p, uid) < |p| ==> p[Find(p, uid)] == r.entries[Find(r.entries, uid)]
  {
    hide WellFormed, InOrder, Find;
    SameSize(r, p);
    var j, k := Find(p, uid), Find(r.entries, uid);
    assert k < |r.entries| ==> r.entries[k] in multiset(p);
    if j < |p| {
      assert p[j] in multiset(r.entries);
      var i :| 0 <= i < |r.entries| && r.entries[i] == p[j];
      FoundAt(r, i);
    }
  }

  lemma ReplacedInOrder(r: Reg, p: seq<Entry>, k: nat, j: nat, e: Entry, next: u32)
    requires Arranged(r, p) && k < |r.entries| && j < |p| && p[j] == r.entries[k] && e.capturedAt == p[j].capturedAt
    ensures Arranged(Reg(r.entries[k := e], next), p[j := e])
  {
    OverwriteMultiset(r.entries, k, e);
    OverwriteMultiset(p, j, e);
  }

  lemma DroppedInOrder(p: seq<Entry>, j: nat)
    requires InOrder(p) && j < |p|
    ensures InOrder(Without(p, j)) && multiset(Without(p, j)) == multiset(p) - multiset{p[j]}
  {
    DropMultiset(p, j);
  }

  lemma JoinedInOrder(p: seq<Entry>, e: Entry, next: u32)
    requires InOrder(p) && e.capturedAt == next <= SATURATION
    requires forall i :: 0 <= i < |p| ==> p[i].capturedAt < next || p[i].capturedAt == next == SATURATION
    ensures InOrder(p + [e])
  {
  }

  lemma StampsBelow(r: Reg, p: seq<Entry>)
    requires WellFormed(r) && Arranged(r, p)
    ensures forall i :: 0 <= i < |p| ==> p[i].capturedAt < r.next || p[i].capturedAt == r.next == SATURATION
  {
    forall i | 0 <= i < |p| ensures p[i].capturedAt < r.next || p[i].capturedAt == r.next == SATURATION {
      assert p[i] in multiset(r.entries);
    }
  }

  lemma EvictKeepsOrder(r: Reg, p: seq<Entry>, e: Entry)
    requires WellFormed(r) && Arranged(r, p) && Evicts(r, Add(e))
    ensures |p| == |r.entries|
    ensures Arranged(AddStep(r, e), OrderStep(p, r, Add(e)))
  {
    var o, stamped := Oldest(r.entries, MAX_ENTRIES), e.(capturedAt := r.next);
    var j := Find(p, r.entries[o].uid);
    FindInOrder(r, p, r.entries[o].uid);
    assert Find(r.entries, r.entries[o].uid) == o;
    StampsBelow(r, p);
    DroppedInOrder(p, j);
    var rest := Without(p, j);
    JoinedInOrder(rest, stamped, r.next);
    OverwriteMultiset(r.entries, o, stamped);
  }

  lemma JoinKeepsOrder(r: Reg, p: seq<Entry>, e: Entry)
    requires WellFormed(r) && Arranged(r, p) && |r.entries| < MAX_ENTRIES && Find(r.entries, e.uid) == |r.entries|
    ensures |p| == |r.entries| && Arranged(AddStep(r, e), OrderStep(p, r, Add(e)))
  {
    FindInOrder(r, p, e.uid);
    StampsBelow(r, p);
    JoinedInOrder(p, e.(capturedAt := r.next), r.next);
  }

  lemma DropKeepsOrder(r: Reg, p: seq<Entry>, k: nat, j: nat)
    requires Arranged(r, p) && k < |r.entries| && j < |p| && p[j] == r.entries[k]
    ensures Arranged(Reg(r.entries[..k] + r.entries[k + 1..], r.next), p[..j] + p[j + 1..])
  {
    hide InOrder;
    DropMultiset(r.entries, k);
    DroppedInOrder(p, j);
  }

  lemma RemoveKeepsOrder(r: Reg, p: seq<Entry>, uid: u32)
    requires WellFormed(r) && Arranged(r, p)
    ensures |p| == |r.entries| && Arranged(RemoveStep(r, uid), RemoveStep(Reg(p, r.next), uid).entries)
  {
    hide WellFormed, Find, Arranged;
    FindInOrder(r, p, uid);
    if Find(p, uid) < |p| {
      DropKeepsOrder(r, p, Find(r.entries, uid), Find(p, uid));
    }
  }

  /** Overwriting the entry under a uid without touching its stamp, in the slots and in the order. */
  lemma OverwriteKeepsOrder(r: Reg, p: seq<Entry>, uid: u32, e: Entry, next: u32)
    requires WellFormed(r) && Arranged(r, p) && Find(r.entries, uid) < |r.entries|
    requires e.capturedAt == r.entries[Find(r.entries, uid)].capturedAt
    ensures |p| == |r.entries| && Find(p, uid) < |p|
    ensures p[Find(p, uid)] == r.entries[Find(r.entries, uid)]
    ensures Arranged(Reg(r.entries[Find(r.entries, uid) := e], next), p[Find(p, uid) := e])
  {
    FindInOrder(r, p, uid);
    hide WellFormed, Find, Arranged;
    ReplacedInOrder(r, p, Find(r.entries, uid), Find(p, uid), e, next);
  }

  /** Whatever the register drops, its entries stay in order of insertion. */
  lemma OrderKept(r: Reg, p: seq<Entry>, op: Op)
    requires WellFormed(r) && Arranged(r, p)
    ensures |p| == |r.entries| <= MAX_ENTRIES
    ensures Arranged(Step(r, op), OrderStep(p, r, op))
  {
    hide WellFormed, Find, Arranged, Oldest, LoadBlob, SaveBlob;
    FindInOrder(r, p, if op.Add? then op.entry.uid else if op.PowerCycle? then 0 else op.uid);
    match op
    case Add(e) =>
      if Find(r.entries, e.uid) < |r.entries| {
        OverwriteKeepsOrder(r, p, e.uid, AddStep(r, e).entries[Find(r.entries, e.uid)], r.next);
      } else if |r.entries| == MAX_ENTRIES {
        EvictKeepsOrder(r, p, e);
      } else {
        JoinKeepsOrder(r, p, e);
      }
    case Remove(uid) => RemoveKeepsOrder(r, p, uid);
    case MarkConfigured(uid) =>
      if Find(r.entries, uid) < |r.entries| {
        OverwriteKeepsOrder(r, p, uid, Step(r, op).entries[Find(r.entries, uid)], Bump(r.next));
      }
    case UpdateSnapshot(uid, s) =>
      if Find(r.entries, uid) < |r.entries| {
        OverwriteKeepsOrder(r, p, uid, Step(r, op).entries[Find(r.entries, uid)], Bump(r.next));
      }
    case PowerCycle => PowerKeepsOrder(r, p);
  }

  lemma PowerKeepsOrder(r: Reg, p: seq<Entry>)
    requires WellFormed(r) && Arranged(r, p)
    ensures |p| == |r.entries| <= MAX_ENTRIES
    ensures Step(r, PowerCycle) == r && Step(Reg(p, r.next), PowerCycle) == Reg(p, r.next)
  {
    FindInOrder(r, p, 0);
    assert 1 <= r.next;
    hide WellFormed, Arranged, LoadBlob, SaveBlob;
    LoadAfterSave(r);
    LoadAfterSave(Reg(p, r.next));
  }

  /** The order of insertion after a run. */
  function OrderRun(p: seq<Entry>, r: Reg, ops: seq<Op>): (p': seq<Entry>)
    requires WellFormed(r) && Arranged(r, p)
    ensures WellFormed(Run(r, ops)) && Arranged(Run(r, ops), p')
  {
    if |ops| == 0 then p
    else
      var front := ops[..|ops| - 1];
      RegisterIsFifo(r, ops);
      RegisterIsFifo(r, front);
      OrderKept(Run(r, front), OrderRun(p, r, front), ops[|ops| - 1]);
      OrderStep(OrderRun(p, r, front), Run(r, front), ops[|ops| - 1])
  }

  /** At an eviction, what must hold for the queue's front to be the one to go. */
  predicate FrontGoes(r: Reg, p: seq<Entry>, op: Op) {
    Evicts(r, op) ==>
      |p| > 0 && ((exists i :: 0 <= i < |r.entries| && r.entries[i].capturedAt < 0xFFFF_FFF0) || r.entries[0] == p[0])
  }

  lemma QFindView(p: seq<Entry>, uid: u32)
    ensures QFind(Views(p), uid) == Find(p, uid)
  {
  }

  /** One operation does to the order of insertion what it does to the queue, unless it evicts an
      entry that is not at the front. */
  lemma StepFollowsIff(r: Reg, p: seq<Entry>, op: Op)
    requires WellFormed(r) && Arranged(r, p)
    ensures |p| == |r.entries| <= MAX_ENTRIES
    ensures var q := QStep(Fifo(Views(p), r.next), op);
            q.clock == Step(r, op).next && (Views(OrderStep(p, r, op)) == q.items <==> FrontGoes(r, p, op))
  {
    assert !Evicts(r, op) ==> FrontGoes(r, p, op);
    hide WellFormed, Find, QFind, Arranged, Oldest, LoadBlob, SaveBlob, Views, FrontGoes;
    var uid := if op.Add? then op.entry.uid else if op.PowerCycle? then 0 else op.uid;
    FindInOrder(r, p, uid);
    QFindView(p, uid);
    var j := Find(p, uid);
    match op
    case Add(e) =>
      if Evicts(r, op) {
        EvictFollowsIff(r, p, e);
      } else if j < |p| {
        ViewsReplaced(p, j, AddStep(Reg(p, r.next), e).entries[j]);
      } else {
        ViewsJoined(p, [e.(capturedAt := r.next)]);
      }
    case Remove(_) =>
      if j < |p| {
        ViewsDropped(p, j);
      }
    case MarkConfigured(_) =>
      if j < |p| {
        ViewsReplaced(p, j, p[j].(lastConfiguredAt := r.next));
      }
    case UpdateSnapshot(_, s) =>
      if j < |p| {
        ViewsReplaced(p, j, p[j].(snapshot := s, snapValid := 1, lastConfiguredAt := r.next));
      }
    case PowerCycle => PowerKeepsOrder(r, p);
  }

  lemma EvictFollowsIff(r: Reg, p: seq<Entry>, e: Entry)
    requires WellFormed(r) && Arranged(r, p) && Evicts(r, Add(e))
    ensures |p| == |r.entries|
    ensures Views(OrderStep(p, r, Add(e))) == QStep(Fifo(Views(p), r.next), Add(e)).items <==> FrontGoes(r, p, Add(e))
  {
    EvictionRule(r, p);
    var o := Oldest(r.entries, MAX_ENTRIES);
    FindInOrder(r, p, r.entries[o].uid);
    FindInOrder(r, p, e.uid);
    QFindView(p, e.uid);
    assert Find(r.entries, r.entries[o].uid) == o;
    var j, stamped := Find(p, r.entries[o].uid), e.(capturedAt := r.next);
    assert p[j] == r.entries[o];
    var kept := Without(p, j) + [stamped];
    assert Views(p)[1..] + [View(e)] == Views(p[1..] + [stamped]);
    if j == 0 {
      assert Without(p, 0) == p[1..];
    } else {
      assert p[0] != p[j];
      UidsInOrder(r, p);
      assert Views(kept)[0].uid == p[0].uid != p[1].uid == Views(p[1..] + [stamped])[0].uid;
    }
  }

  lemma UidsInOrder(r: Reg, p: seq<Entry>)
    requires WellFormed(r) && Arranged(r, p)
    ensures forall i, j :: 0 <= i < j < |p| ==> p[i].uid != p[j].uid
  {
    forall i, j | 0 <= i < j < |p| ensures p[i].uid != p[j].uid {
      FindInOrder(r, p, p[i].uid);
      assert p[i] in multiset(r.entries) && p[j] in multiset(r.entries);
      if p[i] == p[j] {
        RepeatsCount(p, i, j);
        UidCount(r.entries, p[i]);
      }
    }
  }

  lemma {:induction false} UidCount(es: seq<Entry>, x: Entry)
    requires forall i, j :: 0 <= i < j < |es| ==> es[i].uid != es[j].uid
    ensures multiset(es)[x] <= 1
  {
    if |es| > 0 {
      UidCount(es[1..], x);
      assert es == [es[0]] + es[1..];
      assert es[0] !in es[1..];
    }
  }

  /** The exact rule over runs, saturated or not: the register behaves as the FIFO queue at every
      point of a run if and only if at each of its evictions some stamp is not saturated or slot 0
      holds the earliest-inserted entry. */
  lemma {:induction false} FifoIff(r: Reg, p: seq<Entry>, ops: seq<Op>)
    requires WellFormed(r) && Arranged(r, p)
    ensures (forall n: nat :: n <= |ops| ==> FollowsAt(r, p, ops, n)) <==> (forall n: nat :: n < |ops| ==> FrontGoesAt(r, p, ops, n))
  {
    hide Run, QRun, OrderRun, FollowsAt, FrontGoesAt, WellFormed, Arranged;
    var n: nat := 0;
    StartFollows(r, p, ops);
    while n < |ops| && FrontGoesAt(r, p, ops, n)
      invariant n <= |ops|
      invariant forall m: nat :: m < n ==> FrontGoesAt(r, p, ops, m)
      invariant forall m: nat :: m <= n ==> FollowsAt(r, p, ops, m)
    {
      FollowsStep(r, p, ops, n);
      n := n + 1;
    }
    if n < |ops| {
      FollowsStep(r, p, ops, n);
      assert !FollowsAt(r, p, ops, n + 1);
    }
  }

  /** A register below saturation starts such a run in the order its stamps give. */
  lemma QueueIsArranged(r: Reg)
    requires WellFormed(r) && r.next < SATURATION
    ensures Arranged(r, ByAge(r)) && Queue(r) == Fifo(Views(ByAge(r)), r.next)
  {
    ByAgeAscends(r);
  }

  /** After n operations the order of insertion is the queue. */
  predicate FollowsAt(r: Reg, p: seq<Entry>, ops: seq<Op>, n: nat)
    requires WellFormed(r) && Arranged(r, p)
  {
    n <= |ops| && Fifo(Views(OrderRun(p, r, ops[..n])), Run(r, ops[..n]).next) == QRun(Fifo(Views(p), r.next), ops[..n])
  }

  predicate FrontGoesAt(r: Reg, p: seq<Entry>, ops: seq<Op>, n: nat)
    requires WellFormed(r) && Arranged(r, p)
  {
    n < |ops| && FrontGoes(Run(r, ops[..n]), OrderRun(p, r, ops[..n]), ops[n])
  }

  lemma StartFollows(r: Reg, p: seq<Entry>, ops: seq<Op>)
    requires WellFormed(r) && Arranged(r, p)
    ensures FollowsAt(r, p, ops, 0)
  {
    assert ops[..0] == [];
  }

  lemma FollowsStep(r: Reg, p: seq<Entry>, ops: seq<Op>, n: nat)
    requires WellFormed(r) && Arranged(r, p) && n < |ops| && FollowsAt(r, p, ops, n)
    ensures FollowsAt(r, p, ops, n + 1) <==> FrontGoesAt(r, p, ops, n)
  {
    var before, all := ops[..n], ops[..n + 1];
    assert all[..|all| - 1] == before && all[|all| - 1] == ops[n];
    StepFollowsIff(Run(r, before), OrderRun(p, r, before), ops[n]);
    hide WellFormed, Arranged, Step, QStep, OrderStep, FrontGoes, Views;
  }

  /** A saturated register whose slot 0 was filled last. */
  function LastInSlotZero(): (r: Reg)
    ensures |r.entries| == MAX_ENTRIES && r.next == SATURATION
    ensures forall i :: 0 <= i < MAX_ENTRIES ==> r.entries[i].uid == i && r.entries[i].capturedAt == SATURATION
  {
    Reg(seq(MAX_ENTRIES, i requires 0 <= i < MAX_ENTRIES => BLANK.(uid := i, capturedAt := SATURATION)), SATURATION)
  }

  /** Its entries in order of insertion. */
  function SlotZeroLast(): (p: seq<Entry>) {
    LastInSlotZero().entries[1..] + [LastInSlotZero().entries[0]]
  }

  lemma SlotZeroArranged()
    ensures WellFormed(LastInSlotZero()) && Arranged(LastInSlotZero(), SlotZeroLast())
  {
    hide LastInSlotZero;
    var es := LastInSlotZero().entries;
    assert es == [es[0]] + es[1..];
  }

  /** Its next eviction picks slot 0. */
  lemma SlotZeroGoes(e: Entry)
    requires e.uid >= MAX_ENTRIES
    ensures var r, p, op := LastInSlotZero(), SlotZeroLast(), Add(e);
            Find(Step(r, op).entries, p[|p| - 1].uid) == MAX_ENTRIES && !FrontGoes(r, p, op)
  {
    hide Find, LastInSlotZero, Oldest;
    var r, stamped := LastInSlotZero(), e.(capturedAt := SATURATION);
    assert Find(r.entries, e.uid) == MAX_ENTRIES;
    assert r.entries[Oldest(r.entries, MAX_ENTRIES)].capturedAt == r.entries[0].capturedAt;
    assert AddStep(r, e).entries == r.entries[0 := stamped];
    assert Find(r.entries[0 := stamped], 0) == MAX_ENTRIES;
  }

  /** There FIFO fails: the next new light pushes out the one paired last. */
  lemma FifoFailsSaturated()
    ensures var r, p, op := LastInSlotZero(), SlotZeroLast(), Add(BLANK.(uid := 100));
            && WellFormed(r) && Arranged(r, p)
            && Find(Step(r, op).entries, p[|p| - 1].uid) == 20
            && Views(OrderStep(p, r, op)) != QStep(Fifo(Views(p), r.next), op).items
  {
    var r, p, op := LastInSlotZero(), SlotZeroLast(), Add(BLANK.(uid := 100));
    SlotZeroArranged();
    SlotZeroGoes(op.entry);
    hide WellFormed, Arranged, LastInSlotZero, SlotZeroLast, Find, Oldest, QStep, OrderStep, Views, FrontGoes;
    StepFollowsIff(r, p, op);
  }

  /** On a full saturated register the eviction after next drops the entry just added exactly when
      the stamps of slots 1 to 19 are all saturated. */
  lemma SaturatedEviction(r: Reg, a: Entry, b: Entry)
    requires WellFormed(r) && r.next == 0xFFFF_FFF0 && |r.entries| == 20
    requires Find(r.entries, a.uid) == 20 && Find(r.entries, b.uid) == 20 && a.uid != b.uid
    ensures Find(AddStep(AddStep(r, a), b).entries, a.uid) == 20
            <==> forall i :: 1 <= i < 20 ==> r.entries[i].capturedAt == 0xFFFF_FFF0
  {
    var o := Oldest(r.entries, MAX_ENTRIES);
    var once := AddStep(r, a);
    assert once.entries == r.entries[o := a.(capturedAt := SATURATION)];
    assert Find(once.entries, b.uid) == MAX_ENTRIES;
    var p := Oldest(once.entries, MAX_ENTRIES);
    var twice := AddStep(once, b);
    assert twice.entries == once.entries[p := b.(capturedAt := SATURATION)];
    assert Find(twice.entries, a.uid) == MAX_ENTRIES <==> p == o by {
      if p != o {
        assert twice.entries[o].uid == a.uid;
      }
    }
    assert p == o <==> forall i :: 0 <= i < MAX_ENTRIES && i != o ==> once.entries[i].capturedAt == SATURATION && o < i;
  }

  lemma CompactedIs(now: seq<Entry>, was: seq<Entry>, i: nat)
    requires i < |was| && |now| == |was| - 1
    requires forall k :: 0 <= k < i ==> now[k] == was[k]
    requires forall k :: i <= k < |now| ==> now[k] == was[k + 1]
    ensures now == was[..i] + was[i + 1..]
  {
  }

  // ---------------------------------------------------------------------------
  // The register object
  // ---------------------------------------------------------------------------

  class PairRegister {
    const entries: array<Entry>
    var count: nat
    var nextSequenceVal: u32
    var stored: Option<Blob>

    ghost predicate Valid()
      reads this, entries
    {
      && entries.Length == MAX_ENTRIES
      && count <= MAX_ENTRIES
      && nextSequenceVal >= 1
      && (forall i :: count <= i < MAX_ENTRIES ==> entries[i] == BLANK)
    }

    ghost function State(): (r: Reg)
      requires Valid()
      reads this, entries
    {
      Reg(entries[..count], nextSequenceVal)
    }

    /** What a power cycle would bring back. */
    ghost predicate Saved()
      requires Valid()
      reads this, entries
    {
      stored == Some(SaveBlob(State()))
    }

    /** The store would bring back what the register holds. */
    ghost predicate Durable()
      requires Valid()
      reads this, entries
    {
      LoadBlob(stored) == State()
    }

    constructor (stored: Option<Blob>)
      ensures Valid() && fresh(entries) && Durable()
      ensures State() == LoadBlob(stored) && this.stored == stored
    {
      entries := new Entry[MAX_ENTRIES](i => BLANK);
      count := 0;
      nextSequenceVal := 1;
      this.stored := stored;
      new;
      Load();
    }

    method ClearInMemory()
      requires entries.Length == MAX_ENTRIES
      modifies this`count, this`nextSequenceVal, entries
      ensures Valid() && State() == EMPTY
    {
      for i := 0 to MAX_ENTRIES
        invariant forall k :: 0 <= k < i ==> entries[k] == BLANK
      {
        entries[i] := BLANK;
      }
      count := 0;
      nextSequenceVal := 1;
    }

    method Load()
      requires entries.Length == MAX_ENTRIES
      modifies this`count, this`nextSequenceVal, entries
      ensures Valid() && State() == LoadBlob(stored) && Durable()
    {
      ClearInMemory();
      if stored.None? { return; }
      var b := stored.value;
      if |b.header| < BLOB_HEADER_SIZE { return; }
      if b.header[0] != BLOB_VERSION { return; }
      var n: nat := b.header[1];
      var b0: int, b1: int, b2: int, b3: int := b.header[2], b.header[3], b.header[4], b.header[5];
      var seqNo := b0 + 256 * b1 + 0x1_0000 * b2 + 0x100_0000 * b3;
      FourByteValue(b.header[2..6]);
      if n > MAX_ENTRIES || |b.records| < n { return; }
      count := n;
      nextSequenceVal := if seqNo != 0 then seqNo else 1;
      for i := 0 to n
        invariant count == n && nextSequenceVal == if seqNo != 0 then seqNo else 1
        invariant forall k :: 0 <= k < i ==> entries[k] == b.records[k]
        invariant forall k :: n <= k < MAX_ENTRIES ==> entries[k] == BLANK
      {
        entries[i] := b.records[i];
      }
      assert entries[..n] == b.records[..n];
    }

    method Save()
      requires Valid()
      modifies this`stored
      ensures Valid() && State() == old(State()) && Saved() && Durable()
    {
      stored := Some(Blob([BLOB_VERSION, count] + ToLittleEndian(nextSequenceVal, 4), entries[..count]));
      LoadAfterSave(State());
    }

    method NextSequence() returns (v: u32)
      modifies this`nextSequenceVal
      ensures v == old(nextSequenceVal) && nextSequenceVal == Bump(v)
    {
      v := nextSequenceVal;
      if nextSequenceVal < SATURATION {
        nextSequenceVal := nextSequenceVal + 1;
      }
    }

    method FindSlot(uid: u32) returns (i: nat)
      requires Valid()
      ensures i == Find(State().entries, uid)
    {
      i := 0;
      while i < count
        invariant i <= count
        invariant forall k :: 0 <= k < i ==> entries[k].uid != uid
      {
        if entries[i].uid == uid { return; }
        i := i + 1;
      }
    }

    /** The slot to reuse on a full register. */
    method OldestSlot() returns (oldestIdx: nat)
      requires Valid() && count == MAX_ENTRIES
      ensures oldestIdx == Oldest(State().entries, MAX_ENTRIES)
    {
      ghost var es := entries[..count];
      oldestIdx := 0;
      var oldestSeq := entries[0].capturedAt;
      for k := 1 to MAX_ENTRIES
        invariant oldestIdx == Oldest(es, k) && oldestSeq == es[oldestIdx].capturedAt
      {
        if entries[k].capturedAt < oldestSeq {
          oldestSeq := entries[k].capturedAt;
          oldestIdx := k;
        }
      }
    }

    method Add(in_: Entry) returns (ok: bool)
      requires Valid()
      modifies this`count, this`nextSequenceVal, this`stored, entries
      ensures Valid()
      ensures ok && State() == AddStep(old(State()), in_) && Saved() && Durable()
    {
      var i := FindSlot(in_.uid);
      hide Find, Oldest, SaveBlob, LoadBlob;
      if i < count {
        var prevCaptured, prevLastConfigured := entries[i].capturedAt, entries[i].lastConfiguredAt;
        entries[i] := in_;
        entries[i] := entries[i].(capturedAt := prevCaptured);
        entries[i] := entries[i].(lastConfiguredAt := prevLastConfigured);
        assert State().entries == old(State().entries)[i := entries[i]];
        Save();
        return true;
      }
      var slot := count;
      if count >= MAX_ENTRIES {
        slot := OldestSlot();
      } else {
        count := count + 1;
      }
      entries[slot] := in_;
      var stamp := NextSequence();
      entries[slot] := entries[slot].(capturedAt := stamp);
      assert State().entries == AddStep(old(State()), in_).entries;
      Save();
      return true;
    }

    method Remove(uid: u32) returns (found: bool)
      requires Valid()
      modifies this`count, this`nextSequenceVal, this`stored, entries
      ensures Valid()
      ensures found == (Find(old(State()).entries, uid) < |old(State()).entries|)
      ensures State() == RemoveStep(old(State()), uid)
      ensures if found then Saved() else stored == old(stored)
      ensures found || old(Durable()) ==> Durable()
    {
      var i := FindSlot(uid);
      if i == count { return false; }
      EraseSlot(i);
      Save();
      return true;
    }

    /** Compact down over slot i and blank the slot freed at the end. */
    method EraseSlot(i: nat)
      requires Valid() && i < count
      modifies this`count, entries
      ensures Valid()
      ensures State() == Reg(old(State()).entries[..i] + old(State()).entries[i + 1..], old(State()).next)
    {
      ghost var was := entries[..count];
      for j := i + 1 to count
        invariant count == old(count)
        invariant forall k :: 0 <= k < MAX_ENTRIES && !(i <= k < j - 1) ==> entries[k] == old(entries[k])
        invariant forall k :: i <= k < j - 1 ==> entries[k] == was[k + 1]
      {
        entries[j - 1] := entries[j];
      }
      count := count - 1;
      entries[count] := BLANK;
      CompactedIs(entries[..count], was, i);
    }

    method MarkConfigured(uid: u32) returns (found: bool)
      requires Valid()
      modifies this`count, this`nextSequenceVal, this`stored, entries
      ensures Valid()
      ensures found == (Find(old(State()).entries, uid) < |old(State()).entries|)
      ensures State() == MarkStep(old(State()), uid)
      ensures if found then Saved() else stored == old(stored)
      ensures found || old(Durable()) ==> Durable()
    {
      var i := FindSlot(uid);
      if i == count { return false; }
      var stamp := NextSequence();
      entries[i] := entries[i].(lastConfiguredAt := stamp);
      assert State().entries == MarkStep(old(State()), uid).entries;
      Save();
      return true;
    }

    method UpdateSnapshot(uid: u32, s: Snapshot) returns (found: bool)
      requires Valid()
      modifies this`count, this`nextSequenceVal, this`stored, entries
      ensures Valid()
      ensures found == (Find(old(State()).entries, uid) < |old(State()).entries|)
      ensures State() == SnapshotStep(old(State()), uid, s)
      ensures if found then Saved() else stored == old(stored)
      ensures found || old(Durable()) ==> Durable()
    {
      var i := FindSlot(uid);
      if i == count { return false; }
      entries[i] := entries[i].(snapshot := s);
      entries[i] := entries[i].(snapValid := 1);
      var stamp := NextSequence();
      entries[i] := entries[i].(lastConfiguredAt := stamp);
      assert State().entries == SnapshotStep(old(State()), uid, s).entries;
      Save();
      return true;
    }

    /** The entry at a position of the newest-first order, found by rank counting. */
    method NthSorted(sortedIndex: nat) returns (best: Option<Entry>)
      requires Valid()
      ensures best == if sortedIndex < count then Some(SortDescending(State().entries)[sortedIndex]) else None
    {
      if sortedIndex >= count { return None; }
      ghost var es := entries[..count];
      ghost var w := RankOnto(es, count, sortedIndex);
      for i := 0 to count
        invariant forall k :: 0 <= k < i ==> Rank(es, count, k) != sortedIndex
      {
        var rankAbove := 0;
        for j := 0 to count
          invariant rankAbove == Rank(es, j, i)
        {
          if j != i {
            if entries[j].capturedAt > entries[i].capturedAt {
              rankAbove := rankAbove + 1;
            } else if entries[j].capturedAt == entries[i].capturedAt && j < i {
              rankAbove := rankAbove + 1;
            }
          }
        }
        if rankAbove == sortedIndex {
          RankPlaces(es, count, i);
          return Some(entries[i]);
        }
      }
      assert false;
      return None;
    }

    /** Sort the entry at i into the i entries before it. */
    static method InsertInPlace(out: array<Entry>, i: nat)
      requires 0 < i < out.Length
      modifies out
      ensures out[..i + 1] == InsertDescending(old(out[..i]), old(out[i]))
      ensures out[i + 1..] == old(out[i + 1..])
    {
      hide InsertDescending;
      ghost var s := out[..i];
      var key := out[i];
      var j := i;
      while j > 0 && out[j - 1].capturedAt < key.capturedAt
        invariant 0 <= j <= i
        invariant forall k :: 0 <= k < j ==> out[k] == s[k]
        invariant forall k :: j < k <= i ==> out[k] == s[k - 1]
        invariant forall k :: i < k < out.Length ==> out[k] == old(out[k])
        invariant forall k :: j <= k < i ==> s[k].capturedAt < key.capturedAt
      {
        out[j] := out[j - 1];
        j := j - 1;
      }
      out[j] := key;
      InsertAt(s, key, j);
      assert out[..i + 1] == s[..j] + [key] + s[j..];
    }

    /** Copy the first n entries into the caller's buffer. */
    method CopyOut(out: array<Entry>, n: nat)
      requires Valid() && out != entries && n <= count && n <= out.Length
      modifies out
      ensures out[..n] == State().entries[..n]
      ensures out[n..] == old(out[n..])
    {
      for i := 0 to n
        invariant out[..i] == entries[..i]
        invariant forall k :: n <= k < out.Length ==> out[k] == old(out[k])
      {
        out[i] := entries[i];
        assert out[..i + 1] == out[..i] + [entries[i]];
      }
      assert entries[..count][..n] == entries[..n];
    }

    /** Insertion sort of the first n places of a buffer, in place. */
    static method SortInPlace(out: array<Entry>, n: nat)
      requires n <= out.Length
      modifies out
      ensures out[..n] == SortDescending(old(out[..n]))
      ensures out[n..] == old(out[n..])
    {
      ghost var es := out[..n];
      hide InsertDescending;
      SortOne(es);
      var i := 1;
      while i < n
        invariant n == 0 || 1 <= i <= n
        invariant n == 0 ==> out[..] == old(out[..])
        invariant n > 0 ==> out[..i] == SortFirst(es, i) && out[i..] == old(out[i..])
      {
        ghost var before := out[..];
        assert out[i] == old(out[i]) == es[i];
        InsertInPlace(out, i);
        assert out[i + 1..] == before[i + 1..] == before[i..][1..] == old(out[i..])[1..];
        i := i + 1;
      }
    }

    /** Newest-first listing by insertion sort in the caller's buffer. With room for every
        entry it is the whole register; with less it sorts the first slots only. */
    method ListSortedByCapturedAt(out: array<Entry>) returns (n: nat)
      requires Valid() && out != entries
      modifies out
      ensures n == if count < out.Length then count else out.Length
      ensures out[..n] == SortFirst(State().entries, n)
      ensures count <= out.Length ==> out[..n] == SortDescending(State().entries)
      ensures out[n..] == old(out[n..])
    {
      n := if count < out.Length then count else out.Length;
      CopyOut(out, n);
      SortInPlace(out, n);
      SortOfPrefix(State().entries, n);
      assert n == count ==> State().entries[..n] == State().entries;
    }
  }

  lemma SortOne(es: seq<Entry>)
    ensures |es| > 0 ==> SortFirst(es, 1) == es[..1]
    ensures |es| == 0 ==> SortFirst(es, 0) == es
  {
    if |es| > 0 {
      assert SortFirst(es, 0) == [];
      assert InsertDescending([], es[0]) == [] + [es[0]];
    }
  }

  /** Sorting the first slots looks at no others. */
  lemma {:induction false} SortOfPrefix(es: seq<Entry>, n: nat)
    requires n <= |es|
    ensures SortDescending(es[..n]) == SortFirst(es, n)
  {
    SortReads(es[..n], es, n);
  }

  lemma {:induction false} SortReads(a: seq<Entry>, b: seq<Entry>, m: nat)
    requires m <= |a| && m <= |b| && a[..m] == b[..m]
    ensures SortFirst(a, m) == SortFirst(b, m)
  {
    if m > 0 {
      assert a[..m][..m - 1] == a[..m - 1] && b[..m][..m - 1] == b[..m - 1];
      assert a[m - 1] == a[..m][m - 1] == b[..m][m - 1] == b[m - 1];
      SortReads(a, b, m - 1);
    }
  }
}
