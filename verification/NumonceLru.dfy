/** The per-sender replay guard: sixteen slots with access ticks, which behave as a
    most-recently-used list of senders. */
module NumonceLru {
  import opened Bytes
  import opened Counting

  const SLOTS: nat := 16

  datatype Slot = Slot(sourceId: u16, lastSeen: u64, lastAccessed: nat, valid: bool)

  datatype Table = Table(slots: seq<Slot>, tick: nat)

  const EMPTY_SLOT: Slot := Slot(0, 0, 0, false)

  /** The table as constructed: sixteen empty slots. */
  function Fresh(): (t: Table)
    ensures |t.slots| == SLOTS && forall i :: 0 <= i < SLOTS ==> !t.slots[i].valid
  {
    Table(seq(SLOTS, i => EMPTY_SLOT), 0)
  }

  /** First slot tracking a sender, or the number of slots. */
  function FindSource(slots: seq<Slot>, src: u16): (k: nat)
    ensures k <= |slots|
    ensures k < |slots| ==> slots[k].valid && slots[k].sourceId == src
    ensures forall i :: 0 <= i < k ==> !(slots[i].valid && slots[i].sourceId == src)
  {
    if |slots| == 0 || (slots[0].valid && slots[0].sourceId == src) then 0 else 1 + FindSource(slots[1..], src)
  }

  /** First free slot, or the number of slots. */
  function FindFree(slots: seq<Slot>): (k: nat)
    ensures k <= |slots|
    ensures k < |slots| ==> !slots[k].valid
    ensures forall i :: 0 <= i < k ==> slots[i].valid
  {
    if |slots| == 0 || !slots[0].valid then 0 else 1 + FindFree(slots[1..])
  }

  /** First of the first m slots with the oldest access. */
  function Stalest(slots: seq<Slot>, m: nat): (k: nat)
    requires 0 < m <= |slots|
    ensures k < m
    ensures forall i :: 0 <= i < m ==> slots[k].lastAccessed <= slots[i].lastAccessed
  {
    if m == 1 then 0
    else
      var k := Stalest(slots, m - 1);
      if slots[m - 1].lastAccessed < slots[k].lastAccessed then m - 1 else k
  }

  /** The slot a new sender takes. */
  function Target(slots: seq<Slot>): (k: nat)
    requires |slots| == SLOTS
    ensures k < SLOTS
  {
    if FindFree(slots) < SLOTS then FindFree(slots) else Stalest(slots, |slots|)
  }

  /** One call: whether the number is admitted, and the table afterwards. The tick advances on
      every call with a non-zero number, rejected ones included. */
  function Check(t: Table, src: u16, numonce: u64): (r: (bool, Table))
    requires |t.slots| == SLOTS
    ensures |r.1.slots| == SLOTS
  {
    if numonce == 0 then (false, t)
    else
      var now := t.tick + 1;
      var k := FindSource(t.slots, src);
      if k < SLOTS then
        if numonce <= t.slots[k].lastSeen then (false, Table(t.slots, now))
        else (true, Table(t.slots[k := Slot(src, numonce, now, true)], now))
      else
        (true, Table(t.slots[Target(t.slots) := Slot(src, numonce, now, true)], now))
  }

  // ---------------------------------------------------------------------------
  // The most-recently-used list
  // ---------------------------------------------------------------------------

  /** A tracked sender with the highest number admitted from it. */
  datatype Sender = Sender(source: u16, seen: u64)

  function Position(l: seq<Sender>, src: u16): (k: nat)
    ensures k <= |l|
    ensures k < |l| ==> l[k].source == src
    ensures forall i :: 0 <= i < k ==> l[i].source != src
  {
    if |l| == 0 || l[0].source == src then 0 else 1 + Position(l[1..], src)
  }

  /** A sender comes to the front; the least recent one drops off the end. */
  function Touch(l: seq<Sender>, s: Sender): (r: seq<Sender>) {
    var all := [s] + Without(l, Position(l, s.source));
    if |all| > SLOTS then all[..SLOTS] else all
  }

  function Admits(l: seq<Sender>, src: u16, numonce: u64): (ok: bool) {
    numonce != 0 && (var k := Position(l, src); k < |l| ==> l[k].seen < numonce)
  }

  function MruStep(l: seq<Sender>, src: u16, numonce: u64): (l': seq<Sender>) {
    if Admits(l, src, numonce) then Touch(l, Sender(src, numonce)) else l
  }

  /** The slots, taken in the given order, hold exactly the listed senders, most recent first.
      One slot may be left out of account. */
  predicate ListsExcept(t: Table, order: seq<nat>, l: seq<Sender>, except: int) {
    && |t.slots| == SLOTS && |order| == |l|
    && (forall k :: 0 <= k < |order| ==> Holds(t, order[k], l[k]))
    && (forall i, j :: 0 <= i < j < |order| ==>
          order[i] < SLOTS && order[j] < SLOTS && t.slots[order[i]].lastAccessed > t.slots[order[j]].lastAccessed)
    && (forall i, j :: 0 <= i < j < |l| ==> l[i].source != l[j].source)
    && (forall s :: 0 <= s < SLOTS && t.slots[s].valid && s != except ==> s in order)
  }

  predicate Holds(t: Table, s: nat, who: Sender) {
    && s < |t.slots| && t.slots[s].valid
    && t.slots[s].sourceId == who.source && t.slots[s].lastSeen == who.seen
    && t.slots[s].lastAccessed <= t.tick
  }

  predicate Represents(t: Table, order: seq<nat>, l: seq<Sender>) {
    ListsExcept(t, order, l, -1)
  }

  lemma OrderFits(t: Table, order: seq<nat>, l: seq<Sender>)
    requires Represents(t, order, l)
    ensures |l| <= SLOTS
    ensures |l| == SLOTS ==> Elements(order) == Below(SLOTS)
  {
    forall k | 0 <= k < |order| ensures order[k] < SLOTS {
      assert Holds(t, order[k], l[k]);
    }
    DistinctFit(order, SLOTS);
  }

  /** Finding a sender by slot and by recency agree. */
  lemma FindAgrees(t: Table, order: seq<nat>, l: seq<Sender>, src: u16)
    requires Represents(t, order, l)
    ensures FindSource(t.slots, src) < SLOTS <==> Position(l, src) < |l|
    ensures Position(l, src) < |l| ==> order[Position(l, src)] == FindSource(t.slots, src)
    ensures Position(l, src) < |l| ==> t.slots[FindSource(t.slots, src)].lastSeen == l[Position(l, src)].seen
  {
    var k, p := FindSource(t.slots, src), Position(l, src);
    if k < SLOTS {
      assert k in order;
      var q :| 0 <= q < |order| && order[q] == k;
      assert Holds(t, order[q], l[q]);
      assert l[q].source == src;
    }
    if p < |l| {
      assert Holds(t, order[p], l[p]);
    }
  }

  /** A free slot exists exactly while the list is not full. */
  lemma FreeWhileShort(t: Table, order: seq<nat>, l: seq<Sender>)
    requires Represents(t, order, l)
    ensures |l| <= SLOTS
    ensures |l| < SLOTS <==> FindFree(t.slots) < SLOTS
  {
    OrderFits(t, order, l);
    var f := FindFree(t.slots);
    if f < SLOTS {
      FreeUnused(t, order, l, f);
      assert f in Below(SLOTS);
    } else {
      FullWhenNoneFree(t, order, l);
    }
  }

  lemma FullWhenNoneFree(t: Table, order: seq<nat>, l: seq<Sender>)
    requires Represents(t, order, l) && FindFree(t.slots) >= SLOTS
    ensures |l| >= SLOTS
  {
    assert forall x :: 0 <= x < SLOTS ==> x in order;
    hide Represents, FindFree, Elements, Below;
    SubsetSize(Below(SLOTS), Elements(order));
    ElementsBound(order);
  }

  /** A full table gives a new sender the slot of the last sender in the list. */
  lemma StalestIsLast(t: Table, order: seq<nat>, l: seq<Sender>)
    requires Represents(t, order, l) && |l| == SLOTS
    ensures Stalest(t.slots, |t.slots|) == order[SLOTS - 1]
  {
    hide Stalest, Elements, Below;
    OrderFits(t, order, l);
    var s := Stalest(t.slots, |t.slots|);
    assert s in Below(SLOTS);
    assert s in order;
    var q :| 0 <= q < |order| && order[q] == s;
    var last := order[SLOTS - 1];
    assert Holds(t, order[SLOTS - 1], l[SLOTS - 1]);
    assert t.slots[s].lastAccessed <= t.slots[last].lastAccessed;
  }

  /** The table after a write at the next tick. */
  function Written(t: Table, k: nat, who: Sender): (t': Table)
    requires k < |t.slots|
  {
    Table(t.slots[k := Slot(who.source, who.seen, t.tick + 1, true)], t.tick + 1)
  }

  lemma HoldsAfter(t: Table, k: nat, who: Sender, s: nat, other: Sender)
    requires k < |t.slots| && s != k && Holds(t, s, other)
    ensures Holds(Written(t, k, who), s, other) && Written(t, k, who).slots[s] == t.slots[s]
    ensures Written(t, k, who).slots[k].lastAccessed > t.slots[s].lastAccessed
  {
  }

  predicate CanPut(t: Table, order: seq<nat>, l: seq<Sender>, k: nat) {
    ListsExcept(t, order, l, k) && k < SLOTS && k !in order
  }

  lemma PutHolds(t: Table, order: seq<nat>, l: seq<Sender>, k: nat, who: Sender, i: nat)
    requires CanPut(t, order, l, k) && i < |order|
    ensures k < |t.slots| && order[i] < |t.slots|
    ensures Holds(Written(t, k, who), order[i], l[i])
    ensures Written(t, k, who).slots[order[i]] == t.slots[order[i]]
    ensures Written(t, k, who).slots[k].lastAccessed > t.slots[order[i]].lastAccessed
  {
    assert Holds(t, order[i], l[i]) && order[i] in order;
    HoldsAfter(t, k, who, order[i], l[i]);
  }

  lemma PutOrdered(t: Table, order: seq<nat>, l: seq<Sender>, k: nat, who: Sender, i: nat, j: nat)
    requires CanPut(t, order, l, k) && i < j <= |order|
    ensures var o', t' := [k] + order, Written(t, k, who);
            o'[i] < SLOTS && o'[j] < SLOTS && t'.slots[o'[i]].lastAccessed > t'.slots[o'[j]].lastAccessed
  {
    PutHolds(t, order, l, k, who, j - 1);
    if i > 0 {
      PutHolds(t, order, l, k, who, i - 1);
    }
  }

  lemma PutCovers(t: Table, order: seq<nat>, l: seq<Sender>, k: nat, who: Sender, s: nat)
    requires CanPut(t, order, l, k) && s < SLOTS && Written(t, k, who).slots[s].valid
    ensures s in [k] + order
  {
    if s != k {
      Elsewhere(t, k, who, s);
    }
  }

  lemma PutHoldsAll(t: Table, order: seq<nat>, l: seq<Sender>, k: nat, who: Sender)
    requires CanPut(t, order, l, k)
    ensures |Written(t, k, who).slots| == SLOTS && |order| == |l|
    ensures forall i :: 0 <= i <= |order| ==> Holds(Written(t, k, who), ([k] + order)[i], ([who] + l)[i])
  {
    var t' := Written(t, k, who);
    assert Holds(t', k, who);
    hide Written, Holds;
    forall i | 0 <= i <= |order| ensures Holds(t', ([k] + order)[i], ([who] + l)[i]) {
      if i > 0 {
        PutHolds(t, order, l, k, who, i - 1);
      }
    }
  }

  lemma PutOrderedAll(t: Table, order: seq<nat>, l: seq<Sender>, k: nat, who: Sender)
    requires CanPut(t, order, l, k)
    ensures var o', t' := [k] + order, Written(t, k, who);
            && |t'.slots| == SLOTS
            && forall i, j :: 0 <= i < j < |o'| ==>
                 o'[i] < SLOTS && o'[j] < SLOTS && t'.slots[o'[i]].lastAccessed > t'.slots[o'[j]].lastAccessed
  {
    PutHoldsAll(t, order, l, k, who);
    hide Written, Holds, CanPut;
    var o', t' := [k] + order, Written(t, k, who);
    forall i, j | 0 <= i < j < |o'|
      ensures o'[i] < SLOTS && o'[j] < SLOTS && t'.slots[o'[i]].lastAccessed > t'.slots[o'[j]].lastAccessed
    {
      PutOrdered(t, order, l, k, who, i, j);
    }
  }

  lemma PutCoversAll(t: Table, order: seq<nat>, l: seq<Sender>, k: nat, who: Sender)
    requires CanPut(t, order, l, k)
    ensures var t' := Written(t, k, who);
            |t'.slots| == SLOTS && forall s :: 0 <= s < SLOTS && t'.slots[s].valid ==> s in [k] + order
  {
    PutHoldsAll(t, order, l, k, who);
    hide Written, Holds, CanPut;
    var t' := Written(t, k, who);
    forall s | 0 <= s < SLOTS && t'.slots[s].valid ensures s in [k] + order {
      PutCovers(t, order, l, k, who, s);
    }
  }

  lemma SourcesDiffer(l: seq<Sender>, who: Sender)
    requires forall i, j :: 0 <= i < j < |l| ==> l[i].source != l[j].source
    requires forall i :: 0 <= i < |l| ==> l[i].source != who.source
    ensures forall i, j :: 0 <= i < j < |[who] + l| ==> ([who] + l)[i].source != ([who] + l)[j].source
  {
  }

  /** Writing a slot that the kept places do not use puts its sender at the front. */
  lemma PutFirst(t: Table, order: seq<nat>, l: seq<Sender>, k: nat, who: Sender)
    requires CanPut(t, order, l, k)
    requires forall i :: 0 <= i < |l| ==> l[i].source != who.source
    ensures Represents(Written(t, k, who), [k] + order, [who] + l)
  {
    SourcesDiffer(l, who);
    hide Written, Holds, CanPut;
    PutHoldsAll(t, order, l, k, who);
    PutOrderedAll(t, order, l, k, who);
    PutCoversAll(t, order, l, k, who);
  }

  lemma Elsewhere(t: Table, k: nat, who: Sender, s: nat)
    requires k < |t.slots| && s < |t.slots| && s != k
    ensures |Written(t, k, who).slots| == |t.slots| && Written(t, k, who).slots[s] == t.slots[s]
  {
  }

  lemma PlacesDiffer(t: Table, order: seq<nat>, l: seq<Sender>)
    requires Represents(t, order, l)
    ensures forall i, j :: 0 <= i < j < |order| ==> order[i] != order[j]
  {
  }

  lemma StillCovered(t: Table, order: seq<nat>, l: seq<Sender>, p: nat, s: nat)
    requires Represents(t, order, l) && p < |l| && s < SLOTS && t.slots[s].valid && s != order[p]
    ensures s in Without(order, p)
  {
    var o' := Without(order, p);
    hide Without;
    assert s in order;
    var q :| 0 <= q < |order| && order[q] == s;
    assert o'[if q < p then q else q - 1] == s;
  }

  /** Dropping one place leaves its slot out of account. */
  lemma DropPlace(t: Table, order: seq<nat>, l: seq<Sender>, p: nat)
    requires Represents(t, order, l) && p < |l|
    ensures order[p] < SLOTS && order[p] !in Without(order, p)
    ensures ListsExcept(t, Without(order, p), Without(l, p), order[p])
  {
    var o', l' := Without(order, p), Without(l, p);
    hide Without;
    assert order[p] !in o' by {
      PlacesDiffer(t, order, l);
    }
    assert Holds(t, order[p], l[p]);
    forall i | 0 <= i < |o'| ensures Holds(t, o'[i], l'[i]) {
      assert Holds(t, order[if i < p then i else i + 1], l[if i < p then i else i + 1]);
    }
    forall s | 0 <= s < SLOTS && t.slots[s].valid && s != order[p] ensures s in o' {
      StillCovered(t, order, l, p, s);
    }
  }

  // ---------------------------------------------------------------------------
  // Runs
  // ---------------------------------------------------------------------------

  /** A listed sender keeps its slot and moves to the front. */
  lemma Refresh(t: Table, order: seq<nat>, l: seq<Sender>, who: Sender)
    requires Represents(t, order, l) && Position(l, who.source) < |l|
    ensures var p := Position(l, who.source);
            && order[p] < SLOTS == |t.slots|
            && Represents(Written(t, order[p], who), [order[p]] + Without(order, p), Touch(l, who))
  {
    var p := Position(l, who.source);
    OrderFits(t, order, l);
    DropPlace(t, order, l, p);
    NoneElse(t, order, l, p);
    PutFirst(t, Without(order, p), Without(l, p), order[p], who);
  }

  /** A new sender takes a free slot while there is one. */
  lemma Join(t: Table, order: seq<nat>, l: seq<Sender>, who: Sender)
    requires Represents(t, order, l) && Position(l, who.source) == |l| < SLOTS
    ensures |t.slots| == SLOTS && Represents(Written(t, Target(t.slots), who), [Target(t.slots)] + order, Touch(l, who))
  {
    hide FindFree, Stalest, Position, ListsExcept, Written, CanPut;
    SizeOf(t, order, l);
    FreeWhileShort(t, order, l);
    var k := Target(t.slots);
    FreeUnused(t, order, l, k);
    CanPutIn(t, order, l, k);
    PutFirst(t, order, l, k, who);
  }

  lemma CanPutIn(t: Table, order: seq<nat>, l: seq<Sender>, k: nat)
    requires ListsExcept(t, order, l, k) && k < SLOTS && k !in order
    ensures CanPut(t, order, l, k)
  {
  }

  /** Else it takes the slot of the last sender of the full list. */
  lemma Replace(t: Table, order: seq<nat>, l: seq<Sender>, who: Sender)
    requires Represents(t, order, l) && Position(l, who.source) == |l| == SLOTS
    ensures |t.slots| == SLOTS && |order| == |l|
    ensures Represents(Written(t, Target(t.slots), who), [Target(t.slots)] + Without(order, |l| - 1), Touch(l, who))
  {
    hide FindFree, Stalest, Position, Without, ListsExcept, Written, CanPut;
    SizeOf(t, order, l);
    FreeWhileShort(t, order, l);
    StalestIsLast(t, order, l);
    var k, p := Target(t.slots), |l| - 1;
    assert k == order[p];
    DropPlace(t, order, l, p);
    CanPutIn(t, Without(order, p), Without(l, p), k);
    PutFirst(t, Without(order, p), Without(l, p), k, who);
    TouchFull(l, who);
  }

  lemma TouchFull(l: seq<Sender>, who: Sender)
    requires |l| == SLOTS && Position(l, who.source) == |l|
    ensures Touch(l, who) == [who] + Without(l, |l| - 1)
  {
    hide Position;
    assert ([who] + l)[..SLOTS] == [who] + l[..|l| - 1];
  }

  lemma SizeOf(t: Table, order: seq<nat>, l: seq<Sender>)
    requires Represents(t, order, l)
    ensures |t.slots| == SLOTS && |order| == |l|
  {
  }

  /** The table is the list: a call admits exactly when the list does and ends in its next state. */
  lemma StepRefines(t: Table, order: seq<nat>, l: seq<Sender>, src: u16, numonce: u64) returns (order': seq<nat>)
    requires Represents(t, order, l)
    ensures Check(t, src, numonce).0 == Admits(l, src, numonce)
    ensures Represents(Check(t, src, numonce).1, order', MruStep(l, src, numonce))
  {
    hide FindSource, FindFree, Stalest, Position, Without, ListsExcept, Touch, Target;
    order' := order;
    SizeOf(t, order, l);
    FindAgrees(t, order, l, src);
    if Admits(l, src, numonce) {
      var p, who := Position(l, src), Sender(src, numonce);
      if p < |l| {
        Refresh(t, order, l, who);
        order' := [order[p]] + Without(order, p);
      } else {
        OrderFits(t, order, l);
        if |l| < SLOTS {
          Join(t, order, l, who);
          order' := [Target(t.slots)] + order;
        } else {
          Replace(t, order, l, who);
          order' := [Target(t.slots)] + Without(order, |l| - 1);
        }
      }
    } else {
      Later(t, order, l, Check(t, src, numonce).1.tick);
    }
  }

  /** Only the clock moves on a rejected call. */
  lemma Later(t: Table, order: seq<nat>, l: seq<Sender>, tick: nat)
    requires Represents(t, order, l) && t.tick <= tick
    ensures Represents(Table(t.slots, tick), order, l)
  {
    forall k | 0 <= k < |order| ensures Holds(Table(t.slots, tick), order[k], l[k]) {
      assert Holds(t, order[k], l[k]);
    }
  }

  lemma NoneElse(t: Table, order: seq<nat>, l: seq<Sender>, p: nat)
    requires Represents(t, order, l) && p < |l|
    ensures forall i :: 0 <= i < |Without(l, p)| ==> Without(l, p)[i].source != l[p].source
  {
  }

  lemma FreeUnused(t: Table, order: seq<nat>, l: seq<Sender>, f: nat)
    requires Represents(t, order, l) && f < SLOTS && !t.slots[f].valid
    ensures f !in order && ListsExcept(t, order, l, f)
  {
    forall q | 0 <= q < |order| ensures order[q] != f {
      assert Holds(t, order[q], l[q]);
    }
  }

  datatype Call = Call(source: u16, numonce: u64)

  function RunTable(t: Table, calls: seq<Call>): (t': Table)
    requires |t.slots| == SLOTS
    ensures |t'.slots| == SLOTS
  {
    if |calls| == 0 then t
    else
      var before := RunTable(t, calls[..|calls| - 1]);
      Check(before, calls[|calls| - 1].source, calls[|calls| - 1].numonce).1
  }

  function RunList(calls: seq<Call>): (l: seq<Sender>) {
    if |calls| == 0 then []
    else MruStep(RunList(calls[..|calls| - 1]), calls[|calls| - 1].source, calls[|calls| - 1].numonce)
  }

  /** Whatever the calls, a fresh table ends up holding the most-recently-used list. */
  lemma {:induction false} TableIsMru(calls: seq<Call>) returns (order: seq<nat>)
    ensures Represents(RunTable(Fresh(), calls), order, RunList(calls))
  {
    if |calls| == 0 {
      order := [];
    } else {
      var last := calls[|calls| - 1];
      var before := TableIsMru(calls[..|calls| - 1]);
      order := StepRefines(RunTable(Fresh(), calls[..|calls| - 1]), before, RunList(calls[..|calls| - 1]),
                           last.source, last.numonce);
    }
  }

  /** The admitted calls of a run, in order. */
  function Admitted(calls: seq<Call>): (log: seq<Call>) {
    if |calls| == 0 then []
    else
      var last := calls[|calls| - 1];
      Admitted(calls[..|calls| - 1]) +
      if Admits(RunList(calls[..|calls| - 1]), last.source, last.numonce) then [last] else []
  }

  /** Where a sender was last admitted, or -1. */
  function LastOf(log: seq<Call>, src: u16): (k: int)
    ensures -1 <= k < |log|
    ensures k >= 0 ==> log[k].source == src
    ensures forall i :: k < i < |log| ==> log[i].source != src
  {
    if |log| == 0 then -1
    else if log[|log| - 1].source == src then |log| - 1
    else LastOf(log[..|log| - 1], src)
  }

  /** The senders admitted since then. */
  function Since(log: seq<Call>, k: int): (r: set<u16>)
    requires -1 <= k
  {
    set i | k < i < |log| :: log[i].source
  }

  function Sources(l: seq<Sender>): (r: set<u16>)
  {
    set i | 0 <= i < |l| :: l[i].source
  }

  /** What the list says of the log: a listed sender's place is the set of senders admitted since
      it, an unlisted one has been overtaken by at least as many senders as there are slots. */
  predicate Remembers(l: seq<Sender>, log: seq<Call>) {
    && |l| <= SLOTS
    && (forall i, j :: 0 <= i < j < |l| ==> l[i].source != l[j].source)
    && (forall p :: 0 <= p < |l| ==> Placed(l, log, p))
    && (forall src: u16 :: src !in Sources(l) ==> Forgotten(log, src))
  }

  predicate Placed(l: seq<Sender>, log: seq<Call>, p: nat)
    requires p < |l|
  {
    var k := LastOf(log, l[p].source);
    k >= 0 && log[k].numonce == l[p].seen && Since(log, k) == Sources(l[..p])
  }

  predicate Forgotten(log: seq<Call>, src: u16) {
    LastOf(log, src) < 0 || |Since(log, LastOf(log, src))| >= 16
  }

  lemma SinceGrows(log: seq<Call>, c: Call, src: u16)
    requires src != c.source
    ensures LastOf(log + [c], src) == LastOf(log, src)
    ensures LastOf(log, src) >= 0 ==> Since(log + [c], LastOf(log, src)) == Since(log, LastOf(log, src)) + {c.source}
  {
    assert (log + [c])[..|log|] == log;
    var k := LastOf(log, src);
    if k >= 0 {
      var a, b := Since(log, k), Since(log + [c], k);
      forall x | x in b ensures x in a + {c.source} {
        var i :| k < i < |log + [c]| && (log + [c])[i].source == x;
        if i < |log| {
          assert log[i].source in a;
        }
      }
      forall x | x in a + {c.source} ensures x in b {
        if x in a {
          var i :| k < i < |log| && log[i].source == x;
          assert (log + [c])[i].source in b;
        } else {
          assert (log + [c])[|log|].source in b;
        }
      }
    }
  }

  lemma {:induction false} SourcesCount(l: seq<Sender>)
    requires forall i, j :: 0 <= i < j < |l| ==> l[i].source != l[j].source
    ensures |Sources(l)| == |l|
  {
    if |l| > 0 {
      var front, last := l[..|l| - 1], l[|l| - 1];
      SourcesCount(front);
      SourcesAppend(front, last);
      assert l == front + [last];
      assert last.source !in Sources(front);
    }
  }

  lemma SourcesAppend(l: seq<Sender>, s: Sender)
    ensures Sources(l + [s]) == Sources(l) + {s.source}
  {
    var a, b := Sources(l), Sources(l + [s]);
    forall x | x in a + {s.source} ensures x in b {
      if x in a {
        var i :| 0 <= i < |l| && l[i].source == x;
        assert (l + [s])[i].source in b;
      } else {
        assert (l + [s])[|l|].source in b;
      }
    }
    forall x | x in b ensures x in a + {s.source} {
      var i :| 0 <= i < |l + [s]| && (l + [s])[i].source == x;
      if i < |l| {
        assert l[i].source in a;
      }
    }
  }

  lemma SourceBefore(l: seq<Sender>, n: nat, i: nat)
    requires i < n <= |l|
    ensures l[i].source in Sources(l[..n])
  {
    assert l[..n][i] == l[i];
  }

  lemma FindBefore(l: seq<Sender>, n: nat, x: u16) returns (i: nat)
    requires n <= |l| && x in Sources(l[..n])
    ensures i < n && l[i].source == x
  {
    i :| 0 <= i < n && l[..n][i].source == x;
  }

  /** A place of the list after a sender has come to the front, and where it was before. */
  lemma PlaceBefore(l: seq<Sender>, p: nat, s: Sender, i: nat)
    requires p <= |l| && 1 <= i < |[s] + Without(l, p)|
    ensures var i0 := if i - 1 < p then i - 1 else i;
            i0 < |l| && ([s] + Without(l, p))[i] == l[i0]
  {
  }

  lemma SourcesAfter(l: seq<Sender>, p: nat, s: Sender, q: nat, x: u16)
    requires p <= |l| && 1 <= q < |[s] + Without(l, p)|
    requires x in Sources(([s] + Without(l, p))[..q])
    ensures x == s.source || x in Sources(l[..if q - 1 < p then q - 1 else q])
  {
    hide Sources, Without;
    var l' := [s] + Without(l, p);
    PlaceBefore(l, p, s, q);
    var i := FindBefore(l', q, x);
    if i > 0 {
      PlaceBefore(l, p, s, i);
      SourceBefore(l, if q - 1 < p then q - 1 else q, if i - 1 < p then i - 1 else i);
    }
  }

  lemma SourcesKept(l: seq<Sender>, p: nat, s: Sender, q: nat, x: u16)
    requires p <= |l| && (p < |l| ==> l[p].source == s.source) && 1 <= q < |[s] + Without(l, p)|
    requires x == s.source || x in Sources(l[..if q - 1 < p then q - 1 else q])
    ensures x in Sources(([s] + Without(l, p))[..q])
  {
    hide Sources, Without;
    var l' := [s] + Without(l, p);
    PlaceBefore(l, p, s, q);
    if x == s.source {
      SourceBefore(l', q, 0);
    } else {
      var i := FindBefore(l, if q - 1 < p then q - 1 else q, x);
      var i1 := if i < p then i + 1 else i;
      PlaceBefore(l, p, s, i1);
      SourceBefore(l', q, i1);
    }
  }

  /** The list before a place, once another sender has come to the front. */
  lemma BeforePlace(l: seq<Sender>, p: nat, s: Sender, q: nat)
    requires p <= |l| && (p < |l| ==> l[p].source == s.source)
    requires 1 <= q < |[s] + Without(l, p)|
    ensures var q0 := if q - 1 < p then q - 1 else q;
            && q0 < |l| && ([s] + Without(l, p))[q] == l[q0]
            && Sources(([s] + Without(l, p))[..q]) == Sources(l[..q0]) + {s.source}
  {
    hide Sources, Without;
    PlaceBefore(l, p, s, q);
    var q0 := if q - 1 < p then q - 1 else q;
    forall x | x in Sources(([s] + Without(l, p))[..q]) ensures x in Sources(l[..q0]) + {s.source} {
      SourcesAfter(l, p, s, q, x);
    }
    forall x | x in Sources(l[..q0]) + {s.source} ensures x in Sources(([s] + Without(l, p))[..q]) {
      SourcesKept(l, p, s, q, x);
    }
  }

  lemma PositionFinds(l: seq<Sender>, src: u16)
    ensures src in Sources(l) <==> Position(l, src) < |l|
  {
    if src in Sources(l) {
      var i :| 0 <= i < |l| && l[i].source == src;
    }
    if Position(l, src) < |l| {
      assert l[Position(l, src)].source in Sources(l);
    }
  }

  lemma TouchPlaces(l: seq<Sender>, log: seq<Call>, c: Call, q: nat)
    requires Remembers(l, log)
    requires q < |Touch(l, Sender(c.source, c.numonce))|
    ensures Placed(Touch(l, Sender(c.source, c.numonce)), log + [c], q)
  {
    var s := Sender(c.source, c.numonce);
    var p := Position(l, c.source);
    var all, l' := [s] + Without(l, p), Touch(l, s);
    assert l'[..q] == all[..q] && l'[q] == all[q];
    if q == 0 {
      assert l'[..0] == [];
      assert LastOf(log + [c], c.source) == |log|;
      assert Since(log + [c], |log|) == {};
    } else {
      BeforePlace(l, p, s, q);
      var q0 := if q - 1 < p then q - 1 else q;
      assert Placed(l, log, q0);
      assert l[q0].source != c.source;
      SinceGrows(log, c, l[q0].source);
    }
  }

  lemma TouchForgets(l: seq<Sender>, log: seq<Call>, c: Call, x: u16)
    requires Remembers(l, log)
    requires x !in Sources(Touch(l, Sender(c.source, c.numonce)))
    ensures Forgotten(log + [c], x)
  {
    var s := Sender(c.source, c.numonce);
    var l' := Touch(l, s);
    assert l'[0].source in Sources(l');
    SinceGrows(log, c, x);
    var k := LastOf(log, x);
    if x !in Sources(l) {
      if k >= 0 {
        SubsetSize(Since(log, k), Since(log, k) + {c.source});
      }
    } else {
      Evicted(l, s, x);
      assert Placed(l, log, SLOTS - 1);
      SourcesCount(l[..SLOTS - 1]);
      PositionFinds(l, c.source);
      assert c.source !in Sources(l[..SLOTS - 1]);
    }
  }

  lemma TouchAt(l: seq<Sender>, s: Sender, i: nat)
    requires i < |l| <= SLOTS && Position(l, s.source) != i
    ensures var p, l' := Position(l, s.source), Touch(l, s);
            var i1 := if i < p then i + 1 else i;
            && |l'| == (if p < |l| || |l| == SLOTS then |l| else |l| + 1)
            && (i1 < |l'| ==> l'[i1] == l[i])
  {
    hide Position, Without;
    var p := Position(l, s.source);
    var rest := Without(l, p);
    var all := [s] + rest;
    var i1 := if i < p then i + 1 else i;
    if i1 < |Touch(l, s)| {
      assert all[i1] == rest[i1 - 1];
      assert rest[i1 - 1] == l[i];
    }
  }

  /** Only the last sender of a full list can drop off. */
  lemma Evicted(l: seq<Sender>, s: Sender, x: u16)
    requires |l| <= SLOTS && x in Sources(l) && x !in Sources(Touch(l, s)) && x != s.source
    ensures |l| == SLOTS && Position(l, s.source) == |l| && l[SLOTS - 1].source == x
  {
    hide Position, Without, Sources, Touch;
    var l' := Touch(l, s);
    var i := FindListed(l, x);
    TouchAt(l, s, i);
    NotListed(l', x);
  }

  lemma FindListed(l: seq<Sender>, x: u16) returns (i: nat)
    requires x in Sources(l)
    ensures i < |l| && l[i].source == x
  {
    i :| 0 <= i < |l| && l[i].source == x;
  }

  lemma NotListed(l: seq<Sender>, x: u16)
    requires x !in Sources(l)
    ensures forall i :: 0 <= i < |l| ==> l[i].source != x
  {
    forall i | 0 <= i < |l| ensures l[i].source != x {
      assert l[i].source in Sources(l);
    }
  }

  lemma RemembersStep(l: seq<Sender>, log: seq<Call>, c: Call)
    requires Remembers(l, log)
    ensures Remembers(Touch(l, Sender(c.source, c.numonce)), log + [c])
  {
    var s := Sender(c.source, c.numonce);
    var l' := Touch(l, s);
    forall q | 0 <= q < |l'| ensures Placed(l', log + [c], q) {
      TouchPlaces(l, log, c, q);
    }
    forall x: u16 | x !in Sources(l') ensures Forgotten(log + [c], x) {
      TouchForgets(l, log, c, x);
    }
  }

  lemma {:induction false} ListRemembers(calls: seq<Call>)
    ensures Remembers(RunList(calls), Admitted(calls))
  {
    if |calls| > 0 {
      var front, last := calls[..|calls| - 1], calls[|calls| - 1];
      ListRemembers(front);
      if Admits(RunList(front), last.source, last.numonce) {
        RemembersStep(RunList(front), Admitted(front), last);
      } else {
        assert Admitted(calls) == Admitted(front);
      }
    }
  }

  /** Exactly when a call is admitted, after any calls whatever: its number is not zero, and
      either its sender was never admitted, or the number is above the last one admitted from it,
      or sixteen other senders have been admitted since and the sender has been forgotten. */
  lemma AdmittedIff(calls: seq<Call>, src: u16, numonce: u64)
    ensures var log := Admitted(calls);
            var k := LastOf(log, src);
            Check(RunTable(Fresh(), calls), src, numonce).0 <==>
              numonce != 0 && (k < 0 || log[k].numonce < numonce || |Since(log, k)| >= 16)
  {
    hide Represents, Check, Position, LastOf, RunList, RunTable;
    var l, log := RunList(calls), Admitted(calls);
    var order := TableIsMru(calls);
    var order' := StepRefines(RunTable(Fresh(), calls), order, l, src, numonce);
    ListRemembers(calls);
    PositionFinds(l, src);
    var p := Position(l, src);
    if p < |l| {
      assert Placed(l, log, p);
      SourcesCount(l[..p]);
    } else {
      assert Forgotten(log, src);
    }
  }

  /** While no more senders than slots are ever admitted, the numbers admitted from each sender
      strictly increase, so no number is admitted twice. */
  lemma {:induction false} NumbersIncrease(calls: seq<Call>, i: nat, j: nat)
    requires |Since(Admitted(calls), -1)| <= 16
    requires i < j < |Admitted(calls)| && Admitted(calls)[i].source == Admitted(calls)[j].source
    ensures Admitted(calls)[i].numonce < Admitted(calls)[j].numonce
  {
    hide Admitted, Since, LastOf, RunList, Admits;
    NothingLogged();
    LogGrows(calls);
    var front := calls[..|calls| - 1];
    var log, log' := Admitted(front), Admitted(calls);
    if j < |log| {
      assert log'[i] == log[i] && log'[j] == log[j];
      NumbersIncrease(front, i, j);
    } else {
      var k := LastOf(log, log'[j].source);
      assert log'[i] == log[i];
      if i < k {
        NumbersIncrease(front, i, k);
      }
    }
  }

  lemma NothingLogged()
    ensures Admitted([]) == []
  {
  }

  /** Under that bound the log grows by at most a call that exceeds its sender's last number, and the
      bound held before. */
  lemma LogGrows(calls: seq<Call>)
    requires |calls| > 0 && |Since(Admitted(calls), -1)| <= SLOTS
    ensures var log, log' := Admitted(calls[..|calls| - 1]), Admitted(calls);
            && |Since(log, -1)| <= SLOTS && |log| <= |log'| <= |log| + 1 && log == log'[..|log|]
            && (|log'| > |log| ==>
                  var k := LastOf(log, log'[|log|].source);
                  k >= 0 ==> log[k].numonce < log'[|log|].numonce)
  {
    LogStep(calls);
    hide Admitted, Since, LastOf;
    var log, last := Admitted(calls[..|calls| - 1]), calls[|calls| - 1];
    SinceMonotone(log, Admitted(calls));
    SubsetSize(Since(log, -1), Since(Admitted(calls), -1));
    var k := LastOf(log, last.source);
    if k >= 0 {
      SinceOthers(log, k);
    }
  }

  /** The last call of a run is logged only if it was admitted. */
  lemma LogStep(calls: seq<Call>)
    requires |calls| > 0
    ensures var front, last := calls[..|calls| - 1], calls[|calls| - 1];
            var log := Admitted(front);
            var k := LastOf(log, last.source);
            || Admitted(calls) == log
            || (Admitted(calls) == log + [last]
                && (k < 0 || log[k].numonce < last.numonce || |Since(log, k)| >= SLOTS))
  {
    hide LastOf, Since, RunList;
    var front, last := calls[..|calls| - 1], calls[|calls| - 1];
    AdmittedIff(front, last.source, last.numonce);
    var order := TableIsMru(front);
    var order' := StepRefines(RunTable(Fresh(), front), order, RunList(front), last.source, last.numonce);
  }

  lemma SinceMonotone(log: seq<Call>, log': seq<Call>)
    requires log <= log'
    ensures Since(log, -1) <= Since(log', -1)
  {
    forall x | x in Since(log, -1) ensures x in Since(log', -1) {
      var i :| -1 < i < |log| && log[i].source == x;
      assert log'[i].source in Since(log', -1);
    }
  }

  lemma SinceOthers(log: seq<Call>, k: int)
    requires 0 <= k < |log| && k == LastOf(log, log[k].source)
    ensures |Since(log, k)| < |Since(log, -1)|
  {
    var src := log[k].source;
    forall x | x in Since(log, k) ensures x in Since(log, -1) - {src} {
      var i :| k < i < |log| && log[i].source == x;
      assert log[i].source in Since(log, -1);
    }
    assert src in Since(log, -1);
    SubsetSize(Since(log, k), Since(log, -1) - {src});
  }

  // ---------------------------------------------------------------------------
  // The class
  // ---------------------------------------------------------------------------

  class NumonceLru {
    var slots: array<Slot>
    var tick: nat

    ghost predicate Valid()
      reads this
    {
      slots.Length == SLOTS
    }

    ghost function State(): (t: Table)
      reads this, slots
    {
      Table(slots[..], tick)
    }

    constructor ()
      ensures Valid() && fresh(slots) && State() == Fresh()
    {
      slots := new Slot[SLOTS](_ => EMPTY_SLOT);
      tick := 0;
    }

    method CheckAndUpdate(src: u16, numonce: u64) returns (ok: bool)
      requires Valid()
      modifies this`tick, slots
      ensures Valid() && slots == old(slots)
      ensures ok == Check(old(State()), src, numonce).0
      ensures State() == Check(old(State()), src, numonce).1
    {
      if numonce == 0 {
        return false;
      }
      tick := tick + 1;
      var i := 0;
      while i < SLOTS
        invariant 0 <= i <= SLOTS && slots[..] == old(slots[..])
        invariant forall j :: 0 <= j < i ==> !(slots[j].valid && slots[j].sourceId == src)
      {
        if slots[i].valid && slots[i].sourceId == src {
          assert FindSource(slots[..], src) == i;
          if numonce <= slots[i].lastSeen {
            return false;
          }
          slots[i] := Slot(src, numonce, tick, true);
          return true;
        }
        i := i + 1;
      }
      assert FindSource(slots[..], src) == SLOTS;
      var target := PickTarget();
      slots[target] := Slot(src, numonce, tick, true);
      return true;
    }

    /** First free slot, else the one least recently accessed. */
    method PickTarget() returns (target: nat)
      requires Valid()
      ensures target == Target(slots[..])
    {
      target := 0;
      while target < SLOTS && slots[target].valid
        invariant 0 <= target <= SLOTS
        invariant forall j :: 0 <= j < target ==> slots[j].valid
      {
        target := target + 1;
      }
      assert target == FindFree(slots[..]);
      if target == SLOTS {
        target := 0;
        var oldest := slots[0].lastAccessed;
        var i := 1;
        while i < SLOTS
          invariant 1 <= i <= SLOTS
          invariant target == Stalest(slots[..], i) && oldest == slots[target].lastAccessed
        {
          if slots[i].lastAccessed < oldest {
            oldest := slots[i].lastAccessed;
            target := i;
          }
          i := i + 1;
        }
      }
    }
  }
}
