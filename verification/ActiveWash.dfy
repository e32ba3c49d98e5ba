/** The table of washes in progress that the director refreshes: eight slots keyed by device class
    and group. */
module ActiveWash {
  import opened Bytes
  import opened Counting

  const SLOTS: nat := 8
  const REFRESH_MS: nat := 10000

  datatype Target = Target(deviceClass: u8, group: u8)

  /** The content of a wash event, which the table carries but never looks at. */
  type Payload = seq<u8>

  datatype Slot = Slot(occupied: bool, target: Target, payload: Payload, lastBroadcast: u32)

  const FREE: Slot := Slot(false, Target(0, 0), [], 0)

  /** First slot of a target, or the number of slots. */
  function FindTarget(slots: seq<Slot>, t: Target): (k: nat)
    ensures k <= |slots|
    ensures k < |slots| ==> slots[k].occupied && slots[k].target == t
    ensures forall i :: 0 <= i < k ==> !(slots[i].occupied && slots[i].target == t)
  {
    if |slots| == 0 || (slots[0].occupied && slots[0].target == t) then 0 else 1 + FindTarget(slots[1..], t)
  }

  function FirstFree(slots: seq<Slot>): (k: nat)
    ensures k <= |slots|
    ensures k < |slots| ==> !slots[k].occupied
    ensures forall i :: 0 <= i < k ==> slots[i].occupied
  {
    if |slots| == 0 || !slots[0].occupied then 0 else 1 + FirstFree(slots[1..])
  }

  /** First of the first m slots with the smallest broadcast stamp. */
  function Oldest(slots: seq<Slot>, m: nat): (k: nat)
    requires 0 < m <= |slots|
    ensures k < m
    ensures forall i :: 0 <= i < m ==> slots[k].lastBroadcast <= slots[i].lastBroadcast
    ensures forall i :: 0 <= i < k ==> slots[k].lastBroadcast < slots[i].lastBroadcast
  {
    if m == 1 then 0
    else
      var k := Oldest(slots, m - 1);
      if slots[m - 1].lastBroadcast < slots[k].lastBroadcast then m - 1 else k
  }

  function SlotFor(slots: seq<Slot>, t: Target): (k: nat)
    requires |slots| > 0
    ensures k < |slots|
  {
    if FindTarget(slots, t) < |slots| then FindTarget(slots, t)
    else if FirstFree(slots) < |slots| then FirstFree(slots)
    else Oldest(slots, |slots|)
  }

  function Recorded(slots: seq<Slot>, t: Target, p: Payload, now: u32): (slots': seq<Slot>)
    requires |slots| > 0
    ensures |slots'| == |slots|
  {
    slots[SlotFor(slots, t) := Slot(true, t, p, now)]
  }

  function Cleared(slots: seq<Slot>, t: Target): (slots': seq<Slot>)
    ensures |slots'| == |slots|
  {
    var k := FindTarget(slots, t);
    if k < |slots| then slots[k := slots[k].(occupied := false)] else slots
  }

  predicate Due(s: Slot, now: u32) {
    s.occupied && Elapsed(now, s.lastBroadcast) >= REFRESH_MS
  }

  /** The slots after a refresh; the flags say which sends the driver accepts. */
  function Refreshed(slots: seq<Slot>, now: u32, accepts: seq<bool>): (slots': seq<Slot>)
    requires |accepts| == |slots|
    ensures |slots'| == |slots|
    ensures forall i :: 0 <= i < |slots| ==>
              slots'[i] == if Due(slots[i], now) && accepts[i] then slots[i].(lastBroadcast := now) else slots[i]
  {
    if |slots| == 0 then []
    else
      var n := |slots| - 1;
      Refreshed(slots[..n], now, accepts[..n]) +
      [if Due(slots[n], now) && accepts[n] then slots[n].(lastBroadcast := now) else slots[n]]
  }

  /** What a refresh puts on the air, in slot order. */
  function Resent(slots: seq<Slot>, now: u32): (sends: seq<(Target, Payload)>) {
    if |slots| == 0 then []
    else
      var n := |slots| - 1;
      Resent(slots[..n], now) + if Due(slots[n], now) then [(slots[n].target, slots[n].payload)] else []
  }

  // ---------------------------------------------------------------------------
  // The table as a map
  // ---------------------------------------------------------------------------

  datatype Live = Live(payload: Payload, lastBroadcast: u32)

  function Lookup(slots: seq<Slot>, t: Target): (r: Option<Live>) {
    var k := FindTarget(slots, t);
    if k < |slots| then Some(Live(slots[k].payload, slots[k].lastBroadcast)) else None
  }

  /** At most one entry for each target. */
  predicate Distinct(slots: seq<Slot>) {
    forall i, j :: 0 <= i < j < |slots| && slots[i].occupied && slots[j].occupied ==> slots[i].target != slots[j].target
  }

  /** The target that recording a new one pushes out of a full table. */
  function Victim(slots: seq<Slot>, t: Target): (v: Option<Target>)
    requires |slots| > 0
  {
    if FindTarget(slots, t) == |slots| && FirstFree(slots) == |slots|
    then Some(slots[Oldest(slots, |slots|)].target) else None
  }

  lemma FoundAt(slots: seq<Slot>, k: nat)
    requires Distinct(slots) && k < |slots| && slots[k].occupied
    ensures FindTarget(slots, slots[k].target) == k
    ensures Lookup(slots, slots[k].target) == Some(Live(slots[k].payload, slots[k].lastBroadcast))
  {
  }

  /** A slot overwritten for a target that was nowhere else. */
  lemma LookupWritten(slots: seq<Slot>, k: nat, s: Slot, t: Target)
    requires Distinct(slots) && k < |slots| && s.occupied
    requires forall i :: 0 <= i < |slots| && i != k && slots[i].occupied ==> slots[i].target != s.target
    ensures Distinct(slots[k := s])
    ensures Lookup(slots[k := s], t)
            == if t == s.target then Some(Live(s.payload, s.lastBroadcast))
               else if slots[k].occupied && slots[k].target == t then None
               else Lookup(slots, t)
  {
    var slots' := slots[k := s];
    FoundAt(slots', k);
    var i := FindTarget(slots, t);
    hide FindTarget;
    if t != s.target && i < |slots| && i != k {
      FoundAt(slots', i);
    }
  }

  /** Recording sets the target's entry, drops the victim's if the table was full, and touches no
      other. */
  lemma RecordLookup(slots: seq<Slot>, t: Target, p: Payload, now: u32, other: Target)
    requires Distinct(slots) && |slots| > 0
    ensures Distinct(Recorded(slots, t, p, now))
    ensures Lookup(Recorded(slots, t, p, now), other)
            == if other == t then Some(Live(p, now))
               else if Victim(slots, t) == Some(other) then None
               else Lookup(slots, other)
  {
    var k := SlotFor(slots, t);
    var found := FindTarget(slots, t);
    if found < |slots| {
      FoundAt(slots, found);
    }
    LookupWritten(slots, k, Slot(true, t, p, now), other);
  }

  /** A victim exists exactly when a new target meets a full table; it is the target broadcast longest
      ago, and of several the one in the lowest slot. */
  lemma VictimIsOldest(slots: seq<Slot>, t: Target)
    requires Distinct(slots) && |slots| > 0
    ensures Victim(slots, t).Some? <==> Lookup(slots, t).None? && forall i :: 0 <= i < |slots| ==> slots[i].occupied
    ensures Victim(slots, t).Some? ==>
              exists k :: 0 <= k < |slots| && slots[k].target == Victim(slots, t).value
                          && (forall i :: 0 <= i < |slots| ==> slots[k].lastBroadcast <= slots[i].lastBroadcast)
                          && (forall i :: 0 <= i < k ==> slots[k].lastBroadcast < slots[i].lastBroadcast)
  {
  }

  lemma ClearLookup(slots: seq<Slot>, t: Target, other: Target)
    requires Distinct(slots)
    ensures Distinct(Cleared(slots, t))
    ensures Lookup(Cleared(slots, t), other) == if other == t then None else Lookup(slots, other)
  {
    var slots', i := Cleared(slots, t), FindTarget(slots, other);
    hide FindTarget;
    if other != t && i < |slots| {
      FoundAt(slots', i);
    }
  }

  /** A refresh leaves every entry's payload, and restamps those it re-sent. */
  lemma RefreshLookup(slots: seq<Slot>, now: u32, accepts: seq<bool>, t: Target)
    requires Distinct(slots) && |accepts| == |slots|
    ensures Distinct(Refreshed(slots, now, accepts))
    ensures var k := FindTarget(slots, t);
            Lookup(Refreshed(slots, now, accepts), t)
            == if k < |slots| && Due(slots[k], now) && accepts[k] then Some(Live(slots[k].payload, now))
               else Lookup(slots, t)
  {
    var slots', k := Refreshed(slots, now, accepts), FindTarget(slots, t);
    hide FindTarget, Refreshed;
    if k < |slots| {
      FoundAt(slots', k);
    }
  }

  /** A refresh re-sends exactly the live targets last broadcast ten seconds ago or longer. */
  lemma {:induction false} ResentIsDue(slots: seq<Slot>, now: u32, send: (Target, Payload))
    ensures send in Resent(slots, now)
            <==> exists i :: 0 <= i < |slots| && Due(slots[i], now) && send == (slots[i].target, slots[i].payload)
  {
    if |slots| > 0 {
      var n := |slots| - 1;
      ResentIsDue(slots[..n], now, send);
      assert forall i :: 0 <= i < n ==> slots[..n][i] == slots[i];
    }
  }

  lemma ResentIff(slots: seq<Slot>, now: u32, t: Target, p: Payload)
    requires Distinct(slots)
    ensures (t, p) in Resent(slots, now)
            <==> Lookup(slots, t).Some? && Lookup(slots, t).value.payload == p
                 && Elapsed(now, Lookup(slots, t).value.lastBroadcast) >= 10000
  {
    ResentIsDue(slots, now, (t, p));
    var k := FindTarget(slots, t);
    hide FindTarget, Resent, Elapsed;
    if (t, p) in Resent(slots, now) {
      var i :| 0 <= i < |slots| && Due(slots[i], now) && (t, p) == (slots[i].target, slots[i].payload);
      FoundAt(slots, i);
    }
    if k < |slots| {
      FoundAt(slots, k);
    }
  }

  /** And each at most once. */
  lemma {:induction false} ResentOnce(slots: seq<Slot>, now: u32)
    requires Distinct(slots)
    ensures forall i, j :: 0 <= i < j < |Resent(slots, now)| ==> Resent(slots, now)[i].0 != Resent(slots, now)[j].0
  {
    if |slots| > 0 {
      var n := |slots| - 1;
      ResentOnce(slots[..n], now);
      var front := Resent(slots[..n], now);
      forall i | 0 <= i < |front| && Due(slots[n], now) ensures front[i].0 != slots[n].target {
        ResentIsDue(slots[..n], now, front[i]);
        assert front[i] in front;
      }
    }
  }

  // ---------------------------------------------------------------------------
  // Runs
  // ---------------------------------------------------------------------------

  /** A wash or an end that the radio driver did or did not send, and a refresh with the driver's
      answers slot by slot; a refresh does nothing while the driver is off or no output can wash. */
  datatype Op =
    | Wash(target: Target, payload: Payload, now: u32, sent: bool)
    | EndWash(target: Target, sent: bool)
    | Refresh(now: u32, on: bool, accepts: seq<bool>)

  predicate Possible(op: Op) {
    op.Refresh? ==> |op.accepts| == SLOTS
  }

  predicate AllPossible(ops: seq<Op>) {
    forall i :: 0 <= i < |ops| ==> Possible(ops[i])
  }

  function Step(slots: seq<Slot>, op: Op): (slots': seq<Slot>)
    requires |slots| == SLOTS && Possible(op)
    ensures |slots'| == SLOTS
  {
    match op
    case Wash(t, p, now, sent) => if sent then Recorded(slots, t, p, now) else slots
    case EndWash(t, sent) => if sent then Cleared(slots, t) else slots
    case Refresh(now, on, accepts) => if on then Refreshed(slots, now, accepts) else slots
  }

  function Empty(): (slots: seq<Slot>)
    ensures |slots| == SLOTS && forall i :: 0 <= i < SLOTS ==> !slots[i].occupied
  {
    seq(SLOTS, i => FREE)
  }

  function Run(ops: seq<Op>): (slots: seq<Slot>)
    requires AllPossible(ops)
    ensures |slots| == SLOTS
  {
    if |ops| == 0 then Empty() else Step(Run(ops[..|ops| - 1]), ops[|ops| - 1])
  }

  /** The latest wash of a target that was not ended, whatever the table's size. */
  function Unended(ops: seq<Op>, t: Target): (p: Option<Payload>) {
    if |ops| == 0 then None
    else
      match ops[|ops| - 1]
      case Wash(t', p, _, sent) => if sent && t' == t then Some(p) else Unended(ops[..|ops| - 1], t)
      case EndWash(t', sent) => if sent && t' == t then None else Unended(ops[..|ops| - 1], t)
      case Refresh(_, _, _) => Unended(ops[..|ops| - 1], t)
  }

  /** Whether a target was pushed out since its last wash. */
  predicate Evicted(ops: seq<Op>, t: Target)
    requires AllPossible(ops)
  {
    |ops| > 0 &&
    var front := ops[..|ops| - 1];
    match ops[|ops| - 1]
    case Wash(t', _, _, sent) =>
      if !sent then Evicted(front, t)
      else t' != t && (Victim(Run(front), t') == Some(t) || Evicted(front, t))
    case EndWash(t', sent) => !(sent && t' == t) && Evicted(front, t)
    case Refresh(_, _, _) => Evicted(front, t)
  }

  /** The time of the last successful broadcast of a target. */
  function LastSent(ops: seq<Op>, t: Target): (time: Option<u32>)
    requires AllPossible(ops)
  {
    if |ops| == 0 then None
    else
      var front := ops[..|ops| - 1];
      match ops[|ops| - 1]
      case Wash(t', _, now, sent) => if sent && t' == t then Some(now) else LastSent(front, t)
      case EndWash(_, _) => LastSent(front, t)
      case Refresh(now, on, accepts) =>
        var slots := Run(front);
        var k := FindTarget(slots, t);
        if on && k < SLOTS && Due(slots[k], now) && accepts[k] then Some(now) else LastSent(front, t)
  }

  /** A target's entry after a step, from its entry before. */
  function Expected(slots: seq<Slot>, op: Op, t: Target): (r: Option<Live>)
    requires |slots| == SLOTS && Possible(op)
  {
    match op
    case Wash(t', p, now, sent) =>
      if !sent then Lookup(slots, t)
      else if t == t' then Some(Live(p, now))
      else if Victim(slots, t') == Some(t) then None
      else Lookup(slots, t)
    case EndWash(t', sent) => if sent && t == t' then None else Lookup(slots, t)
    case Refresh(now, on, accepts) =>
      var k := FindTarget(slots, t);
      if on && k < SLOTS && Due(slots[k], now) && accepts[k] then Some(Live(slots[k].payload, now)) else Lookup(slots, t)
  }

  lemma StepLookup(slots: seq<Slot>, op: Op, t: Target)
    requires |slots| == SLOTS && Possible(op) && Distinct(slots)
    ensures Distinct(Step(slots, op))
    ensures Lookup(Step(slots, op), t) == Expected(slots, op, t)
  {
    hide Lookup, Recorded, Cleared, Refreshed, Victim, FindTarget, Due, Distinct;
    match op {
      case Wash(t', p, now, sent) => RecordLookup(slots, t', p, now, t);
      case EndWash(t', sent) => ClearLookup(slots, t', t);
      case Refresh(now, on, accepts) => RefreshLookup(slots, now, accepts, t);
    }
  }

  lemma NothingLive(t: Target)
    ensures Distinct(Empty()) && Lookup(Empty(), t) == None
  {
  }

  lemma LookupPayload(slots: seq<Slot>, t: Target)
    ensures FindTarget(slots, t) < |slots| ==>
              Lookup(slots, t) == Some(Live(slots[FindTarget(slots, t)].payload, slots[FindTarget(slots, t)].lastBroadcast))
  {
  }

  /** Over any run the table holds at most one entry for each target, and is the map from targets to
      their latest un-ended wash, without the evicted ones; an entry's stamp is the time of the
      target's last successful broadcast. */
  lemma {:induction false} TableIsMap(ops: seq<Op>, t: Target)
    requires AllPossible(ops)
    ensures Distinct(Run(ops))
    ensures var r := Lookup(Run(ops), t);
            && (if r.Some? then Some(r.value.payload) else None) == (if Evicted(ops, t) then None else Unended(ops, t))
            && (r.Some? ==> LastSent(ops, t) == Some(r.value.lastBroadcast))
  {
    hide Lookup, Step, Victim, FindTarget, Due, Distinct;
    if |ops| == 0 {
      NothingLive(t);
    } else {
      var front, last := ops[..|ops| - 1], ops[|ops| - 1];
      TableIsMap(front, t);
      StepLookup(Run(front), last, t);
      LookupPayload(Run(front), t);
    }
  }

  /** The targets with an un-ended wash. */
  function LiveTargets(ops: seq<Op>): (ts: set<Target>) {
    if |ops| == 0 then {}
    else
      var before := LiveTargets(ops[..|ops| - 1]);
      match ops[|ops| - 1]
      case Wash(t, _, _, sent) => if sent then before + {t} else before
      case EndWash(t, sent) => if sent then before - {t} else before
      case Refresh(_, _, _) => before
  }

  lemma {:induction false} LiveTargetsMeans(ops: seq<Op>, t: Target)
    ensures t in LiveTargets(ops) <==> Unended(ops, t).Some?
  {
    if |ops| > 0 {
      LiveTargetsMeans(ops[..|ops| - 1], t);
    }
  }

  /** Never more than eight targets live at once. */
  predicate NeverCrowded(ops: seq<Op>) {
    |ops| > 0 ==> |LiveTargets(ops)| <= 8 && NeverCrowded(ops[..|ops| - 1])
  }

  function TargetsOf(slots: seq<Slot>): (ts: seq<Target>)
    ensures |ts| == |slots| && forall i :: 0 <= i < |slots| ==> ts[i] == slots[i].target
  {
    seq(|slots|, i requires 0 <= i < |slots| => slots[i].target)
  }

  /** A full table does not hold the target that it has a victim for. */
  lemma NewToFull(slots: seq<Slot>, t: Target)
    requires |slots| > 0 && Victim(slots, t).Some?
    ensures forall i :: 0 <= i < |slots| ==> slots[i].occupied && slots[i].target != t
  {
    hide Oldest;
  }

  lemma TargetsDistinct(slots: seq<Slot>)
    requires Distinct(slots) && forall i :: 0 <= i < |slots| ==> slots[i].occupied
    ensures |Elements(TargetsOf(slots))| == |slots|
  {
    hide Elements;
    DistinctCount(TargetsOf(slots));
  }

  /** A full table meeting a new target means nine live targets. */
  lemma FullMeansCrowded(slots: seq<Slot>, t: Target, before: set<Target>)
    requires |slots| == SLOTS && Distinct(slots) && Victim(slots, t).Some?
    requires forall k :: 0 <= k < |slots| ==> slots[k].target in before
    ensures |before + {t}| > SLOTS
  {
    NewToFull(slots, t);
    TargetsDistinct(slots);
    var ts := TargetsOf(slots);
    hide Distinct, Victim, Elements, TargetsOf;
    assert t !in ts;
    assert forall x :: x in ts ==> x in before;
    SubsetSize(Elements(ts) + {t}, before + {t});
  }

  /** Nothing is evicted while at most eight targets are ever live at once: then the table is the
      whole map. */
  lemma {:induction false} NoneEvicted(ops: seq<Op>, t: Target)
    requires AllPossible(ops) && NeverCrowded(ops)
    ensures !Evicted(ops, t)
    ensures Lookup(Run(ops), t).Some? <==> t in LiveTargets(ops)
  {
    TableIsMap(ops, t);
    LiveTargetsMeans(ops, t);
    hide Lookup, Step, FindTarget, Due, Distinct, Run, Unended, Victim;
    if |ops| > 0 {
      var front, last := ops[..|ops| - 1], ops[|ops| - 1];
      NoneEvicted(front, t);
      if last.Wash? && last.sent && Victim(Run(front), last.target).Some? {
        VictimMeansCrowded(front, last.target);
      }
    }
  }

  lemma VictimMeansCrowded(front: seq<Op>, t: Target)
    requires AllPossible(front) && NeverCrowded(front) && Victim(Run(front), t).Some?
    ensures |LiveTargets(front) + {t}| > SLOTS
    decreases |front|, 0
  {
    var slots := Run(front);
    TableIsMap(front, t);
    VictimIsOldest(slots, t);
    hide Run, Victim, NeverCrowded, Lookup, FindTarget, Unended, Evicted, LiveTargets;
    forall k | 0 <= k < |slots| ensures slots[k].target in LiveTargets(front) {
      FoundAt(slots, k);
      TableIsMap(front, slots[k].target);
      LiveTargetsMeans(front, slots[k].target);
    }
    FullMeansCrowded(slots, t, LiveTargets(front));
  }

  /** Eight slots cannot hold more than eight live targets: one of them has been evicted. */
  lemma CrowdedMeansEvicted(ops: seq<Op>) returns (t: Target)
    requires AllPossible(ops) && |LiveTargets(ops)| > SLOTS
    ensures t in LiveTargets(ops) && Evicted(ops, t)
  {
    var slots, live := Run(ops), LiveTargets(ops);
    var ts := TargetsOf(slots);
    hide Run, Lookup, FindTarget, Unended, Evicted, LiveTargets, TargetsOf, LastSent, Distinct;
    ElementsBound(ts);
    if forall x :: x in live ==> x in Elements(ts) {
      SubsetSize(live, Elements(ts));
    }
    t :| t in live && t !in Elements(ts);
    LiveTargetsMeans(ops, t);
    TableIsMap(ops, t);
    NotLookedUp(slots, t);
  }

  lemma NotLookedUp(slots: seq<Slot>, t: Target)
    requires t !in Elements(TargetsOf(slots))
    ensures Lookup(slots, t).None?
  {
    hide Elements;
    assert forall i :: 0 <= i < |slots| ==> TargetsOf(slots)[i] != t;
  }

  lemma {:induction false} FirstCrowd(ops: seq<Op>) returns (n: nat)
    requires !NeverCrowded(ops)
    ensures n <= |ops| && |LiveTargets(ops[..n])| > SLOTS
  {
    if |LiveTargets(ops)| > SLOTS {
      n := |ops|;
      assert ops[..n] == ops;
    } else {
      n := FirstCrowd(ops[..|ops| - 1]);
      assert ops[..|ops| - 1][..n] == ops[..n];
    }
  }

  lemma {:induction false} CalmPrefix(ops: seq<Op>, n: nat)
    requires NeverCrowded(ops) && n <= |ops|
    ensures NeverCrowded(ops[..n])
  {
    if n < |ops| {
      CalmPrefix(ops[..|ops| - 1], n);
      assert ops[..|ops| - 1][..n] == ops[..n];
    } else {
      assert ops[..n] == ops;
    }
  }

  /** Whether a target stands evicted after the first n operations. */
  predicate EvictedAt(ops: seq<Op>, n: nat, t: Target)
    requires AllPossible(ops) && n <= |ops|
  {
    Evicted(ops[..n], t)
  }

  /** Over any run, exactly when more than eight targets are live at some moment is some target
      ever evicted: otherwise the table is the whole map throughout. */
  lemma EvictionIffCrowded(ops: seq<Op>)
    requires AllPossible(ops)
    ensures (exists n: nat, t: Target :: n <= |ops| && EvictedAt(ops, n, t)) <==> !NeverCrowded(ops)
  {
    hide Evicted, NeverCrowded, LiveTargets, Run;
    if NeverCrowded(ops) {
      forall n: nat, t: Target | n <= |ops| ensures !EvictedAt(ops, n, t) {
        CalmPrefix(ops, n);
        NoneEvicted(ops[..n], t);
      }
    } else {
      var n := FirstCrowd(ops);
      var t := CrowdedMeansEvicted(ops[..n]);
      assert EvictedAt(ops, n, t);
    }
  }

  /** After any run a refresh re-sends a target only with its latest un-ended wash, and only ten
      seconds or more after its last successful broadcast. */
  lemma RefreshIsPaced(ops: seq<Op>, now: u32, t: Target, p: Payload)
    requires AllPossible(ops) && (t, p) in Resent(Run(ops), now)
    ensures Unended(ops, t) == Some(p) && !Evicted(ops, t)
    ensures LastSent(ops, t).Some? && Elapsed(now, LastSent(ops, t).value) >= 10000
  {
    TableIsMap(ops, t);
    hide Run, Unended, Evicted, LastSent, Elapsed, Lookup;
    ResentIff(Run(ops), now, t, p);
  }

  // ---------------------------------------------------------------------------
  // The class
  // ---------------------------------------------------------------------------

  class WashTable {
    const slots: array<Slot>

    ghost predicate Valid() {
      slots.Length == SLOTS
    }

    constructor ()
      ensures Valid() && fresh(slots) && slots[..] == Empty()
    {
      slots := new Slot[SLOTS](_ => FREE);
    }

    /** The slot of a target, or -1. */
    method FindActiveWashSlot(t: Target) returns (slot: int)
      requires Valid()
      ensures slot == if FindTarget(slots[..], t) < SLOTS then FindTarget(slots[..], t) else -1
    {
      for i := 0 to SLOTS
        invariant forall j :: 0 <= j < i ==> !(slots[j].occupied && slots[j].target == t)
      {
        if slots[i].occupied && slots[i].target == t {
          return i;
        }
      }
      return -1;
    }

    method RecordActiveWash(t: Target, p: Payload, now: u32)
      requires Valid()
      modifies slots
      ensures slots[..] == Recorded(old(slots[..]), t, p, now)
    {
      var slot := FindActiveWashSlot(t);
      if slot < 0 {
        slot := FreeOrOldest();
      }
      slots[slot] := Slot(true, t, p, now);
    }

    /** The first free slot, else the one broadcast longest ago. */
    method FreeOrOldest() returns (slot: int)
      requires Valid()
      ensures slot == if FirstFree(slots[..]) < SLOTS then FirstFree(slots[..]) else Oldest(slots[..], SLOTS)
    {
      var oldest := 0;
      var oldestTs := slots[0].lastBroadcast;
      var i := 0;
      while i < SLOTS
        invariant 0 <= i <= SLOTS && 0 <= oldest < SLOTS && oldestTs == slots[oldest].lastBroadcast
        invariant forall j :: 0 <= j < i ==> slots[j].occupied
        invariant oldest == if i == 0 then 0 else Oldest(slots[..], i)
      {
        if !slots[i].occupied {
          return i;
        }
        if slots[i].lastBroadcast < oldestTs {
          oldest := i;
          oldestTs := slots[i].lastBroadcast;
        }
        i := i + 1;
      }
      return oldest;
    }

    method ClearActiveWash(t: Target)
      requires Valid()
      modifies slots
      ensures slots[..] == Cleared(old(slots[..]), t)
    {
      var slot := FindActiveWashSlot(t);
      if slot < 0 {
        return;
      }
      slots[slot] := slots[slot].(occupied := false);
    }

    method RefreshActiveWashes(now: u32, on: bool, accepts: seq<bool>) returns (sends: seq<(Target, Payload)>)
      requires Valid() && |accepts| == SLOTS
      modifies slots
      ensures slots[..] == Step(old(slots[..]), Refresh(now, on, accepts))
      ensures sends == if on then Resent(old(slots[..]), now) else []
    {
      sends := [];
      if !on {
        return;
      }
      ghost var was := slots[..];
      for i := 0 to SLOTS
        invariant forall j :: i <= j < SLOTS ==> slots[j] == was[j]
        invariant forall j :: 0 <= j < i ==>
                    slots[j] == if Due(was[j], now) && accepts[j] then was[j].(lastBroadcast := now) else was[j]
        invariant sends == Resent(was[..i], now)
      {
        assert was[..i + 1][..i] == was[..i];
        var w := slots[i];
        if !w.occupied { continue; }
        if Elapsed(now, w.lastBroadcast) < REFRESH_MS { continue; }
        sends := sends + [(w.target, w.payload)];
        if accepts[i] {
          slots[i] := w.(lastBroadcast := now);
        }
      }
      assert was[..SLOTS] == was;
    }
  }
}
