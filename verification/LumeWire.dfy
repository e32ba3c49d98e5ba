/** What a light node does with the bytes it hears: which frames get through, to which outputs and
    on to which neighbours. Frames are described by their bytes alone. */
module LumeWire {
  import opened Bytes
  import opened Frame
  import opened LumeMode

  // ---------------------------------------------------------------------------
  // Frames by their bytes
  // ---------------------------------------------------------------------------

  /** A whole frame of a show, within its hop budget. */
  predicate ShowFrame(f: seq<u8>) {
    && |f| >= 9 && f[0] == 0x4E && f[1] == 0x4E && f[2] == 4 && 9 + f[8] <= |f|
    && (f[7] == 0x00 || f[7] == 0x03 || 0x06 <= f[7] <= 0x0C || f[7] == 0xFF)
    && f[6] <= 3
  }

  function SourceOf(f: seq<u8>): (source: u16)
    requires |f| >= 9
  {
    (f[3] as int) + 256 * (f[4] as int)
  }

  function PairIn(f: seq<u8>): (m: Mark)
    requires |f| >= 9
  {
    Mark(SourceOf(f), f[5])
  }

  /** A show frame that carries one light pulse and nothing else. */
  predicate IsPulse(f: seq<u8>) {
    |f| == 22 && f[7] == 0x03 && f[8] == 13
  }

  function PulseAt(f: seq<u8>): (p: Pulse)
    requires |f| == 22
  {
    Pulse(f[9], (f[10] as int) + 256 * (f[11] as int), f[12], f[13], f[14], f[15], f[16], f[17], f[18], f[19], f[20], f[21])
  }

  /** The frame a sender writes for a pulse reads like this. */
  lemma WrittenPulse(h: Header, p: Pulse)
    requires h.messageType == 0x03 && h.payloadLen == 13 && h.hops <= 3
    ensures var f := HeaderBytes(h) + PulseBytes(p);
            && ShowFrame(f) && IsPulse(f) && PulseAt(f) == p
            && SourceOf(f) == h.source && PairIn(f) == Mark(h.source, h.sequence) && f[6] == h.hops
  {
    SixteenBits(h.source);
    SixteenBits(p.targetGroup);
  }

  // ---------------------------------------------------------------------------
  // What gets through
  // ---------------------------------------------------------------------------

  /** The node listens to the frame's source: a director of the right class, and the one it is locked
      to if it is locked. */
  predicate Listens(s: State, f: seq<u8>)
    requires |f| >= 9
  {
    && SourceOf(f) != 0xFFFF && (s.channel == 11 ==> 0x40 <= SourceOf(f) <= 0xFE)
    && (s.tofu.hasLock ==> s.tofu.lockedId == SourceOf(f))
  }

  /** Not one of the last sixteen marked pairs. */
  predicate Unheard(log: seq<Mark>, m: Mark) {
    m.sequence == 0 || forall k :: 0 <= k < |log| && |log| - 16 <= k ==> log[k] != m
  }

  /** A frame heard after a run is the show being alive. */
  predicate Heard(s: State, f: seq<u8>) {
    ShowFrame(f) && Listens(s, f)
  }

  /** And it is news. */
  predicate News(s: State, log: seq<Mark>, f: seq<u8>) {
    Heard(s, f) && Unheard(log, PairIn(f))
  }

  /** An output takes pulses for its class and group, and one that relays to devices with a group
      filter of their own takes those for any group. */
  predicate Reaches(c: Config, b: Binding, p: Pulse) {
    (p.targetClass == 0 || p.targetClass == b.deviceClass) && (p.targetGroup == 0 || p.targetGroup == c.group || b.relay)
  }

  lemma AdmittedFromBytes(s: State, f: seq<u8>, now: u32)
    ensures Admitted(s, f, now).Some? <==> Heard(s, f)
    ensures Heard(s, f) ==> Admitted(s, f, now).value == Header(SourceOf(f), f[5], f[6], f[7], f[8])
  {
    HeaderFromBytes(f);
  }

  lemma UnheardMeans(c: Config, start: u32, steps: seq<Step>, m: Mark)
    ensures Seen(Run(c, start, steps).0.ring, m) <==> !Unheard(MarkLog(c, start, steps), m)
  {
    var s, log := Run(c, start, steps).0, MarkLog(c, start, steps);
    RingRuns(c, start, steps);
    hide Run, MarkLog, RingHolds;
    SeenIsRecent(s.ring, s.head, log, m);
    RingSequenced(s.ring, s.head, log);
    if !Unheard(log, m) {
      var k :| 0 <= k < |log| && |log| - 16 <= k && log[k] == m;
      assert Recent(log, k);
    }
    if Seen(s.ring, m) {
      var k :| Recent(log, k) && log[k] == m;
    }
  }

  lemma RingSequenced(ring: seq<Mark>, head: nat, log: seq<Mark>)
    requires RingHolds(ring, head, log)
    ensures Sequenced(log)
  {
  }

  lemma PulseFromBytes(h: Header, f: seq<u8>)
    requires |f| >= 9 && h == Header(SourceOf(f), f[5], f[6], f[7], f[8]) && 9 + f[8] <= |f|
    ensures PulseIn(h, f) == if IsPulse(f) then Some(PulseAt(f)) else None
  {
  }

  lemma RelayFromBytes(c: Config, h: Header, f: seq<u8>)
    requires |f| >= 9 && h == Header(SourceOf(f), f[5], f[6], f[7], f[8]) && f[6] <= 3
    ensures Relay(c, h, f) == if c.repeats && f[6] < 3 && |f| <= 250 then Some(f[6 := f[6] + 1]) else None
  {
  }

  /** What a news frame leaves queued, from its bytes. */
  lemma QueuesFromBytes(c: Config, s: State, f: seq<u8>, now: u32)
    requires WellFormed(s)
    ensures var s' := AfterRecv(c, s, f, now).0;
            var news := Heard(s, f) && !Seen(s.ring, PairIn(f));
            && s'.pendingLight == (if news && IsPulse(f) then Some(PulseAt(f)) else s.pendingLight)
            && s'.pendingRepeat == (if news && c.repeats && f[6] < 3 && |f| <= 250 then Some(f[6 := f[6] + 1])
                                    else s.pendingRepeat)
            && TakenBy(s, Recv(f, now)) == (if news && IsPulse(f) then [PulseAt(f)] else [])
            && MarkedBy(s, Recv(f, now)) == (if news && f[5] != 0 then [PairIn(f)] else [])
  {
    AdmittedFromBytes(s, f, now);
    hide Admitted, Seen, FanOut, PulseIn, Relay, PulseAt, Admit, Listens;
    if Heard(s, f) {
      var h := Header(SourceOf(f), f[5], f[6], f[7], f[8]);
      PulseFromBytes(h, f);
      RelayFromBytes(c, h, f);
      QueuesOfHandled(c, Alive(s, h, now), h, f);
    }
  }

  lemma QueuesOfHandled(c: Config, s: State, h: Header, f: seq<u8>)
    requires WellFormed(s) && |f| >= HEADER_SIZE && h.hops <= MAX_HOPS
    ensures var s' := Handled(c, s, h, f).0;
            var seen, relay, pulse := Seen(s.ring, MarkOf(h)), Relay(c, h, f), PulseIn(h, f);
            && s'.pendingLight == (if !seen && pulse.Some? then pulse else s.pendingLight)
            && s'.pendingRepeat == (if !seen && relay.Some? then relay else s.pendingRepeat)
  {
    hide FanOut, Relay, PulseIn, Seen;
  }

  // ---------------------------------------------------------------------------
  // From bytes to outputs, after any run
  // ---------------------------------------------------------------------------

  lemma FilteredOne(c: Config, b: Binding, p: Pulse)
    ensures Filtered(c, b, []) == [] && Filtered(c, b, [p]) == if Reaches(c, b, p) then [p] else []
  {
    FilteredFew(c, b, p);
  }

  /** After any run, exactly what a heard frame does: the callback-safe outputs it reaches fire its
      pulse at once and no other output fires, the pulse waits for the rest, its relay copy has its
      hop byte one higher, and its pair is marked. Nothing else is queued. */
  lemma RecvFromBytes(c: Config, start: u32, steps: seq<Step>, f: seq<u8>, now: u32, i: nat)
    requires i < |c.bindings|
    ensures var s, log := Run(c, start, steps).0, MarkLog(c, start, steps);
            var (s', outs) := Do(c, s, Recv(f, now));
            var news, b := News(s, log, f), c.bindings[i];
            && FiredAt(outs, i) == (if news && IsPulse(f) && b.inCallback && Reaches(c, b, PulseAt(f)) then [PulseAt(f)] else [])
            && s'.pendingLight == (if news && IsPulse(f) then Some(PulseAt(f)) else s.pendingLight)
            && s'.pendingRepeat == (if news && c.repeats && f[6] < 3 && |f| <= 250 then Some(f[6 := f[6] + 1])
                                    else s.pendingRepeat)
            && MarkLog(c, start, steps + [Recv(f, now)]) == log + (if news && f[5] != 0 then [PairIn(f)] else [])
            && HeardAt(c, start, steps + [Recv(f, now)]) == (if Heard(s, f) then |steps| else HeardAt(c, start, steps))
  {
    var s := Run(c, start, steps).0;
    assert (steps + [Recv(f, now)])[..|steps|] == steps;
    QueuesFromBytes(c, s, f, now);
    AdmittedFromBytes(s, f, now);
    RecvFires(c, s, f, now, i);
    if |f| >= 9 {
      UnheardMeans(c, start, steps, PairIn(f));
    }
    hide Run, AfterRecv, Admitted, Seen, Unheard, Listens, FiredAt, Filtered, Reaches, PulseAt, TakenBy, MarkedBy;
    if IsPulse(f) {
      FilteredOne(c, c.bindings[i], PulseAt(f));
    }
    FilteredNone(c, c.bindings[i]);
    LogsGrow(c, start, steps, Recv(f, now));
  }

  lemma LogsGrow(c: Config, start: u32, steps: seq<Step>, step: Step)
    ensures MarkLog(c, start, steps + [step]) == MarkLog(c, start, steps) + MarkedBy(Run(c, start, steps).0, step)
    ensures HeardAt(c, start, steps + [step])
            == if step.Recv? && Admitted(Run(c, start, steps).0, step.frame, step.now).Some? then |steps|
               else HeardAt(c, start, steps)
  {
    assert (steps + [step])[..|steps|] == steps;
  }

  /** The frames sent. */
  function SentIn(outs: seq<Out>): (fs: seq<seq<u8>>) {
    if |outs| == 0 then []
    else SentIn(outs[..|outs| - 1]) + if outs[|outs| - 1].Send? then [outs[|outs| - 1].frame] else []
  }

  lemma {:induction false} SentInConcat(a: seq<Out>, b: seq<Out>)
    ensures SentIn(a + b) == SentIn(a) + SentIn(b)
  {
    if |b| == 0 {
      assert a + b == a;
    } else {
      SentInConcat(a, b[..|b| - 1]);
      assert (a + b)[..|a + b| - 1] == a + b[..|b| - 1];
    }
  }

  lemma {:induction false} SentInNone(outs: seq<Out>)
    requires forall k :: 0 <= k < |outs| ==> !outs[k].Send?
    ensures SentIn(outs) == []
  {
    if |outs| > 0 {
      SentInNone(outs[..|outs| - 1]);
    }
  }

  lemma {:induction false} FanOutFiresOnly(c: Config, p: Pulse, inCallback: bool, n: nat)
    requires n <= |c.bindings|
    ensures forall k :: 0 <= k < |FanOut(c, p, inCallback, n)| ==> FanOut(c, p, inCallback, n)[k].Fire?
  {
    if n > 0 {
      FanOutFiresOnly(c, p, inCallback, n - 1);
    }
  }

  lemma DrainSent(c: Config, s: State)
    requires WellFormed(s)
    ensures SentIn(Drain(c, s).1) == if s.pendingRepeat.Some? then [s.pendingRepeat.value] else []
    ensures Drain(c, s).0.pendingLight == None && Drain(c, s).0.pendingRepeat == None
  {
    hide FanOut, SentIn;
    var light, sends := DrainLight(c, s).1, DrainRelay(s).1;
    if s.pendingLight.Some? {
      FanOutFiresOnly(c, s.pendingLight.value, false, |c.bindings|);
    }
    SentInNone(light);
    SentInConcat(light, sends);
    SentInNone([]);
    if s.pendingRepeat.Some? {
      OneSent(s.pendingRepeat.value);
    }
  }

  lemma OneSent(f: seq<u8>)
    ensures SentIn([Send(f)]) == [f]
  {
    assert [Send(f)][..0] == [];
  }

  lemma TickSent(c: Config, s: State, now: u32)
    requires WellFormed(s)
    ensures var (s', outs) := AfterTick(c, s, now);
            && SentIn(outs) == (if s.pendingRepeat.Some? then [s.pendingRepeat.value] else [])
            && s'.pendingLight == None && s'.pendingRepeat == None
  {
    DrainSent(c, s);
    hide Drain, SentIn, Fallback, Scan, Expire, Age;
    var (s1, drained) := Drain(c, s);
    var age := Age(now, s1.lastRx);
    var (s2, edges) := Fallback(s1, age);
    EdgesSendNothing(c, s1, age, now);
    SentInThree(drained, edges, Scan(c, s2, age, now).1);
  }

  /** Exactly what a tick fires and sends. */
  lemma TickFromQueues(c: Config, s: State, now: u32, i: nat)
    requires WellFormed(s) && i < |c.bindings|
    ensures var (s', outs) := Do(c, s, Tick(now));
            var b := c.bindings[i];
            && FiredAt(outs, i) == (if s.pendingLight.Some? && !b.inCallback && Reaches(c, b, s.pendingLight.value)
                                    then [s.pendingLight.value] else [])
            && SentIn(outs) == (if s.pendingRepeat.Some? then [s.pendingRepeat.value] else [])
            && s'.pendingLight == None && s'.pendingRepeat == None
  {
    hide FiredAt, Filtered, Reaches, SentIn, AfterTick;
    TickFires(c, s, now, i);
    TickSent(c, s, now);
    if s.pendingLight.Some? {
      FilteredOne(c, c.bindings[i], s.pendingLight.value);
    }
    FilteredNone(c, c.bindings[i]);
  }

  lemma EdgesSendNothing(c: Config, s: State, age: nat, now: u32)
    requires WellFormed(s)
    ensures var (s', edges) := Fallback(s, age);
            var (s'', tuned) := Scan(c, s', age, now);
            && SentIn(edges) == [] && SentIn(tuned) == []
            && s''.pendingLight == s.pendingLight && s''.pendingRepeat == s.pendingRepeat
  {
    hide Elapsed, NextChannel, SentIn;
    SentInNone(Fallback(s, age).1);
    SentInNone(Scan(c, Fallback(s, age).0, age, now).1);
  }

  lemma SentInThree(a: seq<Out>, b: seq<Out>, d: seq<Out>)
    requires SentIn(b) == [] && SentIn(d) == []
    ensures SentIn(a + b + d) == SentIn(a)
  {
    hide SentIn;
    SentInConcat(a, b);
    SentInConcat(a + b, d);
  }

  // ---------------------------------------------------------------------------
  // What the node tells of itself
  // ---------------------------------------------------------------------------

  /** A step at which a frame is heard. */
  predicate Hears(c: Config, start: u32, front: seq<Step>, step: Step) {
    step.Recv? && Heard(Run(c, start, front).0, step.frame)
  }

  /** A step at which a frame is heard for the first time, or with the signal lost. */
  predicate Finds(c: Config, start: u32, front: seq<Step>, step: Step) {
    Hears(c, start, front, step) && (HeardAt(c, start, front) < 0 || SilentSince(front, HeardAt(c, start, front), 3000))
  }

  /** How many frames were heard. */
  function Tally(c: Config, start: u32, steps: seq<Step>): (n: nat) {
    if |steps| == 0 then 0
    else
      var front := steps[..|steps| - 1];
      Tally(c, start, front) + if Hears(c, start, front, steps[|steps| - 1]) then 1 else 0
  }

  /** When the signal was last found, first or again; 0 if never. */
  function FoundAt(c: Config, start: u32, steps: seq<Step>): (time: u32) {
    if |steps| == 0 then 0
    else
      var front, last := steps[..|steps| - 1], steps[|steps| - 1];
      if Finds(c, start, front, last) then last.now else FoundAt(c, start, front)
  }

  /** Whether a lost signal was found again since the last tick. */
  predicate Recovered(c: Config, start: u32, steps: seq<Step>) {
    |steps| > 0 &&
    var front, last := steps[..|steps| - 1], steps[|steps| - 1];
    last.Recv? && (Recovered(c, start, front)
                   || (Hears(c, start, front, last) && SilentSince(front, HeardAt(c, start, front), 3000)))
  }

  lemma HandledKeepsRest(c: Config, s: State, h: Header, f: seq<u8>)
    requires WellFormed(s) && |f| >= HEADER_SIZE && h.hops <= MAX_HOPS
    ensures var s' := Handled(c, s, h, f).0;
            s'.lockAcquired == s.lockAcquired && s'.lastType == s.lastType && s'.repaint == s.repaint && s'.relayed == s.relayed
  {
    hide FanOut, Relay, PulseIn, Seen, Marked;
    MarkedKeepsRest(s, MarkOf(h));
  }

  lemma MarkedKeepsRest(s: State, m: Mark)
    requires WellFormed(s)
    ensures var s' := Marked(s, m);
            s'.lockAcquired == s.lockAcquired && s'.lastType == s.lastType && s'.repaint == s.repaint && s'.relayed == s.relayed
  {
  }

  lemma RecvTells(c: Config, s: State, f: seq<u8>, now: u32)
    requires WellFormed(s)
    ensures var s' := AfterRecv(c, s, f, now).0;
            && s'.relayed == s.relayed
            && (!Heard(s, f) ==> s' == s)
            && (Heard(s, f) ==>
                  && s'.rx == s.rx + 1 && s'.lastRx == now && s'.lastSource == SourceOf(f) && s'.lastType == f[7]
                  && s'.lockAcquired == (if s.rx == 0 || s.noSignal then now else s.lockAcquired)
                  && s'.repaint == (s.repaint || s.noSignal))
  {
    AdmittedFromBytes(s, f, now);
    hide Admitted, Handled, DecodeHeader, Admit, Listens, ShowFrame;
    if Heard(s, f) {
      var h := Header(SourceOf(f), f[5], f[6], f[7], f[8]);
      HandledKeeps(c, Alive(s, h, now), h, f);
      HandledKeepsRest(c, Alive(s, h, now), h, f);
    }
  }

  lemma TickTells(c: Config, s: State, now: u32)
    requires WellFormed(s)
    ensures var s' := AfterTick(c, s, now).0;
            && s'.rx == s.rx && s'.lastRx == s.lastRx && s'.lastSource == s.lastSource && s'.lastType == s.lastType
            && s'.lockAcquired == s.lockAcquired && !s'.repaint
            && s'.relayed == s.relayed + |SentBy(s, Tick(now))|
  {
    hide FanOut, Expire, Age, Elapsed, NextChannel;
  }

  /** Over every run: the count of frames heard, source, type and time of the last one, when the signal
      was last found, whether a repaint is owed for finding it again, and the count of relays. */
  lemma {:induction false} LivenessRuns(c: Config, start: u32, steps: seq<Step>)
    ensures var s, k := Run(c, start, steps).0, HeardAt(c, start, steps);
            && s.rx == Tally(c, start, steps) && s.lockAcquired == FoundAt(c, start, steps)
            && s.repaint == Recovered(c, start, steps) && s.relayed == |SendLog(c, start, steps)|
            && (if k < 0 then s.lastRx == 0 && s.lastSource == 0 && s.lastType == 0xFF
                else |steps[k].frame| >= 9 && s.lastRx == steps[k].now && s.lastSource == SourceOf(steps[k].frame)
                     && s.lastType == steps[k].frame[7])
  {
    if |steps| > 0 {
      var front, last := steps[..|steps| - 1], steps[|steps| - 1];
      LivenessRuns(c, start, front);
      HeardRuns(c, start, front);
      NoSignalIff(c, start, front);
      hide AfterRecv, AfterTick, Admitted, Listens, ShowFrame, SilentSince;
      var s := Run(c, start, front).0;
      match last {
        case Recv(f, now) =>
          RecvTells(c, s, f, now);
          AdmittedFromBytes(s, f, now);
          ShowIsWhole(f);
        case Tick(now) => TickTells(c, s, now);
      }
    }
  }

  lemma ShowIsWhole(f: seq<u8>)
    ensures ShowFrame(f) ==> |f| >= 9
  {
  }

  // ---------------------------------------------------------------------------
  // The source lock
  // ---------------------------------------------------------------------------

  /** A heard frame locks the node to its source, afresh or again; any other leaves the lock alone. */
  lemma HearingLocks(c: Config, s: State, f: seq<u8>, now: u32)
    requires WellFormed(s)
    ensures AfterRecv(c, s, f, now).0.tofu == if Heard(s, f) then Tofu(true, SourceOf(f), now) else s.tofu
  {
    AdmittedFromBytes(s, f, now);
    hide Admitted, Handled, DecodeHeader;
    if Heard(s, f) {
      var h := Header(SourceOf(f), f[5], f[6], f[7], f[8]);
      HandledKeeps(c, Alive(s, h, now), h, f);
    }
  }

  lemma TickLock(c: Config, s: State, now: u32)
    requires WellFormed(s)
    ensures var (s', outs) := AfterTick(c, s, now);
            var notices := s.rx > 0 && !s.noSignal && Age(now, s.lastRx) > 3000;
            && (s'.tofu.hasLock <==> s.tofu.hasLock && Tunes(outs) == [] && (notices || Age(now, s.tofu.lastFrame) < 10000))
            && (s'.tofu.hasLock ==> s'.tofu == s.tofu)
  {
    TickTunes(c, s, now);
    hide FanOut, Tunes, Elapsed, NextChannel;
  }

  /** Over every run a lock lasts exactly until a retune, or until a tick ten or more seconds after the
      last frame heard; only the tick that finds the signal lost leaves it. */
  lemma LockDropsIff(c: Config, start: u32, steps: seq<Step>, now: u32)
    ensures var s, k := Run(c, start, steps).0, HeardAt(c, start, steps);
            var (s', outs) := Do(c, s, Tick(now));
            && (s.tofu.hasLock ==> k >= 0 && s.tofu.lastFrame == steps[k].now)
            && (s'.tofu.hasLock ==> s'.tofu == s.tofu)
            && (s'.tofu.hasLock <==>
                  && s.tofu.hasLock && Tunes(outs) == []
                  && (now - steps[k].now < 10000 || (now - steps[k].now > 3000 && !SilentSince(steps, k, 3000))))
  {
    hide Run, AfterTick, Tunes, HeardAt, SilentSince;
    HeardRuns(c, start, steps);
    NoSignalIff(c, start, steps);
    LockRuns(c, start, steps);
    TickLock(c, Run(c, start, steps).0, now);
  }

  /** And it names the source of that last frame, by its bytes. */
  lemma {:induction false} LockNames(c: Config, start: u32, steps: seq<Step>)
    ensures var s, k := Run(c, start, steps).0, HeardAt(c, start, steps);
            s.tofu.hasLock ==> k >= 0 && |steps[k].frame| >= 9 && s.tofu == Tofu(true, SourceOf(steps[k].frame), steps[k].now)
  {
    if |steps| > 0 {
      var front, last := steps[..|steps| - 1], steps[|steps| - 1];
      LockNames(c, start, front);
      hide AfterRecv, AfterTick, Admitted, Listens;
      var s := Run(c, start, front).0;
      match last {
        case Recv(f, now) =>
          HearingLocks(c, s, f, now);
          AdmittedFromBytes(s, f, now);
        case Tick(now) => TickLock(c, s, now);
      }
    }
  }

  // ---------------------------------------------------------------------------
  // A pulse gets through
  // ---------------------------------------------------------------------------

  /** Steps that bring no light pulse and do not drain the queues. */
  predicate NoPulse(steps: seq<Step>) {
    forall k :: 0 <= k < |steps| ==> steps[k].Recv? && !IsPulse(steps[k].frame)
  }

  lemma {:induction false} PulseWaits(c: Config, s: State, between: seq<Step>)
    requires WellFormed(s) && NoPulse(between)
    ensures RunFrom(c, s, between).pendingLight == s.pendingLight
  {
    if |between| > 0 {
      var front, last := between[..|between| - 1], between[|between| - 1];
      PulseWaits(c, s, front);
      QueuesFromBytes(c, RunFrom(c, s, front), last.frame, last.now);
    }
  }

  /** After any run, a pulse written within its hop budget by a director the node listens to, whose
      pair is not among the last sixteen marked, gets through. Every callback-safe output it is for
      fires exactly it at once, every other output it is for fires exactly it at the next tick if no
      further pulse comes first, and no other output fires. If the next step is the tick, that sends
      the frame with its hop byte one higher exactly when the node repeats and the frame has hops
      left, and otherwise what was waiting. */
  lemma PulseGetsThrough(c: Config, start: u32, steps: seq<Step>, h: Header, p: Pulse, now: u32,
                         between: seq<Step>, later: u32, i: nat)
    requires h.messageType == 0x03 && h.payloadLen == 13 && h.hops <= 3 && i < |c.bindings| && NoPulse(between)
    requires var s := Run(c, start, steps).0;
             && h.source != 0xFFFF && (s.channel == 11 ==> 0x40 <= h.source <= 0xFE)
             && (s.tofu.hasLock ==> s.tofu.lockedId == h.source)
             && Unheard(MarkLog(c, start, steps), Mark(h.source, h.sequence))
    ensures var s, f, b := Run(c, start, steps).0, HeaderBytes(h) + PulseBytes(p), c.bindings[i];
            var (s1, atOnce) := Do(c, s, Recv(f, now));
            var (_, atTick) := Do(c, RunFrom(c, s1, between), Tick(later));
            && FiredAt(atOnce, i) == (if b.inCallback && Reaches(c, b, p) then [p] else [])
            && FiredAt(atTick, i) == (if !b.inCallback && Reaches(c, b, p) then [p] else [])
            && (between == [] ==>
                  SentIn(atTick) == if c.repeats && h.hops < 3 then [f[6 := h.hops + 1]]
                                    else if s.pendingRepeat.Some? then [s.pendingRepeat.value] else [])
  {
    hide Run, RunFrom, Do, Unheard, Reaches, FiredAt, SentIn, HeaderBytes, PulseBytes, PulseAt, MarkLog, ShowFrame;
    WrittenPulse(h, p);
    var f := HeaderBytes(h) + PulseBytes(p);
    assert News(Run(c, start, steps).0, MarkLog(c, start, steps), f);
    hide News, IsPulse;
    RecvFromBytes(c, start, steps, f, now, i);
    var s1 := Do(c, Run(c, start, steps).0, Recv(f, now)).0;
    PulseWaits(c, s1, between);
    TickFromQueues(c, RunFrom(c, s1, between), later, i);
    RunOnFromNothing(c, s1);
  }

  lemma RunOnFromNothing(c: Config, s: State)
    requires WellFormed(s)
    ensures RunFrom(c, s, []) == s
  {
  }
}
