/** The light node's receive protocol: admission, duplicate suppression, inline and deferred
    dispatch of pulses, the hop-limited relay and the silence fallback. The radio callback and
    the main-loop tick are the two atomic steps. */
module LumeMode {
  import opened Bytes
  import opened Counting
  import opened Frame

  // ---------------------------------------------------------------------------
  // Trust on first use
  // ---------------------------------------------------------------------------

  const BROADCAST: u16 := 0xFFFF
  const LOCK_TIMEOUT: nat := 10000

  /** Time since an earlier stamp; a stamp that is ahead of the clock counts as now. */
  function Age(now: u32, since: u32): (age: nat) {
    if now >= since then now - since else 0
  }

  datatype Tofu = Tofu(hasLock: bool, lockedId: u16, lastFrame: u32)

  const UNLOCKED: Tofu := Tofu(false, 0, 0)

  /** Whether a source may ever be locked to on a channel. */
  predicate Eligible(source: u16, channel: u8) {
    source != BROADCAST && (channel == 11 ==> 0x40 <= source <= 0xFE)
  }

  function Admit(t: Tofu, source: u16, channel: u8, now: u32): (r: (bool, Tofu)) {
    if !Eligible(source, channel) then (false, t)
    else if !t.hasLock then (true, Tofu(true, source, now))
    else if source != t.lockedId then (false, t)
    else (true, t.(lastFrame := now))
  }

  function Expire(t: Tofu, now: u32): (t': Tofu) {
    if t.hasLock && Age(now, t.lastFrame) >= LOCK_TIMEOUT then UNLOCKED else t
  }

  // ---------------------------------------------------------------------------
  // State
  // ---------------------------------------------------------------------------

  const RING: nat := 16
  const NO_SIGNAL_MS: nat := 3000
  const FALLBACK_ENTER_MS: nat := 10000
  const FALLBACK_FADE_MS: nat := 40000
  const DWELL_MS: nat := 2000
  const RESCAN_MS: nat := 10000
  const REPEAT_BUF: nat := 250

  datatype Mark = Mark(source: u16, sequence: u8)

  const NO_MARK: Mark := Mark(0, 0)

  /** An active output: its device class, whether it relays to devices that filter by group
      themselves, and whether it may draw from the radio callback. */
  datatype Binding = Binding(deviceClass: u8, relay: bool, inCallback: bool)

  datatype Config = Config(channelPref: u8, repeats: bool, group: u8, bindings: seq<Binding>)

  datatype State = State(
    rx: nat, lastRx: u32, lastSource: u16, lastType: u8, lockAcquired: u32,
    noSignal: bool, fallbackActive: bool, fallbackFaded: bool, repaint: bool,
    tofu: Tofu, ring: seq<Mark>, head: nat,
    pendingLight: Option<Pulse>, pendingRepeat: Option<seq<u8>>, relayed: nat,
    channel: u8, lastSwitch: u32)

  /** What a step does to the outside. */
  datatype Out =
    | Fire(binding: nat, targetClass: u8, targetGroup: u8, pulse: Pulse)
    | Send(frame: seq<u8>)
    | FallbackStart
    | FallbackFade
    | FallbackRecovery
    | Tune(channel: u8)

  predicate WellFormed(s: State) {
    |s.ring| == RING && s.head < RING
  }

  /** A fresh session. */
  function Enter(c: Config, now: u32): (s: State)
    ensures WellFormed(s)
  {
    State(0, 0, 0, 0xFF, 0, false, false, false, false, UNLOCKED, seq(RING, i => NO_MARK), 0, None, None, 0,
          if c.channelPref == 0 then 11 else c.channelPref, now)
  }

  // ---------------------------------------------------------------------------
  // Fan-out
  // ---------------------------------------------------------------------------

  /** The class and group filter. */
  predicate Passes(c: Config, b: Binding, p: Pulse) {
    && (p.targetClass == 0 || p.targetClass == b.deviceClass)
    && (b.relay || p.targetGroup == 0 || p.targetGroup == c.group)
  }

  /** The bindings among the first n that one of the two fan-outs reaches, in order. */
  function FanOut(c: Config, p: Pulse, inCallback: bool, n: nat): (outs: seq<Out>)
    requires n <= |c.bindings|
  {
    if n == 0 then []
    else
      var b := c.bindings[n - 1];
      FanOut(c, p, inCallback, n - 1) +
      if b.inCallback == inCallback && Passes(c, b, p)
      then [Fire(n - 1, p.targetClass, p.targetGroup % 256, p)] else []
  }

  /** The pulses that reach binding i, in order. */
  function FiredAt(outs: seq<Out>, i: nat): (ps: seq<Pulse>) {
    if |outs| == 0 then []
    else
      FiredAt(outs[..|outs| - 1], i) +
      var o := outs[|outs| - 1];
      if o.Fire? && o.binding == i then [o.pulse] else []
  }

  lemma FiredAtSnoc(outs: seq<Out>, o: Out, i: nat)
    ensures FiredAt(outs + [o], i) == FiredAt(outs, i) + if o.Fire? && o.binding == i then [o.pulse] else []
  {
    assert (outs + [o])[..|outs|] == outs;
  }

  lemma NothingFired(i: nat)
    ensures FiredAt([], i) == []
  {
  }

  lemma {:induction false} FiredAtConcat(a: seq<Out>, b: seq<Out>, i: nat)
    ensures FiredAt(a + b, i) == FiredAt(a, i) + FiredAt(b, i)
  {
    hide FiredAt;
    if |b| == 0 {
      NothingFired(i);
      assert a + b == a;
    } else {
      var front, last := b[..|b| - 1], b[|b| - 1];
      FiredAtConcat(a, front, i);
      FiredAtSnoc(a + front, last, i);
      FiredAtSnoc(front, last, i);
      assert front + [last] == b && (a + front) + [last] == a + b;
    }
  }

  lemma FiredAtFew(o: Out, i: nat)
    ensures FiredAt([], i) == []
    ensures FiredAt([o], i) == if o.Fire? && o.binding == i then [o.pulse] else []
  {
    assert [o][..0] == [];
  }

  /** One fan-out reaches a binding once if it is on its side and passes the filter, else not. */
  lemma {:induction false} FanOutReaches(c: Config, p: Pulse, inCallback: bool, n: nat, i: nat)
    requires n <= |c.bindings|
    ensures FiredAt(FanOut(c, p, inCallback, n), i)
            == if i < n && c.bindings[i].inCallback == inCallback && Passes(c, c.bindings[i], p) then [p] else []
  {
    hide Passes, FiredAt;
    FiredAtFew(Tune(0), i);
    if n > 0 {
      FiredAtFew(Fire(n - 1, p.targetClass, p.targetGroup % 256, p), i);
      FanOutReaches(c, p, inCallback, n - 1, i);
      var before := FanOut(c, p, inCallback, n - 1);
      FiredAtConcat(before, [Fire(n - 1, p.targetClass, p.targetGroup % 256, p)], i);
      assert before + [] == before;
    }
  }

  /** The two fan-outs of a pulse reach disjoint sets whose union is exactly the active bindings
      that pass the filter, each once. */
  lemma FanOutsPartition(c: Config, p: Pulse, i: nat)
    requires i < |c.bindings|
    ensures var inline := FiredAt(FanOut(c, p, true, |c.bindings|), i);
            var deferred := FiredAt(FanOut(c, p, false, |c.bindings|), i);
            && (inline == [] || deferred == [])
            && inline + deferred == if Passes(c, c.bindings[i], p) then [p] else []
  {
    FanOutReaches(c, p, true, |c.bindings|, i);
    FanOutReaches(c, p, false, |c.bindings|, i);
  }

  /** The group handed to a local binding is the one on the wire; only a relay binding can be
      handed a shortened one, and is exactly when the group does not fit a byte. */
  lemma {:induction false} Narrowing(c: Config, p: Pulse, inCallback: bool, n: nat, k: nat)
    requires n <= |c.bindings| && k < |FanOut(c, p, inCallback, n)|
    ensures var o := FanOut(c, p, inCallback, n)[k];
            && o.Fire? && o.binding < n && o.pulse == p && o.targetClass == p.targetClass
            && (!c.bindings[o.binding].relay ==> o.targetGroup == p.targetGroup)
            && (o.targetGroup == p.targetGroup <==> p.targetGroup < 256)
  {
    if k < |FanOut(c, p, inCallback, n - 1)| {
      Narrowing(c, p, inCallback, n - 1, k);
    }
  }

  // ---------------------------------------------------------------------------
  // The radio callback
  // ---------------------------------------------------------------------------

  predicate Seen(ring: seq<Mark>, m: Mark) {
    m.sequence != 0 && m in ring
  }

  /** Management traffic, which never reaches the show. */
  predicate Management(messageType: u8) {
    messageType == REPEATER_HEARTBEAT || messageType == UID_ANNOUNCE
    || messageType == CONFIG_ACK || messageType == CONFIG_WRITE
  }

  /** The header of a frame that counts as the show being alive. */
  function Admitted(s: State, frame: seq<u8>, now: u32): (h: Option<Header>)
    ensures h.Some? ==> |frame| >= HEADER_SIZE && h.value.hops <= MAX_HOPS
  {
    match DecodeHeader(frame)
    case Fail(_) => None
    case Ok(h) =>
      if Management(h.messageType) || h.hops > MAX_HOPS || !Admit(s.tofu, h.source, s.channel, now).0 then None
      else Some(h)
  }

  function MarkOf(h: Header): (m: Mark) {
    Mark(h.source, h.sequence)
  }

  /** Liveness, which duplicates refresh too. */
  function Refreshed(s: State, h: Header, now: u32): (s': State) {
    s.(rx := s.rx + 1, lastRx := now, noSignal := false, fallbackActive := false,
       fallbackFaded := if s.fallbackActive then false else s.fallbackFaded,
       lockAcquired := if s.noSignal || s.rx == 0 then now else s.lockAcquired,
       repaint := s.repaint || s.noSignal,
       lastSource := h.source, lastType := h.messageType)
  }

  function Alive(s: State, h: Header, now: u32): (s': State) {
    Refreshed(s, h, now).(tofu := Admit(s.tofu, h.source, s.channel, now).1)
  }

  function Marked(s: State, m: Mark): (s': State)
    requires WellFormed(s)
    ensures WellFormed(s')
  {
    if m.sequence == 0 then s else s.(ring := s.ring[s.head := m], head := (s.head + 1) % RING)
  }

  /** The frame to relay for an admitted one. */
  function Relay(c: Config, h: Header, frame: seq<u8>): (r: Option<seq<u8>>)
    requires |frame| >= HEADER_SIZE && h.hops <= MAX_HOPS
  {
    if c.repeats && h.hops < MAX_HOPS && |frame| <= REPEAT_BUF then Some(frame[HOP_OFFSET := h.hops + 1]) else None
  }

  function PulseIn(h: Header, frame: seq<u8>): (p: Option<Pulse>)
    requires |frame| >= HEADER_SIZE
  {
    if h.messageType == LIGHT_PULSE && |frame| == HEADER_SIZE + PULSE_LEN then
      match DecodePulse(h, frame[HEADER_SIZE..])
      case Ok(p) => Some(p)
      case Fail(_) => None
    else None
  }

  /** What follows liveness: a duplicate ends here; a unique frame is marked, queued for relay and
      dispatched. */
  function Handled(c: Config, s: State, h: Header, frame: seq<u8>): (r: (State, seq<Out>))
    requires WellFormed(s) && |frame| >= HEADER_SIZE && h.hops <= MAX_HOPS
    ensures WellFormed(r.0)
  {
    if Seen(s.ring, MarkOf(h)) then (s, [])
    else
      var s1 := Marked(s, MarkOf(h));
      var relay, pulse := Relay(c, h, frame), PulseIn(h, frame);
      var s2 := if relay.Some? then s1.(pendingRepeat := relay) else s1;
      (if pulse.Some? then s2.(pendingLight := pulse) else s2,
       if pulse.Some? then FanOut(c, pulse.value, true, |c.bindings|) else [])
  }

  /** The same in all that duplicate suppression, relay and dispatch leave alone. */
  predicate SameShow(s: State, s': State) {
    && s'.rx == s.rx && s'.lastRx == s.lastRx && s'.lastSource == s.lastSource && s'.noSignal == s.noSignal
    && s'.fallbackActive == s.fallbackActive && s'.fallbackFaded == s.fallbackFaded
    && s'.tofu == s.tofu && s'.channel == s.channel && s'.lastSwitch == s.lastSwitch
  }

  lemma MarkedKeeps(s: State, m: Mark)
    requires WellFormed(s)
    ensures SameShow(s, Marked(s, m))
  {
  }

  lemma HandledKeeps(c: Config, s: State, h: Header, frame: seq<u8>)
    requires WellFormed(s) && |frame| >= HEADER_SIZE && h.hops <= MAX_HOPS
    ensures SameShow(s, Handled(c, s, h, frame).0)
  {
    hide FanOut, Relay, PulseIn, Seen, Marked;
    MarkedKeeps(s, MarkOf(h));
  }

  function AfterRecv(c: Config, s: State, frame: seq<u8>, now: u32): (r: (State, seq<Out>))
    requires WellFormed(s)
    ensures WellFormed(r.0)
  {
    match Admitted(s, frame, now)
    case None => (s, [])
    case Some(h) =>
      var (s', outs) := Handled(c, Alive(s, h, now), h, frame);
      (s', (if s.fallbackActive then [FallbackRecovery] else []) + outs)
  }

  // ---------------------------------------------------------------------------
  // The main loop
  // ---------------------------------------------------------------------------

  /** The channel after a given one in the scan order 11, 1, 6; an unknown one counts as 11. */
  function NextChannel(channel: u8): (next: u8) {
    if channel == 1 then 6 else if channel == 6 then 11 else 1
  }

  /** Hand the queued pulse to the bindings that draw from the main loop. */
  function DrainLight(c: Config, s: State): (r: (State, seq<Out>))
    requires WellFormed(s)
    ensures WellFormed(r.0)
  {
    (s.(pendingLight := None),
     if s.pendingLight.Some? then FanOut(c, s.pendingLight.value, false, |c.bindings|) else [])
  }

  /** Send the queued relay copy. */
  function DrainRelay(s: State): (r: (State, seq<Out>))
    requires WellFormed(s)
    ensures WellFormed(r.0)
  {
    (s.(repaint := false, pendingRepeat := None, relayed := s.relayed + if s.pendingRepeat.Some? then 1 else 0),
     if s.pendingRepeat.Some? then [Send(s.pendingRepeat.value)] else [])
  }

  /** Drain what the callback queued. */
  function Drain(c: Config, s: State): (r: (State, seq<Out>))
    requires WellFormed(s)
    ensures WellFormed(r.0)
  {
    var (s1, light) := DrainLight(c, s);
    var (s2, sends) := DrainRelay(s1);
    (s2, light + sends)
  }

  /** The two fallback edges. */
  function Fallback(s: State, age: nat): (r: (State, seq<Out>))
    requires WellFormed(s)
    ensures WellFormed(r.0)
  {
    if s.rx == 0 then (s, [])
    else
      var start := !s.fallbackActive && age > FALLBACK_ENTER_MS;
      var s1 := s.(fallbackActive := s.fallbackActive || start);
      var fade := s1.fallbackActive && !s1.fallbackFaded && age > FALLBACK_FADE_MS;
      (s1.(fallbackFaded := s1.fallbackFaded || fade),
       (if start then [FallbackStart] else []) + (if fade then [FallbackFade] else []))
  }

  /** Channel scanning, while nothing was ever heard or after a long silence. */
  function Scan(c: Config, s: State, age: nat, now: u32): (r: (State, seq<Out>))
    requires WellFormed(s)
    ensures WellFormed(r.0)
  {
    var scanning := c.channelPref == 0 && (s.rx == 0 || age > RESCAN_MS);
    if scanning && Elapsed(now, s.lastSwitch) >= DWELL_MS then
      (s.(channel := NextChannel(s.channel), lastSwitch := now, tofu := UNLOCKED), [Tune(NextChannel(s.channel))])
    else (s, [])
  }

  function AfterTick(c: Config, s: State, now: u32): (r: (State, seq<Out>))
    requires WellFormed(s)
    ensures WellFormed(r.0)
  {
    var (s1, drained) := Drain(c, s);
    var age := Age(now, s1.lastRx);
    if s1.rx > 0 && !s1.noSignal && age > NO_SIGNAL_MS then (s1.(noSignal := true, lastSwitch := now), drained)
    else
      var (s2, edges) := Fallback(s1, age);
      var (s3, tuned) := Scan(c, s2, age, now);
      (s3.(tofu := Expire(s3.tofu, now)), drained + edges + tuned)
  }

  // ---------------------------------------------------------------------------
  // Runs
  // ---------------------------------------------------------------------------

  datatype Step = Recv(frame: seq<u8>, now: u32) | Tick(now: u32)

  function Do(c: Config, s: State, step: Step): (r: (State, seq<Out>))
    requires WellFormed(s)
    ensures WellFormed(r.0)
  {
    match step
    case Recv(frame, now) => AfterRecv(c, s, frame, now)
    case Tick(now) => AfterTick(c, s, now)
  }

  function Run(c: Config, start: u32, steps: seq<Step>): (r: (State, seq<Out>))
    ensures WellFormed(r.0)
  {
    if |steps| == 0 then (Enter(c, start), [])
    else
      var (s, outs) := Run(c, start, steps[..|steps| - 1]);
      var (s', more) := Do(c, s, steps[|steps| - 1]);
      (s', outs + more)
  }

  // ---------------------------------------------------------------------------
  // Silence fallback
  // ---------------------------------------------------------------------------

  predicate FallbackOrder(s: State) {
    && (s.fallbackFaded ==> s.fallbackActive)
    && (s.fallbackActive ==> s.noSignal)
    && (s.noSignal ==> s.rx > 0)
  }

  lemma FallbackOrderKept(c: Config, s: State, step: Step)
    requires WellFormed(s) && FallbackOrder(s)
    ensures FallbackOrder(Do(c, s, step).0)
  {
    hide FanOut, Admitted, Relay, PulseIn, Admit, Expire, Seen;
  }

  datatype Phase = Idle | Washing | Faded | Broken

  /** The automaton of the words (start fade? recovery)* and their prefixes. */
  function After(phase: Phase, o: Out): (phase': Phase) {
    match o
    case FallbackStart => if phase == Idle then Washing else Broken
    case FallbackFade => if phase == Washing then Faded else Broken
    case FallbackRecovery => if phase == Washing || phase == Faded then Idle else Broken
    case _ => phase
  }

  function Word(phase: Phase, outs: seq<Out>): (phase': Phase) {
    if |outs| == 0 then phase else After(Word(phase, outs[..|outs| - 1]), outs[|outs| - 1])
  }

  function PhaseOf(s: State): (phase: Phase) {
    if !s.fallbackActive then Idle else if !s.fallbackFaded then Washing else Faded
  }

  lemma {:induction false} WordConcat(phase: Phase, a: seq<Out>, b: seq<Out>)
    ensures Word(phase, a + b) == Word(Word(phase, a), b)
  {
    if |b| == 0 {
      assert a + b == a;
    } else {
      WordConcat(phase, a, b[..|b| - 1]);
      assert (a + b)[..|a + b| - 1] == a + b[..|b| - 1];
    }
  }

  predicate Silent(o: Out) {
    !o.FallbackStart? && !o.FallbackFade? && !o.FallbackRecovery?
  }

  lemma {:induction false} WordSilent(phase: Phase, outs: seq<Out>)
    requires forall k :: 0 <= k < |outs| ==> Silent(outs[k])
    ensures Word(phase, outs) == phase
  {
    if |outs| > 0 {
      WordSilent(phase, outs[..|outs| - 1]);
    }
  }

  lemma {:induction false} FanOutSilent(c: Config, p: Pulse, inCallback: bool, n: nat)
    requires n <= |c.bindings|
    ensures forall k :: 0 <= k < |FanOut(c, p, inCallback, n)| ==> Silent(FanOut(c, p, inCallback, n)[k])
  {
    if n > 0 {
      FanOutSilent(c, p, inCallback, n - 1);
    }
  }

  lemma WordOfOne(phase: Phase, o: Out)
    ensures Word(phase, [o]) == After(phase, o)
  {
    assert [o][..0] == [];
    assert Word(phase, []) == phase;
  }

  lemma HandledSilent(c: Config, s: State, h: Header, frame: seq<u8>)
    requires WellFormed(s) && |frame| >= HEADER_SIZE && h.hops <= MAX_HOPS
    ensures forall k :: 0 <= k < |Handled(c, s, h, frame).1| ==> Silent(Handled(c, s, h, frame).1[k])
  {
    hide FanOut, Relay, PulseIn, Seen;
    var pulse := PulseIn(h, frame);
    if pulse.Some? {
      FanOutSilent(c, pulse.value, true, |c.bindings|);
    }
  }

  lemma RecvWord(c: Config, s: State, frame: seq<u8>, now: u32)
    requires WellFormed(s) && FallbackOrder(s)
    ensures Word(PhaseOf(s), AfterRecv(c, s, frame, now).1) == PhaseOf(AfterRecv(c, s, frame, now).0)
  {
    hide Handled, Admit, Word, Admitted;
    WordSilent(PhaseOf(s), []);
    if Admitted(s, frame, now).Some? {
      var h := Admitted(s, frame, now).value;
      var s1 := Alive(s, h, now);
      var recovery := if s.fallbackActive then [FallbackRecovery] else [];
      WordOfOne(PhaseOf(s), FallbackRecovery);
      HandledKeeps(c, s1, h, frame);
      HandledSilent(c, s1, h, frame);
      WordSilent(Idle, Handled(c, s1, h, frame).1);
      WordConcat(PhaseOf(s), recovery, Handled(c, s1, h, frame).1);
    }
  }

  lemma DrainSilent(c: Config, s: State)
    requires WellFormed(s)
    ensures forall k :: 0 <= k < |Drain(c, s).1| ==> Silent(Drain(c, s).1[k])
  {
    hide FanOut;
    if s.pendingLight.Some? {
      FanOutSilent(c, s.pendingLight.value, false, |c.bindings|);
    }
  }

  lemma FallbackWord(s: State, age: nat)
    requires WellFormed(s) && FallbackOrder(s)
    ensures Word(PhaseOf(s), Fallback(s, age).1) == PhaseOf(Fallback(s, age).0)
  {
    hide Word;
    WordSilent(PhaseOf(s), []);
    if s.rx > 0 {
      var start := !s.fallbackActive && age > FALLBACK_ENTER_MS;
      var first := if start then [FallbackStart] else [];
      var middle := if start then Washing else PhaseOf(s);
      WordOfOne(PhaseOf(s), FallbackStart);
      assert Word(PhaseOf(s), first) == middle;
      var fade := middle == Washing && age > FALLBACK_FADE_MS;
      var second := if fade then [FallbackFade] else [];
      WordOfOne(middle, FallbackFade);
      WordSilent(middle, []);
      WordConcat(PhaseOf(s), first, second);
    }
  }

  lemma TickWord(c: Config, s: State, now: u32)
    requires WellFormed(s) && FallbackOrder(s)
    ensures Word(PhaseOf(s), AfterTick(c, s, now).1) == PhaseOf(AfterTick(c, s, now).0)
  {
    hide FanOut, Word, Expire;
    var (s1, drained) := Drain(c, s);
    DrainSilent(c, s);
    WordSilent(PhaseOf(s), drained);
    var age := Age(now, s1.lastRx);
    if !(s1.rx > 0 && !s1.noSignal && age > NO_SIGNAL_MS) {
      var (s2, edges) := Fallback(s1, age);
      var (s3, tuned) := Scan(c, s2, age, now);
      FallbackWord(s1, age);
      WordSilent(PhaseOf(s2), tuned);
      WordConcat(PhaseOf(s), drained, edges);
      WordConcat(PhaseOf(s), drained + edges, tuned);
    }
  }

  /** Over every run the fallback flags are ordered, and the fallback events emitted so far are a
      prefix of a word in (start fade? recovery)*, at exactly the place the flags say. */
  lemma {:induction false} FallbackRuns(c: Config, start: u32, steps: seq<Step>)
    ensures var (s, outs) := Run(c, start, steps);
            FallbackOrder(s) && Word(Idle, outs) == PhaseOf(s)
  {
    hide Word, AfterRecv, AfterTick, PhaseOf;
    if |steps| == 0 {
      WordSilent(Idle, []);
      assert PhaseOf(Enter(c, start)) == Idle by {
        FreshIsIdle(c, start);
      }
    } else {
      var front, last := steps[..|steps| - 1], steps[|steps| - 1];
      FallbackRuns(c, start, front);
      var (s, outs) := Run(c, start, front);
      FallbackOrderKept(c, s, last);
      match last {
        case Recv(frame, now) => RecvWord(c, s, frame, now);
        case Tick(now) => TickWord(c, s, now);
      }
      WordConcat(Idle, outs, Do(c, s, last).1);
    }
  }

  lemma FreshIsIdle(c: Config, start: u32)
    ensures PhaseOf(Enter(c, start)) == Idle
  {
  }

  // ---------------------------------------------------------------------------
  // Silence over runs
  // ---------------------------------------------------------------------------

  /** The step of a run at which a frame was last admitted, or -1. */
  function HeardAt(c: Config, start: u32, steps: seq<Step>): (k: int)
    ensures -1 <= k < |steps|
    ensures k >= 0 ==> steps[k].Recv?
  {
    if |steps| == 0 then -1
    else
      var front, last := steps[..|steps| - 1], steps[|steps| - 1];
      if last.Recv? && Admitted(Run(c, start, front).0, last.frame, last.now).Some? then |steps| - 1
      else HeardAt(c, start, front)
  }

  lemma HeardOfRecv(c: Config, s: State, frame: seq<u8>, now: u32)
    requires WellFormed(s)
    ensures var s' := AfterRecv(c, s, frame, now).0;
            if Admitted(s, frame, now).Some? then s'.rx == s.rx + 1 && s'.lastRx == now && !s'.noSignal
            else s' == s
  {
    hide Handled, Admitted, Admit;
    if Admitted(s, frame, now).Some? {
      var h := Admitted(s, frame, now).value;
      HandledKeeps(c, Alive(s, h, now), h, frame);
    }
  }

  lemma HeardOfTick(c: Config, s: State, now: u32)
    requires WellFormed(s)
    ensures var s' := AfterTick(c, s, now).0;
            && s'.rx == s.rx && s'.lastRx == s.lastRx
            && s'.noSignal == (s.noSignal || (s.rx > 0 && Age(now, s.lastRx) > NO_SIGNAL_MS))
  {
    hide FanOut, Expire, Age, Elapsed;
  }

  lemma HeardOfStep(c: Config, s: State, step: Step)
    requires WellFormed(s)
    ensures var s' := Do(c, s, step).0;
            if step.Recv? && Admitted(s, step.frame, step.now).Some?
            then s'.rx == s.rx + 1 && s'.lastRx == step.now && !s'.noSignal
            else s'.rx == s.rx && s'.lastRx == s.lastRx
                 && s'.noSignal == (s.noSignal || (step.Tick? && s.rx > 0 && Age(step.now, s.lastRx) > NO_SIGNAL_MS))
  {
    hide AfterRecv, AfterTick, Admitted;
    match step {
      case Recv(frame, now) => HeardOfRecv(c, s, frame, now);
      case Tick(now) => HeardOfTick(c, s, now);
    }
  }

  /** The stored time is that of the run's last admitted frame. */
  lemma {:induction false} HeardRuns(c: Config, start: u32, steps: seq<Step>)
    ensures var s, k := Run(c, start, steps).0, HeardAt(c, start, steps);
            (s.rx > 0 <==> k >= 0) && (k >= 0 ==> s.lastRx == steps[k].now)
  {
    hide Do, Admitted;
    if |steps| > 0 {
      HeardRuns(c, start, steps[..|steps| - 1]);
      HeardOfStep(c, Run(c, start, steps[..|steps| - 1]).0, steps[|steps| - 1]);
    }
  }

  /** Some tick after step k of a run was more than d ms after it. */
  predicate SilentSince(steps: seq<Step>, k: int, d: nat)
    requires -1 <= k < |steps|
  {
    k >= 0 && exists i :: k < i < |steps| && steps[i].Tick? && steps[i].now - steps[k].now > d
  }

  lemma SilentStep(steps: seq<Step>, k: int, d: nat)
    requires -1 <= k < |steps| - 1
    ensures var last := steps[|steps| - 1];
            SilentSince(steps, k, d)
            <==> SilentSince(steps[..|steps| - 1], k, d)
                 || (k >= 0 && last.Tick? && last.now - steps[k].now > d)
  {
    var front := steps[..|steps| - 1];
    if SilentSince(front, k, d) {
      var i :| k < i < |front| && front[i].Tick? && front[i].now - front[k].now > d;
      assert steps[i].Tick? && steps[i].now - steps[k].now > d;
    }
    if SilentSince(steps, k, d) {
      var i :| k < i < |steps| && steps[i].Tick? && steps[i].now - steps[k].now > d;
      if i < |front| {
        assert front[i].Tick? && front[i].now - front[k].now > d;
      }
    }
  }

  /** Over every run the signal counts as lost exactly when some tick since the last admitted frame
      was more than three seconds after it. */
  lemma {:induction false} NoSignalIff(c: Config, start: u32, steps: seq<Step>)
    ensures Run(c, start, steps).0.noSignal <==> SilentSince(steps, HeardAt(c, start, steps), 3000)
  {
    hide Do, Admitted, SilentSince;
    if |steps| == 0 {
      assert SilentSince(steps, -1, 3000) == false by {
        NeverHeard(steps);
      }
    } else {
      var front, last := steps[..|steps| - 1], steps[|steps| - 1];
      NoSignalIff(c, start, front);
      HeardRuns(c, start, front);
      HeardOfStep(c, Run(c, start, front).0, last);
      var k := HeardAt(c, start, steps);
      if k == |steps| - 1 {
        JustHeard(steps, 3000);
      } else {
        SilentStep(steps, k, 3000);
      }
    }
  }

  lemma NeverHeard(steps: seq<Step>)
    ensures !SilentSince(steps, -1, 3000)
  {
  }

  lemma JustHeard(steps: seq<Step>, d: nat)
    requires |steps| > 0
    ensures !SilentSince(steps, |steps| - 1, d)
  {
  }

  lemma EdgesOfStep(c: Config, s: State, step: Step)
    requires WellFormed(s)
    ensures var (s', outs) := Do(c, s, step);
            && (FallbackStart in outs ==> step.Tick? && s.rx > 0 && Age(step.now, s.lastRx) > FALLBACK_ENTER_MS)
            && (FallbackFade in outs ==> step.Tick? && s.rx > 0 && Age(step.now, s.lastRx) > FALLBACK_FADE_MS)
            && (step.Tick? && s.rx > 0 && s.noSignal ==>
                  && (Age(step.now, s.lastRx) > FALLBACK_ENTER_MS ==> s'.fallbackActive)
                  && (Age(step.now, s.lastRx) > FALLBACK_FADE_MS ==> s'.fallbackActive && s'.fallbackFaded))
  {
    hide FanOut, Admitted, Relay, Seen, Expire;
    match step {
      case Recv(frame, now) =>
        if Admitted(s, frame, now).Some? {
          var pulse := PulseIn(Admitted(s, frame, now).value, frame);
          if pulse.Some? {
            FanOutSilent(c, pulse.value, true, |c.bindings|);
          }
        }
      case Tick(now) =>
        DrainSilent(c, s);
    }
  }

  /** Over every run the wash starts only at a tick more than ten seconds after the last admitted
      frame and fades only more than forty seconds after it; and once the signal counts as lost, a
      tick that late leaves the wash started, or faded. */
  lemma FallbackTiming(c: Config, start: u32, steps: seq<Step>, step: Step)
    ensures var (s, outs) := Run(c, start, steps);
            var (s', more) := Do(c, s, step);
            var k := HeardAt(c, start, steps);
            && (FallbackStart in more ==> step.Tick? && k >= 0 && step.now - steps[k].now > 10000)
            && (FallbackFade in more ==> step.Tick? && k >= 0 && step.now - steps[k].now > 40000)
            && (step.Tick? && SilentSince(steps, k, 3000) ==>
                  var phase := Word(Idle, outs + more);
                  && (step.now - steps[k].now > 10000 ==> phase == Washing || phase == Faded)
                  && (step.now - steps[k].now > 40000 ==> phase == Faded))
  {
    HeardRuns(c, start, steps);
    NoSignalIff(c, start, steps);
    var (s, outs) := Run(c, start, steps);
    EdgesOfStep(c, s, step);
    FallbackRuns(c, start, steps + [step]);
    assert (steps + [step])[..|steps|] == steps;
    RunStep(c, start, steps + [step]);
    hide Run, Do, Word, HeardAt, SilentSince, Age;
    assert PhaseOf(Do(c, s, step).0) == Word(Idle, outs + Do(c, s, step).1);
  }

  /** When the dwell clock of the channel scan was last restarted: at the start, at a retune, or at
      the tick that found the signal lost. */
  function SwitchedAt(c: Config, start: u32, steps: seq<Step>): (time: u32) {
    if |steps| == 0 then start
    else
      var front, last := steps[..|steps| - 1], steps[|steps| - 1];
      var s := Run(c, start, front).0;
      if last.Tick? && (Tunes(Do(c, s, last).1) != [] || Do(c, s, last).0.noSignal != s.noSignal) then last.now
      else SwitchedAt(c, start, front)
  }

  /** The channels tuned to, in order. */
  function Tunes(outs: seq<Out>): (cs: seq<u8>) {
    if |outs| == 0 then []
    else Tunes(outs[..|outs| - 1]) + if outs[|outs| - 1].Tune? then [outs[|outs| - 1].channel] else []
  }

  lemma {:induction false} TunesConcat(a: seq<Out>, b: seq<Out>)
    ensures Tunes(a + b) == Tunes(a) + Tunes(b)
  {
    if |b| == 0 {
      assert a + b == a;
    } else {
      TunesConcat(a, b[..|b| - 1]);
      assert (a + b)[..|a + b| - 1] == a + b[..|b| - 1];
    }
  }

  lemma {:induction false} NoTunes(outs: seq<Out>)
    requires forall k :: 0 <= k < |outs| ==> !outs[k].Tune?
    ensures Tunes(outs) == []
  {
    if |outs| > 0 {
      NoTunes(outs[..|outs| - 1]);
    }
  }

  lemma OneTune(channel: u8)
    ensures Tunes([Tune(channel)]) == [channel]
  {
    assert [Tune(channel)][..0] == [];
  }

  lemma {:induction false} FanOutFires(c: Config, p: Pulse, inCallback: bool, n: nat)
    requires n <= |c.bindings|
    ensures forall k :: 0 <= k < |FanOut(c, p, inCallback, n)| ==> FanOut(c, p, inCallback, n)[k].Fire?
  {
    if n > 0 {
      FanOutFires(c, p, inCallback, n - 1);
    }
  }

  lemma RecvTunes(c: Config, s: State, frame: seq<u8>, now: u32)
    requires WellFormed(s)
    ensures Tunes(AfterRecv(c, s, frame, now).1) == []
    ensures AfterRecv(c, s, frame, now).0.channel == s.channel && AfterRecv(c, s, frame, now).0.lastSwitch == s.lastSwitch
  {
    hide FanOut, Admitted, Relay, Seen, Tunes, PulseIn;
    if Admitted(s, frame, now).Some? {
      var pulse := PulseIn(Admitted(s, frame, now).value, frame);
      if pulse.Some? {
        FanOutFires(c, pulse.value, true, |c.bindings|);
      }
    }
    NoTunes(AfterRecv(c, s, frame, now).1);
  }

  lemma DrainTunes(c: Config, s: State)
    requires WellFormed(s)
    ensures Tunes(Drain(c, s).1) == []
  {
    hide FanOut, Tunes;
    if s.pendingLight.Some? {
      FanOutFires(c, s.pendingLight.value, false, |c.bindings|);
    }
    NoTunes(Drain(c, s).1);
  }

  /** When a tick retunes, and to what. */
  predicate Retunes(c: Config, s: State, now: u32) {
    && !(s.rx > 0 && !s.noSignal && Age(now, s.lastRx) > NO_SIGNAL_MS)
    && c.channelPref == 0 && (s.rx == 0 || Age(now, s.lastRx) > RESCAN_MS)
    && Elapsed(now, s.lastSwitch) >= DWELL_MS
  }

  lemma TickTunes(c: Config, s: State, now: u32)
    requires WellFormed(s)
    ensures var (s', outs) := AfterTick(c, s, now);
            && Tunes(outs) == (if Retunes(c, s, now) then [NextChannel(s.channel)] else [])
            && s'.channel == (if Retunes(c, s, now) then NextChannel(s.channel) else s.channel)
            && s'.lastSwitch == (if Retunes(c, s, now) || s'.noSignal != s.noSignal then now else s.lastSwitch)
            && (Retunes(c, s, now) ==> !s'.tofu.hasLock)
  {
    hide FanOut, Tunes, Elapsed;
    DrainTunes(c, s);
    var (s1, drained) := Drain(c, s);
    var age := Age(now, s1.lastRx);
    if !(s1.rx > 0 && !s1.noSignal && age > NO_SIGNAL_MS) {
      var (s2, edges) := Fallback(s1, age);
      var (s3, tuned) := Scan(c, s2, age, now);
      NoTunes(edges);
      NoTunes([]);
      OneTune(NextChannel(s.channel));
      TunesConcat(drained, edges);
      TunesConcat(drained + edges, tuned);
    }
  }

  lemma {:induction false} SwitchRuns(c: Config, start: u32, steps: seq<Step>)
    ensures Run(c, start, steps).0.lastSwitch == SwitchedAt(c, start, steps)
  {
    hide AfterRecv, AfterTick, Tunes, Retunes, Run;
    if |steps| == 0 {
      RunOfNothing(c, start);
    } else {
      var front, last := steps[..|steps| - 1], steps[|steps| - 1];
      SwitchRuns(c, start, front);
      RunStep(c, start, steps);
      var s := Run(c, start, front).0;
      match last {
        case Recv(frame, now) => RecvTunes(c, s, frame, now);
        case Tick(now) => TickTunes(c, s, now);
      }
    }
  }

  /** Over every run, exactly when a tick retunes: the channel is not pinned, nothing was ever heard
      or the last admitted frame is more than ten seconds back, two seconds have passed since the
      dwell clock was restarted, and this tick does not find the signal lost. It then drops the
      source lock. */
  lemma TuneTiming(c: Config, start: u32, steps: seq<Step>, now: u32)
    ensures var s := Run(c, start, steps).0;
            var k := HeardAt(c, start, steps);
            var (s', more) := Do(c, s, Tick(now));
            && (Tunes(more) != [] <==>
                  && c.channelPref == 0
                  && (k < 0 || (now - steps[k].now > 10000 && SilentSince(steps, k, 3000)))
                  && (now - SwitchedAt(c, start, steps)) % 0x1_0000_0000 >= 2000)
            && (Tunes(more) != [] ==> !s'.tofu.hasLock)
  {
    hide Run, AfterTick, Tunes, HeardAt, SilentSince, SwitchedAt;
    HeardRuns(c, start, steps);
    NoSignalIff(c, start, steps);
    SwitchRuns(c, start, steps);
    NeverHeard(steps);
    TickTunes(c, Run(c, start, steps).0, now);
  }

  /** The k-th channel of the scan. */
  function ScanChannel(k: nat): (channel: u8) {
    if k % 3 == 0 then 11 else if k % 3 == 1 then 1 else 6
  }

  lemma ScanNext(k: nat)
    ensures NextChannel(ScanChannel(k)) == ScanChannel(k + 1)
  {
    assert (k + 1) % 3 == if k % 3 == 2 then 0 else k % 3 + 1;
  }

  /** Over every run an unpinned node listens on 11, 1, 6, 11 and so on, one step for each retune; a
      pinned one stays where it is. */
  lemma {:induction false} ScanOrder(c: Config, start: u32, steps: seq<Step>)
    ensures var (s, outs) := Run(c, start, steps);
            var cs := Tunes(outs);
            if c.channelPref == 0 then
              s.channel == ScanChannel(|cs|) && forall k :: 0 <= k < |cs| ==> cs[k] == ScanChannel(k + 1)
            else s.channel == c.channelPref && cs == []
  {
    hide AfterRecv, AfterTick, Tunes, Run, NextChannel, ScanChannel;
    if |steps| == 0 {
      RunOfNothing(c, start);
      NoTunes([]);
      assert ScanChannel(0) == 11 by {
        FirstChannel();
      }
    } else {
      var front, last := steps[..|steps| - 1], steps[|steps| - 1];
      ScanOrder(c, start, front);
      RunStep(c, start, steps);
      var (s, outs) := Run(c, start, front);
      TunesConcat(outs, Do(c, s, last).1);
      ScanNext(|Tunes(outs)|);
      match last {
        case Recv(frame, now) => RecvTunes(c, s, frame, now);
        case Tick(now) => TickTunes(c, s, now);
      }
    }
  }

  lemma FirstChannel()
    ensures ScanChannel(0) == 11
  {
  }

  // ---------------------------------------------------------------------------
  // Duplicate suppression
  // ---------------------------------------------------------------------------

  /** The pair a step marks, if it marks one: that of an admitted, sequenced, unseen frame. */
  function MarkedBy(s: State, step: Step): (ms: seq<Mark>)
    requires WellFormed(s)
  {
    match step
    case Tick(_) => []
    case Recv(frame, now) =>
      match Admitted(s, frame, now)
      case None => []
      case Some(h) => if h.sequence != 0 && !Seen(s.ring, MarkOf(h)) then [MarkOf(h)] else []
  }

  /** All pairs marked in a run, in order. */
  function MarkLog(c: Config, start: u32, steps: seq<Step>): (log: seq<Mark>) {
    if |steps| == 0 then []
    else
      var front := steps[..|steps| - 1];
      MarkLog(c, start, front) + MarkedBy(Run(c, start, front).0, steps[|steps| - 1])
  }

  /** One of the last sixteen marks. */
  predicate Recent(log: seq<Mark>, k: int) {
    0 <= k < |log| <= k + 16
  }

  /** Every recent mark stands at its number modulo sixteen, and the rest of the ring is blank. */
  ghost predicate InPlace(ring: seq<Mark>, log: seq<Mark>) {
    && |ring| == RING
    && (forall k :: Recent(log, k) ==> ring[k % RING] == log[k])
    && (forall k :: |log| <= k < RING ==> ring[k] == NO_MARK)
  }

  ghost predicate RecentDistinct(log: seq<Mark>) {
    forall i, j :: Recent(log, i) && Recent(log, j) && i < j ==> log[i] != log[j]
  }

  predicate Sequenced(log: seq<Mark>) {
    forall k :: 0 <= k < |log| ==> log[k].sequence != 0
  }

  /** The ring holds the last sixteen marked pairs, and those are pairwise distinct. */
  ghost predicate RingHolds(ring: seq<Mark>, head: nat, log: seq<Mark>) {
    head == |log| % RING && InPlace(ring, log) && RecentDistinct(log) && Sequenced(log)
  }

  lemma SeenIsRecent(ring: seq<Mark>, head: nat, log: seq<Mark>, m: Mark)
    requires RingHolds(ring, head, log)
    ensures Seen(ring, m) <==> exists k :: Recent(log, k) && log[k] == m
  {
    if Seen(ring, m) {
      var p :| 0 <= p < RING && ring[p] == m;
      var k := WindowIndex(|log|, p);
      assert p < |log| ==> Recent(log, k) && ring[k % RING] == log[k];
    }
    if exists k :: Recent(log, k) && log[k] == m {
      var k :| Recent(log, k) && log[k] == m;
      assert ring[k % RING] == m;
    }
  }

  /** The number in the last sixteen below n that leaves a given remainder. */
  function WindowIndex(n: nat, p: nat): (k: nat)
    requires p < RING
    ensures k % RING == p && (p < n ==> k < n <= k + RING)
  {
    if p < n then p + (n - 1 - p) / RING * RING else p
  }

  lemma RemaindersDiffer(k: nat, n: nat)
    requires k < n < k + RING
    ensures k % RING != n % RING
  {
  }

  lemma NextHead(n: nat)
    ensures (n % RING + 1) % RING == (n + 1) % RING
  {
  }

  lemma InPlaceStep(ring: seq<Mark>, log: seq<Mark>, m: Mark)
    requires InPlace(ring, log)
    ensures InPlace(ring[|log| % RING := m], log + [m])
  {
    var ring', log' := ring[|log| % RING := m], log + [m];
    forall k | Recent(log', k) ensures ring'[k % RING] == log'[k] {
      if k < |log| {
        RemaindersDiffer(k, |log|);
        assert Recent(log, k);
      }
    }
  }

  lemma DistinctStep(log: seq<Mark>, m: Mark)
    requires RecentDistinct(log) && forall k :: Recent(log, k) ==> log[k] != m
    ensures RecentDistinct(log + [m])
  {
    var log' := log + [m];
    forall i, j | Recent(log', i) && Recent(log', j) && i < j ensures log'[i] != log'[j] {
      assert Recent(log, i) && (j < |log| ==> Recent(log, j));
    }
  }

  lemma RingStep(ring: seq<Mark>, head: nat, log: seq<Mark>, m: Mark)
    requires RingHolds(ring, head, log) && m.sequence != 0 && !Seen(ring, m)
    ensures |ring| == RING && head < RING
    ensures RingHolds(ring[head := m], (head + 1) % RING, log + [m])
  {
    SeenIsRecent(ring, head, log, m);
    InPlaceStep(ring, log, m);
    assert |ring| == RING;
    hide InPlace, RecentDistinct, Recent, Seen;
    DistinctStep(log, m);
    NextHead(|log|);
  }

  /** Within a session the ring is exactly the last sixteen marked pairs, and they are distinct. */
  lemma {:induction false} RingRuns(c: Config, start: u32, steps: seq<Step>)
    ensures var s := Run(c, start, steps).0;
            RingHolds(s.ring, s.head, MarkLog(c, start, steps))
  {
    hide Run, Admitted, Seen, FanOut, Relay, PulseIn, Drain, Fallback, Scan, Expire, RingHolds;
    if |steps| == 0 {
      FreshRing(c, start);
    } else {
      var front, last := steps[..|steps| - 1], steps[|steps| - 1];
      RingRuns(c, start, front);
      RunStep(c, start, steps);
      var s, log := Run(c, start, front).0, MarkLog(c, start, front);
      RingOfStep(c, s, last, log);
    }
  }

  lemma FreshRing(c: Config, start: u32)
    ensures var s := Run(c, start, []).0;
            RingHolds(s.ring, s.head, [])
  {
  }

  lemma RunStep(c: Config, start: u32, steps: seq<Step>)
    requires |steps| > 0
    ensures var (s, outs) := Run(c, start, steps[..|steps| - 1]);
            var (s', more) := Do(c, s, steps[|steps| - 1]);
            Run(c, start, steps) == (s', outs + more)
  {
  }

  lemma RingOfHandled(c: Config, s: State, h: Header, frame: seq<u8>)
    requires WellFormed(s) && |frame| >= HEADER_SIZE && h.hops <= MAX_HOPS
    ensures var s', m := Handled(c, s, h, frame).0, MarkOf(h);
            if m.sequence == 0 || Seen(s.ring, m) then s'.ring == s.ring && s'.head == s.head
            else s'.ring == s.ring[s.head := m] && s'.head == (s.head + 1) % RING
  {
    hide FanOut, Relay, PulseIn, Seen;
  }

  lemma RingOfTick(c: Config, s: State, now: u32)
    requires WellFormed(s)
    ensures AfterTick(c, s, now).0.ring == s.ring && AfterTick(c, s, now).0.head == s.head
  {
    hide FanOut, Expire, Age, Elapsed;
  }

  lemma RingFields(c: Config, s: State, step: Step)
    requires WellFormed(s)
    ensures var s', ms := Do(c, s, step).0, MarkedBy(s, step);
            if ms == [] then s'.ring == s.ring && s'.head == s.head
            else ms == [ms[0]] && ms[0].sequence != 0 && !Seen(s.ring, ms[0])
                 && s'.ring == s.ring[s.head := ms[0]] && s'.head == (s.head + 1) % RING
  {
    hide Handled, AfterTick, Seen, Admitted, Admit;
    match step {
      case Recv(frame, now) =>
        if Admitted(s, frame, now).Some? {
          var h := Admitted(s, frame, now).value;
          RingOfHandled(c, Alive(s, h, now), h, frame);
        }
      case Tick(now) => RingOfTick(c, s, now);
    }
  }

  lemma RingOfStep(c: Config, s: State, step: Step, log: seq<Mark>)
    requires WellFormed(s) && RingHolds(s.ring, s.head, log)
    ensures var s' := Do(c, s, step).0;
            RingHolds(s'.ring, s'.head, log + MarkedBy(s, step))
  {
    hide RingHolds, Seen, Do, MarkedBy;
    RingFields(c, s, step);
    assert log + [] == log;
    if MarkedBy(s, step) != [] {
      RingStep(s.ring, s.head, log, MarkedBy(s, step)[0]);
    }
  }

  /** The last place of a pair in a log, or -1. */
  function LastPlace(log: seq<Mark>, m: Mark): (k: int)
    ensures -1 <= k < |log|
    ensures k >= 0 ==> log[k] == m
    ensures forall i :: k < i < |log| ==> log[i] != m
  {
    if |log| == 0 then -1 else if log[|log| - 1] == m then |log| - 1 else LastPlace(log[..|log| - 1], m)
  }

  /** After any run, an admitted frame is dropped as a duplicate exactly when it is sequenced and
      fewer than sixteen further pairs have been marked since its own pair last was. */
  lemma DuplicateIff(c: Config, start: u32, steps: seq<Step>, m: Mark)
    ensures var log := MarkLog(c, start, steps);
            var k := LastPlace(log, m);
            Seen(Run(c, start, steps).0.ring, m) <==> k >= 0 && |log| - 1 - k < 16
  {
    var s, log := Run(c, start, steps).0, MarkLog(c, start, steps);
    RingRuns(c, start, steps);
    hide Run, MarkLog, LastPlace, RingHolds;
    SeenIsRecent(s.ring, s.head, log, m);
    assert LastPlace(log, m) >= 0 && |log| - 1 - LastPlace(log, m) < RING ==> Recent(log, LastPlace(log, m));
  }

  /** A duplicate fires nothing, queues nothing and relays nothing; an unsequenced frame never is one. */
  lemma DuplicateIsInert(c: Config, s: State, frame: seq<u8>, now: u32)
    requires WellFormed(s) && Admitted(s, frame, now).Some?
    requires Seen(s.ring, MarkOf(Admitted(s, frame, now).value))
    ensures Admitted(s, frame, now).value.sequence != 0
    ensures var (s', outs) := AfterRecv(c, s, frame, now);
            && s'.ring == s.ring && s'.pendingLight == s.pendingLight && s'.pendingRepeat == s.pendingRepeat
            && outs == (if s.fallbackActive then [FallbackRecovery] else [])
            && s'.lastRx == now
  {
    hide Admit;
  }

  // ---------------------------------------------------------------------------
  // Pulses
  // ---------------------------------------------------------------------------

  /** The pulse a step takes in: that of an admitted unique frame carrying one. */
  function TakenBy(s: State, step: Step): (ps: seq<Pulse>)
    requires WellFormed(s)
  {
    match step
    case Tick(_) => []
    case Recv(frame, now) =>
      match Admitted(s, frame, now)
      case None => []
      case Some(h) =>
        if Seen(s.ring, MarkOf(h)) then []
        else
          match PulseIn(h, frame)
          case None => []
          case Some(p) => [p]
  }

  /** All pulses taken in by a run, in order of receipt. */
  function PulseLog(c: Config, start: u32, steps: seq<Step>): (ps: seq<Pulse>) {
    if |steps| == 0 then []
    else
      var front := steps[..|steps| - 1];
      PulseLog(c, start, front) + TakenBy(Run(c, start, front).0, steps[|steps| - 1])
  }

  /** The pulses a binding's filter lets through. */
  function Filtered(c: Config, b: Binding, ps: seq<Pulse>): (r: seq<Pulse>) {
    if |ps| == 0 then []
    else Filtered(c, b, ps[..|ps| - 1]) + if Passes(c, b, ps[|ps| - 1]) then [ps[|ps| - 1]] else []
  }

  lemma {:induction false} FilteredConcat(c: Config, b: Binding, xs: seq<Pulse>, ys: seq<Pulse>)
    ensures Filtered(c, b, xs + ys) == Filtered(c, b, xs) + Filtered(c, b, ys)
  {
    if |ys| == 0 {
      assert xs + ys == xs;
    } else {
      FilteredConcat(c, b, xs, ys[..|ys| - 1]);
      assert (xs + ys)[..|xs + ys| - 1] == xs + ys[..|ys| - 1];
    }
  }

  lemma FilteredFew(c: Config, b: Binding, p: Pulse)
    ensures Filtered(c, b, []) == []
    ensures Filtered(c, b, [p]) == if Passes(c, b, p) then [p] else []
  {
    assert [p][..0] == [];
  }

  lemma {:induction false} FiredAtNone(outs: seq<Out>, i: nat)
    requires forall k :: 0 <= k < |outs| ==> !outs[k].Fire?
    ensures FiredAt(outs, i) == []
  {
    if |outs| > 0 {
      FiredAtNone(outs[..|outs| - 1], i);
    }
  }

  lemma HandledFires(c: Config, s: State, h: Header, frame: seq<u8>, i: nat)
    requires WellFormed(s) && |frame| >= HEADER_SIZE && h.hops <= MAX_HOPS && i < |c.bindings|
    ensures var pulse := PulseIn(h, frame);
            FiredAt(Handled(c, s, h, frame).1, i)
            == if c.bindings[i].inCallback && !Seen(s.ring, MarkOf(h)) && pulse.Some?
               then Filtered(c, c.bindings[i], [pulse.value]) else []
  {
    hide FiredAt, Filtered, FanOut, Passes, PulseIn, Relay, Seen, Marked;
    NothingFired(i);
    var pulse := PulseIn(h, frame);
    if pulse.Some? {
      FilteredFew(c, c.bindings[i], pulse.value);
      FanOutReaches(c, pulse.value, true, |c.bindings|, i);
    }
  }

  lemma RecvFires(c: Config, s: State, frame: seq<u8>, now: u32, i: nat)
    requires WellFormed(s) && i < |c.bindings|
    ensures FiredAt(AfterRecv(c, s, frame, now).1, i)
            == if c.bindings[i].inCallback then Filtered(c, c.bindings[i], TakenBy(s, Recv(frame, now))) else []
  {
    hide FiredAt, Filtered, Handled, PulseIn, Admitted, Seen;
    NothingFired(i);
    FilteredNone(c, c.bindings[i]);
    if Admitted(s, frame, now).Some? {
      var h := Admitted(s, frame, now).value;
      var s1 := Alive(s, h, now);
      FiredAtFew(FallbackRecovery, i);
      HandledFires(c, s1, h, frame, i);
      FiredAtConcat(if s.fallbackActive then [FallbackRecovery] else [], Handled(c, s1, h, frame).1, i);
    }
  }

  lemma FilteredNone(c: Config, b: Binding)
    ensures Filtered(c, b, []) == []
  {
  }

  /** The pulse a step drains. */
  function DrainedBy(s: State, step: Step): (ps: seq<Pulse>) {
    if step.Tick? && s.pendingLight.Some? then [s.pendingLight.value] else []
  }

  lemma DrainFires(c: Config, s: State, i: nat)
    requires WellFormed(s) && i < |c.bindings|
    ensures FiredAt(Drain(c, s).1, i)
            == if c.bindings[i].inCallback || s.pendingLight.None? then []
               else Filtered(c, c.bindings[i], [s.pendingLight.value])
  {
    hide FiredAt, Filtered, FanOut, Passes;
    var light := if s.pendingLight.Some? then FanOut(c, s.pendingLight.value, false, |c.bindings|) else [];
    var send := if s.pendingRepeat.Some? then [Send(s.pendingRepeat.value)] else [];
    FiredAtNone([], i);
    FiredAtNone(send, i);
    FiredAtConcat(light, send, i);
    if s.pendingLight.Some? {
      FilteredFew(c, c.bindings[i], s.pendingLight.value);
      FanOutReaches(c, s.pendingLight.value, false, |c.bindings|, i);
    }
  }

  lemma EdgesFireNothing(s: State, age: nat, i: nat)
    requires WellFormed(s)
    ensures FiredAt(Fallback(s, age).1, i) == []
  {
    hide FiredAt;
    FiredAtNone(Fallback(s, age).1, i);
  }

  lemma ScanFiresNothing(c: Config, s: State, age: nat, now: u32, i: nat)
    requires WellFormed(s)
    ensures FiredAt(Scan(c, s, age, now).1, i) == []
  {
    hide FiredAt, Elapsed;
    FiredAtNone(Scan(c, s, age, now).1, i);
  }

  lemma FiredAtThree(a: seq<Out>, b: seq<Out>, d: seq<Out>, i: nat)
    requires FiredAt(b, i) == [] && FiredAt(d, i) == []
    ensures FiredAt(a + b + d, i) == FiredAt(a, i)
  {
    hide FiredAt;
    FiredAtConcat(a, b, i);
    FiredAtConcat(a + b, d, i);
  }

  lemma TickFires(c: Config, s: State, now: u32, i: nat)
    requires WellFormed(s) && i < |c.bindings|
    ensures FiredAt(AfterTick(c, s, now).1, i)
            == if c.bindings[i].inCallback then [] else Filtered(c, c.bindings[i], DrainedBy(s, Tick(now)))
  {
    hide FiredAt, Filtered, Drain, Fallback, Scan, Expire, Age;
    DrainFires(c, s, i);
    FilteredNone(c, c.bindings[i]);
    var (s1, drained) := Drain(c, s);
    var age := Age(now, s1.lastRx);
    if !(s1.rx > 0 && !s1.noSignal && age > NO_SIGNAL_MS) {
      var (s2, edges) := Fallback(s1, age);
      EdgesFireNothing(s1, age, i);
      ScanFiresNothing(c, s2, age, now, i);
      FiredAtThree(drained, edges, Scan(c, s2, age, now).1, i);
    }
  }

  /** All pulses drained by a run, in order. */
  function DrainLog(c: Config, start: u32, steps: seq<Step>): (ps: seq<Pulse>) {
    if |steps| == 0 then []
    else
      var front := steps[..|steps| - 1];
      DrainLog(c, start, front) + DrainedBy(Run(c, start, front).0, steps[|steps| - 1])
  }

  /** Over any run, a callback-safe binding gets every pulse taken in that passes its filter, once
      and in order of receipt; the others get the drained pulses that pass theirs. */
  lemma {:induction false} BindingGets(c: Config, start: u32, steps: seq<Step>, i: nat)
    requires i < |c.bindings|
    ensures FiredAt(Run(c, start, steps).1, i)
            == Filtered(c, c.bindings[i], if c.bindings[i].inCallback then PulseLog(c, start, steps)
                                          else DrainLog(c, start, steps))
  {
    hide FiredAt, Filtered, Passes, AfterRecv, AfterTick, Run, TakenBy;
    FiredAtNone([], i);
    FilteredNone(c, c.bindings[i]);
    if |steps| == 0 {
      RunOfNothing(c, start);
    } else {
      var front, last := steps[..|steps| - 1], steps[|steps| - 1];
      var b := c.bindings[i];
      BindingGets(c, start, front, i);
      RunStep(c, start, steps);
      var (s, outs) := Run(c, start, front);
      FiredAtConcat(outs, Do(c, s, last).1, i);
      FilteredConcat(c, b, PulseLog(c, start, front), TakenBy(s, last));
      FilteredConcat(c, b, DrainLog(c, start, front), DrainedBy(s, last));
      match last {
        case Recv(frame, now) => RecvFires(c, s, frame, now, i);
        case Tick(now) =>
          TickFires(c, s, now, i);
          TickTakesNone(s, now);
      }
    }
  }

  lemma TickTakesNone(s: State, now: u32)
    requires WellFormed(s)
    ensures TakenBy(s, Tick(now)) == []
  {
  }

  lemma RunOfNothing(c: Config, start: u32)
    ensures Run(c, start, []) == (Enter(c, start), [])
  {
  }

  /** at places sub as a subsequence of ps. */
  predicate Selects<T(==)>(at: seq<int>, ps: seq<T>, sub: seq<T>) {
    && |at| == |sub|
    && (forall k :: 0 <= k < |at| ==> 0 <= at[k] < |ps| && sub[k] == ps[at[k]])
    && (forall j, k :: 0 <= j < k < |at| ==> at[j] < at[k])
  }

  /** A one-place queue: what was drained is a subsequence of what was taken in, and the latest item
      taken in is either still queued, behind every drained one, or was the last one drained. */
  predicate LatestWins<T(==)>(at: seq<int>, ps: seq<T>, sub: seq<T>, pending: Option<T>) {
    && Selects(at, ps, sub)
    && (pending.Some? ==> |ps| > 0 && pending.value == ps[|ps| - 1] && forall k :: 0 <= k < |at| ==> at[k] < |ps| - 1)
    && (pending.None? && |ps| > 0 ==> |at| > 0 && at[|at| - 1] == |ps| - 1)
  }

  lemma LatestDrained<T>(at: seq<int>, ps: seq<T>, sub: seq<T>, p: T)
    requires LatestWins(at, ps, sub, Some(p))
    ensures LatestWins(at + [|ps| - 1], ps, sub + [p], None)
  {
    SelectsLast(at, ps, sub);
  }

  lemma LatestTaken<T>(at: seq<int>, ps: seq<T>, sub: seq<T>, pending: Option<T>, p: T)
    requires LatestWins(at, ps, sub, pending)
    ensures LatestWins(at, ps + [p], sub, Some(p))
  {
    SelectsMore(at, ps, sub, [p]);
  }

  /** Over any run, then, deferred bindings see a subsequence in order of receipt that ends, after
      a drain, with the latest pulse. */
  lemma {:induction false} DrainsAreLatest(c: Config, start: u32, steps: seq<Step>) returns (at: seq<int>)
    ensures LatestWins(at, PulseLog(c, start, steps), DrainLog(c, start, steps), Run(c, start, steps).0.pendingLight)
  {
    hide AfterRecv, AfterTick, Run, TakenBy, Do, LatestWins;
    if |steps| == 0 {
      RunOfNothing(c, start);
      at := [];
      LatestOfNothing<Pulse>();
    } else {
      var front, last := steps[..|steps| - 1], steps[|steps| - 1];
      at := DrainsAreLatest(c, start, front);
      RunStep(c, start, steps);
      var s := Run(c, start, front).0;
      PendingOfStep(c, s, last);
      var ps, sub := PulseLog(c, start, front), DrainLog(c, start, front);
      assert ps + [] == ps && sub + [] == sub;
      if last.Tick? && s.pendingLight.Some? {
        LatestDrained(at, ps, sub, s.pendingLight.value);
        at := at + [|ps| - 1];
      } else if TakenBy(s, last) != [] {
        LatestTaken(at, ps, sub, s.pendingLight, TakenBy(s, last)[0]);
        assert TakenBy(s, last) == [TakenBy(s, last)[0]];
      }
    }
  }

  lemma LatestOfNothing<T>()
    ensures LatestWins<T>([], [], [], None)
  {
  }

  lemma SelectsLast<T>(at: seq<int>, ps: seq<T>, sub: seq<T>)
    requires Selects(at, ps, sub) && |ps| > 0 && forall k :: 0 <= k < |at| ==> at[k] < |ps| - 1
    ensures Selects(at + [|ps| - 1], ps, sub + [ps[|ps| - 1]])
  {
  }

  lemma SelectsMore<T>(at: seq<int>, ps: seq<T>, sub: seq<T>, more: seq<T>)
    requires Selects(at, ps, sub)
    ensures Selects(at, ps + more, sub)
    ensures forall k :: 0 <= k < |at| ==> at[k] < |ps|
  {
  }

  lemma PendingOfStep(c: Config, s: State, step: Step)
    requires WellFormed(s)
    ensures |TakenBy(s, step)| <= 1
    ensures Do(c, s, step).0.pendingLight
            == if step.Tick? then None else if TakenBy(s, step) != [] then Some(TakenBy(s, step)[0]) else s.pendingLight
    ensures step.Tick? ==> TakenBy(s, step) == []
  {
    hide FanOut, Admitted, Relay, Seen, Expire;
  }

  /** The relay copy a step queues: that of an admitted unique frame below the hop limit. */
  function QueuedBy(c: Config, s: State, step: Step): (fs: seq<seq<u8>>)
    requires WellFormed(s)
  {
    match step
    case Tick(_) => []
    case Recv(frame, now) =>
      match Admitted(s, frame, now)
      case None => []
      case Some(h) =>
        if Seen(s.ring, MarkOf(h)) then []
        else
          match Relay(c, h, frame)
          case None => []
          case Some(f) => [f]
  }

  function SentBy(s: State, step: Step): (fs: seq<seq<u8>>) {
    if step.Tick? && s.pendingRepeat.Some? then [s.pendingRepeat.value] else []
  }

  function QueueLog(c: Config, start: u32, steps: seq<Step>): (fs: seq<seq<u8>>) {
    if |steps| == 0 then []
    else
      var front := steps[..|steps| - 1];
      QueueLog(c, start, front) + QueuedBy(c, Run(c, start, front).0, steps[|steps| - 1])
  }

  function SendLog(c: Config, start: u32, steps: seq<Step>): (fs: seq<seq<u8>>) {
    if |steps| == 0 then []
    else
      var front := steps[..|steps| - 1];
      SendLog(c, start, front) + SentBy(Run(c, start, front).0, steps[|steps| - 1])
  }

  lemma RelayOfStep(c: Config, s: State, step: Step)
    requires WellFormed(s)
    ensures |QueuedBy(c, s, step)| <= 1
    ensures Do(c, s, step).0.pendingRepeat
            == if step.Tick? then None
               else if QueuedBy(c, s, step) != [] then Some(QueuedBy(c, s, step)[0]) else s.pendingRepeat
    ensures step.Tick? ==> QueuedBy(c, s, step) == []
  {
    hide FanOut, Admitted, Relay, Seen, Expire, PulseIn;
  }

  /** Over any run each relay copy is sent at most once, in order of receipt, and the latest one is
      sent at the next tick: only copies overtaken before a tick are lost. */
  lemma {:induction false} RelaysAreLatest(c: Config, start: u32, steps: seq<Step>) returns (at: seq<int>)
    ensures LatestWins(at, QueueLog(c, start, steps), SendLog(c, start, steps), Run(c, start, steps).0.pendingRepeat)
  {
    hide AfterRecv, AfterTick, Run, QueuedBy, Do, LatestWins;
    if |steps| == 0 {
      RunOfNothing(c, start);
      at := [];
      LatestOfNothing<seq<u8>>();
    } else {
      var front, last := steps[..|steps| - 1], steps[|steps| - 1];
      at := RelaysAreLatest(c, start, front);
      RunStep(c, start, steps);
      var s := Run(c, start, front).0;
      RelayOfStep(c, s, last);
      var fs, sent := QueueLog(c, start, front), SendLog(c, start, front);
      assert fs + [] == fs && sent + [] == sent;
      if last.Tick? && s.pendingRepeat.Some? {
        LatestDrained(at, fs, sent, s.pendingRepeat.value);
        at := at + [|fs| - 1];
      } else if QueuedBy(c, s, last) != [] {
        LatestTaken(at, fs, sent, s.pendingRepeat, QueuedBy(c, s, last)[0]);
        assert QueuedBy(c, s, last) == [QueuedBy(c, s, last)[0]];
      }
    }
  }

  // ---------------------------------------------------------------------------
  // One relay for each pair
  // ---------------------------------------------------------------------------

  /** The source and sequence number a frame carries. */
  function PairOf(frame: seq<u8>): (m: Mark) {
    match DecodeHeader(frame)
    case Fail(_) => NO_MARK
    case Ok(h) => MarkOf(h)
  }

  /** A frame that, if it decodes at all, carries one of the given pairs. */
  predicate FromPairs(frame: seq<u8>, pairs: set<Mark>) {
    DecodeHeader(frame).Ok? ==> PairOf(frame) in pairs
  }

  predicate AllFromPairs(steps: seq<Step>, pairs: set<Mark>) {
    forall k :: 0 <= k < |steps| && steps[k].Recv? ==> FromPairs(steps[k].frame, pairs)
  }

  /** No more pairs than the ring has places, all of them sequenced. */
  predicate FitRing(pairs: set<Mark>) {
    |pairs| <= 16 && forall m :: m in pairs ==> m.sequence != 0
  }

  ghost predicate DistinctMarks(log: seq<Mark>, pairs: set<Mark>) {
    && (forall i, j :: 0 <= i < j < |log| ==> log[i] != log[j])
    && (forall k :: 0 <= k < |log| ==> log[k] in pairs)
  }

  lemma LogFits(log: seq<Mark>, pairs: set<Mark>)
    requires DistinctMarks(log, pairs) && FitRing(pairs)
    ensures |log| <= |pairs| <= RING
  {
    DistinctCount(log);
    SubsetSize(Elements(log), pairs);
  }

  lemma MarkedFromPairs(s: State, step: Step, pairs: set<Mark>)
    requires WellFormed(s) && (step.Recv? ==> FromPairs(step.frame, pairs))
    ensures forall m :: m in MarkedBy(s, step) ==> m in pairs && !Seen(s.ring, m)
    ensures |MarkedBy(s, step)| <= 1
  {
    hide Admit, Seen;
  }

  /** While no more pairs than ring places are heard, no pair is ever marked twice. */
  lemma {:induction false} MarksAreDistinct(c: Config, start: u32, steps: seq<Step>, pairs: set<Mark>)
    requires AllFromPairs(steps, pairs) && FitRing(pairs)
    ensures DistinctMarks(MarkLog(c, start, steps), pairs)
  {
    hide Run, MarkedBy, FromPairs, Seen, RingHolds, FitRing;
    if |steps| > 0 {
      var front, last := steps[..|steps| - 1], steps[|steps| - 1];
      MarksAreDistinct(c, start, front, pairs);
      var s, log := Run(c, start, front).0, MarkLog(c, start, front);
      MarkedFromPairs(s, last, pairs);
      LogFits(log, pairs);
      RingRuns(c, start, front);
      var ms := MarkedBy(s, last);
      if ms != [] {
        assert ms[0] in ms;
        SeenIsRecent(s.ring, s.head, log, ms[0]);
        assert forall k :: 0 <= k < |log| ==> Recent(log, k);
      }
    }
  }

  /** What a run has sent, and what it would send next. */
  function Outgoing(c: Config, start: u32, steps: seq<Step>): (fs: seq<seq<u8>>) {
    var pending := Run(c, start, steps).0.pendingRepeat;
    SendLog(c, start, steps) + if pending.Some? then [pending.value] else []
  }

  ghost predicate DistinctPairs(fs: seq<seq<u8>>, log: seq<Mark>) {
    && (forall i, j :: 0 <= i < j < |fs| ==> PairOf(fs[i]) != PairOf(fs[j]))
    && (forall k :: 0 <= k < |fs| ==> PairOf(fs[k]) in log)
  }

  lemma QueuedIsMarked(c: Config, s: State, step: Step, pairs: set<Mark>)
    requires WellFormed(s) && (step.Recv? ==> FromPairs(step.frame, pairs)) && FitRing(pairs)
    ensures var q, ms := QueuedBy(c, s, step), MarkedBy(s, step);
            |q| <= 1 && (q != [] ==> ms != [] && PairOf(q[0]) == ms[0])
  {
    hide Seen, DecodeHeader;
    if step.Recv? && Admitted(s, step.frame, step.now).Some? {
      var h := Admitted(s, step.frame, step.now).value;
      assert MarkOf(h) in pairs;
      if h.hops < MAX_HOPS {
        HopRewrite(step.frame, h.hops + 1);
      }
    }
  }

  lemma PairsReplaced(sent: seq<seq<u8>>, pending: seq<seq<u8>>, f: seq<u8>, log: seq<Mark>, m: Mark)
    requires DistinctPairs(sent + pending, log) && m !in log && PairOf(f) == m
    ensures DistinctPairs(sent + [f], log + [m])
  {
    hide PairOf;
    var was, fs := sent + pending, sent + [f];
    assert forall k :: 0 <= k < |sent| ==> fs[k] == was[k] && PairOf(was[k]) in log;
  }

  lemma PairsKept(fs: seq<seq<u8>>, log: seq<Mark>, more: seq<Mark>)
    requires DistinctPairs(fs, log)
    ensures DistinctPairs(fs, log + more)
  {
    hide PairOf;
  }

  /** Then each pair is relayed at most once by the node. */
  lemma {:induction false} RelayedOnce(c: Config, start: u32, steps: seq<Step>, pairs: set<Mark>)
    requires AllFromPairs(steps, pairs) && FitRing(pairs)
    ensures DistinctPairs(Outgoing(c, start, steps), MarkLog(c, start, steps))
  {
    hide Run, MarkedBy, FromPairs, FitRing, Do, QueuedBy, PairOf, DistinctPairs;
    if |steps| == 0 {
      RunOfNothing(c, start);
      assert DistinctPairs([], []) by {
        NoPairs();
      }
    } else {
      var front, last := steps[..|steps| - 1], steps[|steps| - 1];
      RelayedOnce(c, start, front, pairs);
      RunStep(c, start, steps);
      var s, log := Run(c, start, front).0, MarkLog(c, start, front);
      RelayOfStep(c, s, last);
      QueuedIsMarked(c, s, last, pairs);
      MarksAreDistinct(c, start, steps, pairs);
      var sent, ms, q := SendLog(c, start, front), MarkedBy(s, last), QueuedBy(c, s, last);
      var pending := if s.pendingRepeat.Some? then [s.pendingRepeat.value] else [];
      if q != [] {
        MarkedFromPairs(s, last, pairs);
        assert ms == [ms[0]];
        NewMark(log, ms[0], pairs);
        PairsReplaced(sent, pending, q[0], log, ms[0]);
        assert Outgoing(c, start, steps) == sent + [q[0]];
      } else {
        PairsKept(sent + pending, log, ms);
        assert Outgoing(c, start, steps) == sent + pending;
      }
    }
  }

  lemma NoPairs()
    ensures DistinctPairs([], [])
  {
  }

  lemma NewMark(log: seq<Mark>, m: Mark, pairs: set<Mark>)
    requires DistinctMarks(log + [m], pairs)
    ensures m !in log
  {
    var all := log + [m];
    forall k | 0 <= k < |log| ensures log[k] != m {
      assert all[k] != all[|log|];
    }
  }

  // ---------------------------------------------------------------------------
  // Admission
  // ---------------------------------------------------------------------------

  /** Frames the show never sees: undecodable, management or over-hopped ones, broadcasts, community
      sources on channel 11, and, under a lock, those of any other source. */
  predicate Refused(s: State, frame: seq<u8>) {
    match DecodeHeader(frame)
    case Fail(_) => true
    case Ok(h) =>
      || Management(h.messageType) || h.hops > MAX_HOPS
      || h.source == 0xFFFF || (s.channel == 11 && !(0x40 <= h.source <= 0xFE))
      || (s.tofu.hasLock && h.source != s.tofu.lockedId)
  }

  /** A run without the frames that were refused in it. */
  function Heeded(c: Config, start: u32, steps: seq<Step>): (kept: seq<Step>) {
    if |steps| == 0 then []
    else
      var front, last := steps[..|steps| - 1], steps[|steps| - 1];
      Heeded(c, start, front) + if last.Recv? && Refused(Run(c, start, front).0, last.frame) then [] else [last]
  }

  lemma RefusedStep(c: Config, s: State, frame: seq<u8>, now: u32)
    requires WellFormed(s)
    ensures Refused(s, frame) <==> Admitted(s, frame, now).None?
    ensures Refused(s, frame) ==> AfterRecv(c, s, frame, now) == (s, [])
  {
    hide DecodeHeader;
  }

  /** Leaving the refused frames out of a run changes neither its state nor anything it did; every
      frame that is left was admitted. */
  lemma {:induction false} RefusedIsInert(c: Config, start: u32, steps: seq<Step>)
    ensures Run(c, start, Heeded(c, start, steps)) == Run(c, start, steps)
    ensures var kept := Heeded(c, start, steps);
            forall k :: 0 <= k < |kept| && kept[k].Recv? ==>
                          Admitted(Run(c, start, kept[..k]).0, kept[k].frame, kept[k].now).Some?
  {
    hide AfterRecv, AfterTick, Refused, Run, Admitted;
    if |steps| > 0 {
      var front, last := steps[..|steps| - 1], steps[|steps| - 1];
      RefusedIsInert(c, start, front);
      RunStep(c, start, steps);
      var (s, outs) := Run(c, start, front);
      var before, kept := Heeded(c, start, front), Heeded(c, start, steps);
      if last.Recv? {
        RefusedStep(c, s, last.frame, last.now);
      }
      if last.Recv? && Refused(s, last.frame) {
        assert outs + [] == outs && kept == before;
      } else {
        assert kept == before + [last] && kept[..|before|] == before;
        RunStep(c, start, kept);
        forall k | 0 <= k < |kept| && kept[k].Recv?
          ensures Admitted(Run(c, start, kept[..k]).0, kept[k].frame, kept[k].now).Some?
        {
          if k < |before| {
            assert kept[..k] == before[..k];
          }
        }
      }
    }
  }

  /** A held lock names the source of the last admitted frame and its time. */
  predicate LockIsLast(s: State) {
    s.tofu.hasLock ==> s.rx > 0 && s.tofu.lockedId == s.lastSource && s.tofu.lastFrame == s.lastRx
  }

  lemma LockIsLastKept(c: Config, s: State, step: Step)
    requires WellFormed(s) && LockIsLast(s)
    ensures LockIsLast(Do(c, s, step).0)
  {
    match step {
      case Recv(frame, now) => RecvKeepsLock(c, s, frame, now);
      case Tick(now) => TickKeepsLock(c, s, now);
    }
  }

  lemma RecvKeepsLock(c: Config, s: State, frame: seq<u8>, now: u32)
    requires WellFormed(s) && LockIsLast(s)
    ensures LockIsLast(AfterRecv(c, s, frame, now).0)
  {
    hide Handled, DecodeHeader;
    if Admitted(s, frame, now).Some? {
      var h := Admitted(s, frame, now).value;
      HandledKeeps(c, Alive(s, h, now), h, frame);
    }
  }

  lemma TickKeepsLock(c: Config, s: State, now: u32)
    requires WellFormed(s) && LockIsLast(s)
    ensures LockIsLast(AfterTick(c, s, now).0)
  {
    hide FanOut, Age, Elapsed;
  }

  lemma {:induction false} LockRuns(c: Config, start: u32, steps: seq<Step>)
    ensures LockIsLast(Run(c, start, steps).0)
  {
    hide AfterRecv, AfterTick, LockIsLast;
    if |steps| == 0 {
      assert LockIsLast(Enter(c, start)) by {
        FreshLock(c, start);
      }
    } else {
      LockRuns(c, start, steps[..|steps| - 1]);
      LockIsLastKept(c, Run(c, start, steps[..|steps| - 1]).0, steps[|steps| - 1]);
    }
  }

  lemma FreshLock(c: Config, start: u32)
    ensures LockIsLast(Enter(c, start))
  {
  }

  /** No tick among the steps finds the given time ten seconds or more in the past. */
  predicate NoLongSilence(steps: seq<Step>, since: u32) {
    forall k :: 0 <= k < |steps| && steps[k].Tick? ==> steps[k].now - since < 10000
  }

  /** Continue a run. */
  function RunFrom(c: Config, s: State, steps: seq<Step>): (s': State)
    requires WellFormed(s)
    ensures WellFormed(s')
  {
    if |steps| == 0 then s else Do(c, RunFrom(c, s, steps[..|steps| - 1]), steps[|steps| - 1]).0
  }

  /** Whether any of the steps admits a frame. */
  predicate AdmitsAny(c: Config, s: State, steps: seq<Step>)
    requires WellFormed(s)
  {
    |steps| > 0 &&
    (AdmitsAny(c, s, steps[..|steps| - 1])
     || (steps[|steps| - 1].Recv?
         && Admitted(RunFrom(c, s, steps[..|steps| - 1]), steps[|steps| - 1].frame, steps[|steps| - 1].now).Some?))
  }

  lemma {:induction false} LockLasts(c: Config, s: State, steps: seq<Step>)
    requires WellFormed(s) && LockIsLast(s) && s.tofu.hasLock
    requires NoLongSilence(steps, s.lastRx) && !AdmitsAny(c, s, steps)
    ensures var s' := RunFrom(c, s, steps);
            s'.tofu == s.tofu && s'.channel == s.channel && s'.rx == s.rx && s'.lastRx == s.lastRx
  {
    if |steps| > 0 {
      var front, last := steps[..|steps| - 1], steps[|steps| - 1];
      LockLasts(c, s, front);
      hide RunFrom, FanOut;
      UnheardStep(c, RunFrom(c, s, front), last);
      LastOfRun(c, s, steps);
    }
  }

  lemma LastOfRun(c: Config, s: State, steps: seq<Step>)
    requires WellFormed(s) && |steps| > 0
    ensures RunFrom(c, s, steps) == Do(c, RunFrom(c, s, steps[..|steps| - 1]), steps[|steps| - 1]).0
  {
  }

  lemma UnheardStep(c: Config, s: State, step: Step)
    requires WellFormed(s) && s.rx > 0 && s.tofu.lastFrame == s.lastRx
    requires step.Recv? ==> Admitted(s, step.frame, step.now).None?
    requires step.Tick? ==> Age(step.now, s.lastRx) < LOCK_TIMEOUT
    ensures var s' := Do(c, s, step).0;
            s'.tofu == s.tofu && s'.channel == s.channel && s'.rx == s.rx && s'.lastRx == s.lastRx
  {
    hide FanOut, Admitted;
  }

  lemma AdmissionLocks(c: Config, s: State, frame: seq<u8>, now: u32)
    requires WellFormed(s) && Admitted(s, frame, now).Some?
    ensures var s' := AfterRecv(c, s, frame, now).0;
            s'.tofu.hasLock && s'.lastSource == Admitted(s, frame, now).value.source && s'.lastRx == now
  {
    hide Handled, DecodeHeader;
    HandledKeeps(c, Alive(s, Admitted(s, frame, now).value, now), Admitted(s, frame, now).value, frame);
  }

  /** One director at a time: between two admitted frames that no other admitted frame separates,
      the source can change only across a tick that found ten seconds of silence. */
  lemma SourceChangeNeedsSilence(c: Config, s: State, frame: seq<u8>, now: u32, steps: seq<Step>,
                                 frame': seq<u8>, now': u32)
    requires WellFormed(s) && LockIsLast(s) && Admitted(s, frame, now).Some?
    requires !AdmitsAny(c, AfterRecv(c, s, frame, now).0, steps)
    requires Admitted(RunFrom(c, AfterRecv(c, s, frame, now).0, steps), frame', now').Some?
    requires Admitted(RunFrom(c, AfterRecv(c, s, frame, now).0, steps), frame', now').value.source
             != Admitted(s, frame, now).value.source
    ensures !NoLongSilence(steps, now)
  {
    var s1 := AfterRecv(c, s, frame, now).0;
    AdmissionLocks(c, s, frame, now);
    LockIsLastKept(c, s, Recv(frame, now));
    hide AfterRecv, RunFrom, AdmitsAny;
    if NoLongSilence(steps, now) {
      LockLasts(c, s1, steps);
    }
  }

  // ---------------------------------------------------------------------------
  // Coming back to the mode
  // ---------------------------------------------------------------------------

  /** Entering again: everything starts over but the repaint flag and the relay count. */
  function Reenter(s: State, c: Config, now: u32): (s': State)
    ensures WellFormed(s')
  {
    Enter(c, now).(repaint := s.repaint, relayed := s.relayed)
  }

  /** The same but for the repaint flag, with n more relays counted. */
  predicate Echoes(a: State, b: State, n: nat) {
    a == b.(repaint := a.repaint, relayed := a.relayed) && a.relayed == b.relayed + n
  }

  lemma AliveEchoes(a: State, b: State, n: nat, h: Header, now: u32)
    requires Echoes(a, b, n)
    ensures Echoes(Alive(a, h, now), Alive(b, h, now), n)
  {
    hide Admit;
  }

  lemma HandledEchoes(c: Config, a: State, b: State, n: nat, h: Header, frame: seq<u8>)
    requires WellFormed(a) && WellFormed(b) && Echoes(a, b, n) && |frame| >= HEADER_SIZE && h.hops <= MAX_HOPS
    ensures Echoes(Handled(c, a, h, frame).0, Handled(c, b, h, frame).0, n)
    ensures Handled(c, a, h, frame).1 == Handled(c, b, h, frame).1
  {
    hide FanOut, Relay, PulseIn, Seen, Marked, Echoes;
    EchoesRing(a, b, n);
    var m, relay, pulse := MarkOf(h), Relay(c, h, frame), PulseIn(h, frame);
    MarkedEchoes(a, b, n, m);
    EchoesQueues(Marked(a, m), Marked(b, m), n, relay, pulse);
  }

  lemma EchoesRing(a: State, b: State, n: nat)
    requires Echoes(a, b, n)
    ensures a.ring == b.ring
  {
  }

  lemma MarkedEchoes(a: State, b: State, n: nat, m: Mark)
    requires WellFormed(a) && WellFormed(b) && Echoes(a, b, n)
    ensures Echoes(Marked(a, m), Marked(b, m), n)
  {
  }

  lemma EchoesQueues(a: State, b: State, n: nat, relay: Option<seq<u8>>, pulse: Option<Pulse>)
    requires Echoes(a, b, n)
    ensures Echoes(a.(pendingRepeat := relay), b.(pendingRepeat := relay), n)
    ensures Echoes(a.(pendingLight := pulse), b.(pendingLight := pulse), n)
    ensures Echoes(a.(pendingRepeat := relay).(pendingLight := pulse), b.(pendingRepeat := relay).(pendingLight := pulse), n)
  {
  }

  lemma RecvEchoes(c: Config, a: State, b: State, n: nat, frame: seq<u8>, now: u32)
    requires WellFormed(a) && WellFormed(b) && Echoes(a, b, n)
    ensures Echoes(AfterRecv(c, a, frame, now).0, AfterRecv(c, b, frame, now).0, n)
    ensures AfterRecv(c, a, frame, now).1 == AfterRecv(c, b, frame, now).1
  {
    assert Admitted(a, frame, now) == Admitted(b, frame, now) by {
      hide DecodeHeader, Admit;
    }
    assert a.fallbackActive == b.fallbackActive;
    hide Admitted, Alive, Handled, Echoes;
    var admitted := Admitted(b, frame, now);
    if admitted.Some? {
      AliveEchoes(a, b, n, admitted.value, now);
      HandledEchoes(c, Alive(a, admitted.value, now), Alive(b, admitted.value, now), n, admitted.value, frame);
    }
  }

  lemma DrainEchoes(c: Config, a: State, b: State, n: nat)
    requires WellFormed(a) && WellFormed(b) && Echoes(a, b, n)
    ensures Echoes(Drain(c, a).0, Drain(c, b).0, n) && Drain(c, a).1 == Drain(c, b).1
  {
    hide FanOut;
  }

  lemma FallbackEchoes(a: State, b: State, n: nat, age: nat)
    requires WellFormed(a) && WellFormed(b) && Echoes(a, b, n)
    ensures Echoes(Fallback(a, age).0, Fallback(b, age).0, n) && Fallback(a, age).1 == Fallback(b, age).1
  {
  }

  lemma ScanEchoes(c: Config, a: State, b: State, n: nat, age: nat, now: u32)
    requires WellFormed(a) && WellFormed(b) && Echoes(a, b, n)
    ensures Echoes(Scan(c, a, age, now).0, Scan(c, b, age, now).0, n) && Scan(c, a, age, now).1 == Scan(c, b, age, now).1
  {
    hide NextChannel, Elapsed;
  }

  lemma EchoesLock(a: State, b: State, n: nat, now: u32)
    requires Echoes(a, b, n)
    ensures Echoes(a.(tofu := Expire(a.tofu, now)), b.(tofu := Expire(b.tofu, now)), n)
  {
    hide Expire;
  }

  lemma EchoesAgree(a: State, b: State, n: nat, now: u32)
    requires Echoes(a, b, n)
    ensures a.rx == b.rx && a.lastRx == b.lastRx && a.noSignal == b.noSignal
    ensures Echoes(a.(noSignal := true, lastSwitch := now), b.(noSignal := true, lastSwitch := now), n)
  {
  }

  lemma TickEchoes(c: Config, a: State, b: State, n: nat, now: u32)
    requires WellFormed(a) && WellFormed(b) && Echoes(a, b, n)
    ensures Echoes(AfterTick(c, a, now).0, AfterTick(c, b, now).0, n)
    ensures AfterTick(c, a, now).1 == AfterTick(c, b, now).1
  {
    hide Echoes, Drain, Fallback, Scan, Expire, Age;
    DrainEchoes(c, a, b, n);
    var a1, b1 := Drain(c, a).0, Drain(c, b).0;
    EchoesAgree(a1, b1, n, now);
    var age := Age(now, b1.lastRx);
    FallbackEchoes(a1, b1, n, age);
    var a2, b2 := Fallback(a1, age).0, Fallback(b1, age).0;
    ScanEchoes(c, a2, b2, n, age, now);
    EchoesLock(Scan(c, a2, age, now).0, Scan(c, b2, age, now).0, n, now);
  }

  lemma DoEchoes(c: Config, a: State, b: State, n: nat, step: Step)
    requires WellFormed(a) && WellFormed(b) && Echoes(a, b, n)
    ensures Echoes(Do(c, a, step).0, Do(c, b, step).0, n) && Do(c, a, step).1 == Do(c, b, step).1
  {
    hide Echoes, AfterRecv, AfterTick;
    match step
    case Recv(frame, now) => RecvEchoes(c, a, b, n, frame, now);
    case Tick(now) => TickEchoes(c, a, b, n, now);
  }

  /** What a run from a state puts out. */
  function OutsFrom(c: Config, s: State, steps: seq<Step>): (outs: seq<Out>)
    requires WellFormed(s)
  {
    if |steps| == 0 then []
    else
      var front := steps[..|steps| - 1];
      OutsFrom(c, s, front) + Do(c, RunFrom(c, s, front), steps[|steps| - 1]).1
  }

  /** Whatever an earlier session left behind, a session entered again does over any run exactly
      what a first one does: nothing queued, seen, locked or timed before is carried over. */
  lemma {:induction false} ReentryIsFresh(c: Config, before: State, start: u32, steps: seq<Step>)
    ensures OutsFrom(c, Reenter(before, c, start), steps) == Run(c, start, steps).1
    ensures Echoes(RunFrom(c, Reenter(before, c, start), steps), Run(c, start, steps).0, before.relayed)
  {
    if |steps| > 0 {
      var front, last := steps[..|steps| - 1], steps[|steps| - 1];
      ReentryIsFresh(c, before, start, front);
      hide Echoes, Do, Reenter;
      DoEchoes(c, RunFrom(c, Reenter(before, c, start), front), Run(c, start, front).0, before.relayed, last);
    }
  }

  // ---------------------------------------------------------------------------
  // The classes
  // ---------------------------------------------------------------------------

  class TofuLock {
    var hasLock: bool
    var lockedId: u16
    var lastFrame: u32

    ghost function Value(): (t: Tofu)
      reads this
    {
      Tofu(hasLock, lockedId, lastFrame)
    }

    constructor ()
      ensures Value() == UNLOCKED
    {
      hasLock, lockedId, lastFrame := false, 0, 0;
    }

    method TryAdmit(source: u16, channel: u8, now: u32) returns (ok: bool)
      modifies this
      ensures (ok, Value()) == Admit(old(Value()), source, channel, now)
    {
      if source == BROADCAST {
        return false;
      }
      if channel == 11 && !(0x40 <= source <= 0xFE) {
        return false;
      }
      if !hasLock {
        hasLock, lockedId, lastFrame := true, source, now;
        return true;
      }
      if source != lockedId {
        return false;
      }
      lastFrame := now;
      return true;
    }

    method CheckExpiry(now: u32) returns (expired: bool)
      modifies this
      ensures Value() == Expire(old(Value()), now)
      ensures expired <==> old(hasLock) && !hasLock
    {
      if !hasLock {
        return false;
      }
      if Age(now, lastFrame) >= LOCK_TIMEOUT {
        hasLock, lockedId, lastFrame := false, 0, 0;
        return true;
      }
      return false;
    }

    method Clear()
      modifies this
      ensures Value() == UNLOCKED
    {
      hasLock, lockedId, lastFrame := false, 0, 0;
    }
  }

  class LumeMode {
    var config: Config
    const tofu: TofuLock
    const ring: array<Mark>
    const repeatBuf: array<u8>
    var rx: nat
    var lastRx: u32
    var lastSource: u16
    var lastType: u8
    var lockAcquired: u32
    var noSignal: bool
    var fallbackActive: bool
    var fallbackFaded: bool
    var repaint: bool
    var head: nat
    var pendingLight: bool
    var lightPayload: Pulse
    var pendingRepeat: bool
    var repeatLen: nat
    var relayed: nat
    var channel: u8
    var lastSwitch: u32

    ghost predicate Valid()
      reads this
    {
      ring.Length == RING && head < RING && repeatBuf.Length == REPEAT_BUF && repeatLen <= REPEAT_BUF
    }

    ghost function Abs(): (s: State)
      reads this, tofu, ring, repeatBuf
      requires Valid()
      ensures WellFormed(s)
    {
      State(rx, lastRx, lastSource, lastType, lockAcquired, noSignal, fallbackActive, fallbackFaded, repaint,
            tofu.Value(), ring[..], head,
            if pendingLight then Some(lightPayload) else None,
            if pendingRepeat then Some(repeatBuf[..repeatLen]) else None,
            relayed, channel, lastSwitch)
    }

    constructor (config: Config, now: u32)
      ensures Valid() && this.config == config && fresh(tofu) && fresh(ring) && fresh(repeatBuf)
      ensures Abs() == Enter(config, now)
    {
      this.config := config;
      tofu := new TofuLock();
      ring := new Mark[RING](_ => NO_MARK);
      repeatBuf := new u8[REPEAT_BUF](_ => 0);
      rx, lastRx, lastSource, lastType, lockAcquired := 0, 0, 0, 0xFF, 0;
      noSignal, fallbackActive, fallbackFaded, repaint := false, false, false, false;
      head, pendingLight, pendingRepeat, repeatLen, relayed := 0, false, false, 0, 0;
      lightPayload := Pulse(0, 0, 0, 0, 0, 0, 0, 0, 0, 0, 0, 0);
      channel := if config.channelPref == 0 then 11 else config.channelPref;
      lastSwitch := now;
    }

    /** Enter the mode again, with the settings as they are stored now. */
    method EnterSession(config: Config, now: u32)
      requires Valid()
      modifies this, tofu, ring
      ensures Valid() && this.config == config
      ensures Abs() == Reenter(old(Abs()), config, now)
    {
      hide Reenter;
      ghost var was := Abs();
      ClearLiveness();
      tofu.Clear();
      ClearRing();
      ClearQueues();
      TuneFirst(config, now);
      EnteredIs(was, Abs(), config, now);
    }

    method ClearLiveness()
      modifies this`rx, this`lastRx, this`lastSource, this`lastType, this`lockAcquired, this`noSignal
      modifies this`fallbackActive, this`fallbackFaded
      ensures rx == 0 && lastRx == 0 && lastSource == 0 && lastType == 0xFF && lockAcquired == 0
      ensures !noSignal && !fallbackActive && !fallbackFaded
    {
      rx, lastRx, lastSource, lastType, lockAcquired := 0, 0, 0, 0xFF, 0;
      noSignal, fallbackActive, fallbackFaded := false, false, false;
    }

    method ClearQueues()
      modifies this`head, this`pendingLight, this`pendingRepeat, this`repeatLen
      ensures head == 0 && !pendingLight && !pendingRepeat && repeatLen == 0
    {
      head, pendingLight, pendingRepeat, repeatLen := 0, false, false, 0;
    }

    method TuneFirst(config: Config, now: u32)
      modifies this`config, this`channel, this`lastSwitch
      ensures this.config == config && lastSwitch == now
      ensures channel == if config.channelPref == 0 then 11 else config.channelPref
    {
      this.config := config;
      channel := if config.channelPref == 0 then 11 else config.channelPref;
      lastSwitch := now;
    }

    method ClearRing()
      requires ring.Length == RING
      modifies ring
      ensures ring[..] == seq(RING, i => NO_MARK)
    {
      for i := 0 to RING
        invariant forall k :: 0 <= k < i ==> ring[k] == NO_MARK
      {
        ring[i] := NO_MARK;
      }
    }

    method SeenRecently(m: Mark) returns (seen: bool)
      requires Valid()
      ensures seen <==> Seen(ring[..], m)
    {
      if m.sequence == 0 {
        return false;
      }
      for i := 0 to RING
        invariant m !in ring[..i]
      {
        if ring[i] == m {
          return true;
        }
        assert ring[..i + 1] == ring[..i] + [ring[i]];
      }
      assert ring[..RING] == ring[..];
      return false;
    }

    method MarkSeen(m: Mark)
      requires Valid()
      modifies this`head, ring
      ensures Valid() && Abs() == Marked(old(Abs()), m)
    {
      if m.sequence == 0 {
        return;
      }
      ring[head] := m;
      head := (head + 1) % RING;
    }

    /** Hand a pulse to the bindings of one of the two sides. */
    method FanOutPulse(p: Pulse, inCallback: bool) returns (outs: seq<Out>)
      ensures outs == FanOut(config, p, inCallback, |config.bindings|)
    {
      outs := [];
      for i := 0 to |config.bindings|
        invariant outs == FanOut(config, p, inCallback, i)
      {
        var b := config.bindings[i];
        if b.inCallback != inCallback { continue; }
        if p.targetClass != 0 && p.targetClass != b.deviceClass { continue; }
        if !b.relay {
          if p.targetGroup != 0 && p.targetGroup != config.group { continue; }
        }
        outs := outs + [Fire(i, p.targetClass, p.targetGroup % 256, p)];
      }
    }

    /** Refresh liveness for an admitted frame, whose source the lock has already taken. */
    method NoteAlive(h: Header, now: u32) returns (outs: seq<Out>)
      requires Valid()
      modifies this`rx, this`lastRx, this`noSignal, this`fallbackActive, this`fallbackFaded, this`lockAcquired
      modifies this`repaint, this`lastSource, this`lastType
      ensures Valid() && Abs() == Refreshed(old(Abs()), h, now)
      ensures outs == if old(fallbackActive) then [FallbackRecovery] else []
    {
      outs := StampFields(h, now);
    }

    method StampFields(h: Header, now: u32) returns (outs: seq<Out>)
      modifies this`rx, this`lastRx, this`noSignal, this`fallbackActive, this`fallbackFaded, this`lockAcquired
      modifies this`repaint, this`lastSource, this`lastType
      ensures rx == old(rx) + 1 && lastRx == now && !noSignal && !fallbackActive
      ensures fallbackFaded == if old(fallbackActive) then false else old(fallbackFaded)
      ensures lockAcquired == if old(noSignal) || old(rx) == 0 then now else old(lockAcquired)
      ensures repaint == (old(repaint) || old(noSignal))
      ensures lastSource == h.source && lastType == h.messageType
      ensures outs == if old(fallbackActive) then [FallbackRecovery] else []
    {
      outs := [];
      rx := rx + 1;
      lastRx := now;
      var wasNoSignal := noSignal;
      noSignal := false;
      if fallbackActive {
        fallbackActive := false;
        fallbackFaded := false;
        outs := [FallbackRecovery];
      }
      if wasNoSignal || rx == 1 {
        lockAcquired := lastRx;
      }
      if wasNoSignal {
        repaint := true;
      }
      lastSource := h.source;
      lastType := h.messageType;
    }

    /** Queue the relay copy, with the hop count raised in place. */
    method QueueRelay(h: Header, frame: seq<u8>)
      requires Valid() && |frame| >= HEADER_SIZE && h.hops <= MAX_HOPS
      modifies this`pendingRepeat, this`repeatLen, repeatBuf
      ensures Valid()
      ensures var relay := Relay(config, h, frame);
              Abs() == if relay.Some? then old(Abs()).(pendingRepeat := relay) else old(Abs())
    {
      if config.repeats && h.hops < MAX_HOPS && |frame| <= REPEAT_BUF {
        CopyInto(repeatBuf, 0, frame);
        ghost var copied := repeatBuf[..];
        SetHopCount(repeatBuf, |frame|, h.hops + 1);
        repeatLen := |frame|;
        pendingRepeat := true;
        assert copied[..|frame|] == frame;
        assert repeatBuf[..repeatLen] == copied[HOP_OFFSET := h.hops + 1][..|frame|] == frame[HOP_OFFSET := h.hops + 1];
      }
    }

    /** Decode and admit: the source lock moves only with an admitted frame. */
    method Admission(frame: seq<u8>, now: u32) returns (admitted: Option<Header>)
      requires Valid()
      modifies tofu
      ensures Valid() && admitted == Admitted(old(Abs()), frame, now)
      ensures Abs() == if admitted.Some?
                       then old(Abs()).(tofu := Admit(old(Abs()).tofu, admitted.value.source, channel, now).1)
                       else old(Abs())
    {
      hide DecodeHeader, Admit;
      var header := DecodeHeader(frame);
      if header.Fail? {
        return None;
      }
      var h := header.value;
      if Management(h.messageType) {
        return None;
      }
      if h.hops > MAX_HOPS {
        return None;
      }
      var ok := tofu.TryAdmit(h.source, channel, now);
      if !ok {
        RefusedLeavesLock(old(tofu.Value()), h.source, channel, now);
        return None;
      }
      return Some(h);
    }

    /** Duplicate suppression, relay and dispatch of an admitted frame that liveness has noted. */
    method HandleUnique(h: Header, frame: seq<u8>) returns (outs: seq<Out>)
      requires Valid() && |frame| >= HEADER_SIZE && h.hops <= MAX_HOPS
      modifies this`head, this`pendingRepeat, this`repeatLen, this`pendingLight, this`lightPayload, ring, repeatBuf
      ensures Valid() && (Abs(), outs) == Handled(config, old(Abs()), h, frame)
    {
      hide FanOut, Relay, Seen, Marked, PulseIn;
      outs := [];
      var duplicate := SeenRecently(MarkOf(h));
      if duplicate {
        return;
      }
      MarkSeen(MarkOf(h));
      QueueRelay(h, frame);
      outs := DispatchPulse(h, frame);
    }

    method OnRecv(frame: seq<u8>, now: u32) returns (outs: seq<Out>)
      requires Valid()
      modifies this, tofu, ring, repeatBuf
      ensures Valid() && config == old(config)
      ensures (Abs(), outs) == AfterRecv(config, old(Abs()), frame, now)
    {
      hide Admitted, Handled, Alive, Refreshed, Admit;
      outs := [];
      ghost var s := old(Abs());
      var admitted := Admission(frame, now);
      if admitted.None? {
        return;
      }
      var h := admitted.value;
      RefreshedLock(s, h, now, Admit(s.tofu, h.source, s.channel, now).1);
      outs := NoteAlive(h, now);
      var more := HandleUnique(h, frame);
      outs := outs + more;
    }

    /** Fire the callback-safe bindings at once and queue the pulse for the others. */
    method DispatchPulse(h: Header, frame: seq<u8>) returns (inline: seq<Out>)
      requires Valid() && |frame| >= HEADER_SIZE
      modifies this`pendingLight, this`lightPayload
      ensures Valid()
      ensures var pulse := PulseIn(h, frame);
              && Abs() == (if pulse.Some? then old(Abs()).(pendingLight := pulse) else old(Abs()))
              && inline == (if pulse.Some? then FanOut(config, pulse.value, true, |config.bindings|) else [])
    {
      hide FanOut, DecodePulse;
      inline := [];
      if h.messageType == LIGHT_PULSE && |frame| == HEADER_SIZE + PULSE_LEN {
        var decoded := DecodePulse(h, frame[HEADER_SIZE..]);
        if decoded.Ok? {
          inline := FanOutPulse(decoded.value, true);
          lightPayload := decoded.value;
          pendingLight := true;
        }
      }
    }

    method DispatchQueued() returns (outs: seq<Out>)
      requires Valid()
      modifies this`pendingLight
      ensures Valid() && (Abs(), outs) == DrainLight(config, old(Abs()))
    {
      hide FanOut;
      outs := [];
      if pendingLight {
        pendingLight := false;
        outs := FanOutPulse(lightPayload, false);
      }
    }

    method SendQueued() returns (outs: seq<Out>)
      requires Valid()
      modifies this`repaint, this`pendingRepeat, this`relayed
      ensures Valid() && (Abs(), outs) == DrainRelay(old(Abs()))
    {
      outs := [];
      repaint := false;
      if pendingRepeat {
        pendingRepeat := false;
        outs := [Send(repeatBuf[..repeatLen])];
        relayed := relayed + 1;
      }
    }

    method DrainQueues() returns (outs: seq<Out>)
      requires Valid()
      modifies this`pendingLight, this`repaint, this`pendingRepeat, this`relayed
      ensures Valid() && (Abs(), outs) == Drain(config, old(Abs()))
    {
      hide DrainLight, DrainRelay;
      outs := DispatchQueued();
      var sends := SendQueued();
      outs := outs + sends;
    }

    method FallbackEdges(age: nat) returns (outs: seq<Out>)
      requires Valid()
      modifies this`fallbackActive, this`fallbackFaded
      ensures Valid() && (Abs(), outs) == Fallback(old(Abs()), age)
    {
      outs := [];
      if rx > 0 {
        if !fallbackActive && age > FALLBACK_ENTER_MS {
          fallbackActive := true;
          outs := [FallbackStart];
        }
        assert outs + [] == outs;
        if fallbackActive && !fallbackFaded && age > FALLBACK_FADE_MS {
          fallbackFaded := true;
          outs := outs + [FallbackFade];
        }
      }
    }

    /** The entry after the current channel in the scan table. */
    method NextInScan() returns (next: u8)
      ensures next == NextChannel(channel)
    {
      var order := [11, 1, 6];
      assert order[0] == 11 && order[1] == 1 && order[2] == 6;
      var idx := 0;
      while idx < 3 && order[idx] != channel
        invariant 0 <= idx <= 3 && forall k :: 0 <= k < idx ==> order[k] != channel
      {
        idx := idx + 1;
      }
      idx := if idx == 3 then 0 else idx;
      idx := (idx + 1) % 3;
      next := order[idx];
    }

    method ScanChannels(age: nat, now: u32) returns (outs: seq<Out>)
      requires Valid()
      modifies this`channel, this`lastSwitch, tofu
      ensures Valid() && (Abs(), outs) == Scan(config, old(Abs()), age, now)
    {
      hide NextChannel, Elapsed;
      outs := [];
      var shouldRescan := rx > 0 && age > RESCAN_MS;
      var scanning := config.channelPref == 0 && (rx == 0 || shouldRescan);
      if scanning && Elapsed(now, lastSwitch) >= DWELL_MS {
        var next := NextInScan();
        channel := next;
        lastSwitch := now;
        tofu.Clear();
        outs := [Tune(next)];
      }
    }

    method LoopTick(now: u32) returns (outs: seq<Out>)
      requires Valid()
      modifies this, tofu
      ensures Valid() && config == old(config)
      ensures (Abs(), outs) == AfterTick(config, old(Abs()), now)
    {
      hide Drain, Fallback, Scan, Expire;
      outs := DrainQueues();
      var age := Age(now, lastRx);
      if rx > 0 && !noSignal && age > NO_SIGNAL_MS {
        noSignal := true;
        lastSwitch := now;
        return;
      }
      var edges := FallbackEdges(age);
      var tuned := ScanChannels(age, now);
      outs := outs + edges + tuned;
      var expired := tofu.CheckExpiry(now);
    }
  }

  lemma EnteredIs(was: State, s: State, c: Config, now: u32)
    requires s.rx == s.lastRx == s.lastSource == s.lockAcquired == 0 && s.lastType == 0xFF
    requires !s.noSignal && !s.fallbackActive && !s.fallbackFaded && s.repaint == was.repaint
    requires s.tofu == UNLOCKED && s.ring == seq(RING, i => NO_MARK) && s.head == 0
    requires s.pendingLight == None && s.pendingRepeat == None && s.relayed == was.relayed
    requires s.channel == (if c.channelPref == 0 then 11 else c.channelPref) && s.lastSwitch == now
    ensures s == Reenter(was, c, now)
  {
  }

  lemma RefreshedLock(s: State, h: Header, now: u32, t: Tofu)
    ensures Refreshed(s.(tofu := t), h, now) == Refreshed(s, h, now).(tofu := t)
    ensures t == Admit(s.tofu, h.source, s.channel, now).1 ==> Refreshed(s, h, now).(tofu := t) == Alive(s, h, now)
  {
  }

  lemma RefusedLeavesLock(t: Tofu, source: u16, channel: u8, now: u32)
    ensures !Admit(t, source, channel, now).0 ==> Admit(t, source, channel, now).1 == t
  {
  }
}
