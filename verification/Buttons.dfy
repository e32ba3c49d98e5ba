/** The single-button gesture detector: press, release, click, long press, and a hold after a
    double tap. */
module Buttons {
  import opened Bytes

  const DOUBLE_TAP_MS: nat := 400

  datatype ButtonEvent = Pressed | Released | Clicked | LongPressed | DoubleTapHeld

  datatype Gesture = Gesture(lastPressed: bool, pressedAt: u32, fired: bool, lastClicked: u32, second: bool)

  const IDLE: Gesture := Gesture(false, 0, false, 0, false)

  /** Forget a first click that was never followed up. */
  function Expired(g: Gesture, now: u32): (g': Gesture) {
    if g.lastClicked != 0 && !g.lastPressed && Elapsed(now, g.lastClicked) >= DOUBLE_TAP_MS then g.(lastClicked := 0) else g
  }

  function PressEdge(g: Gesture, now: u32): (r: (Gesture, seq<ButtonEvent>)) {
    (Gesture(true, now, false, g.lastClicked, g.lastClicked != 0 && Elapsed(now, g.lastClicked) < DOUBLE_TAP_MS), [Pressed])
  }

  function ReleaseEdge(g: Gesture, longMs: nat, now: u32): (r: (Gesture, seq<ButtonEvent>)) {
    var click := !g.fired && Elapsed(now, g.pressedAt) < longMs;
    (Gesture(false, g.pressedAt, g.fired, if click && !g.second then now else 0, false),
     if click then [Released, Clicked] else [Released])
  }

  function Hold(g: Gesture, longMs: nat, now: u32): (r: (Gesture, seq<ButtonEvent>)) {
    if Elapsed(now, g.pressedAt) < longMs then (g, [])
    else if g.second then (g.(fired := true, lastClicked := 0, second := false), [DoubleTapHeld])
    else (g.(fired := true), [LongPressed])
  }

  /** One poll of the pin. */
  function AfterPoll(g: Gesture, longMs: nat, pressed: bool, now: u32): (r: (Gesture, seq<ButtonEvent>)) {
    var (g', events) :=
      if pressed && !g.lastPressed then PressEdge(g, now)
      else if !pressed && g.lastPressed then ReleaseEdge(g, longMs, now)
      else if pressed && g.lastPressed && !g.fired then Hold(g, longMs, now)
      else (g, []);
    (Expired(g', now), events)
  }

  // ---------------------------------------------------------------------------
  // Runs
  // ---------------------------------------------------------------------------

  datatype Poll = Poll(pressed: bool, now: u32)

  datatype Stamped = Stamped(event: ButtonEvent, at: u32)

  /** Time is positive and does not go back. */
  predicate Timely(polls: seq<Poll>) {
    && (forall i :: 0 <= i < |polls| ==> polls[i].now > 0)
    && (forall i, j :: 0 <= i < j < |polls| ==> polls[i].now <= polls[j].now)
  }

  function Stamp(events: seq<ButtonEvent>, now: u32): (r: seq<Stamped>)
    ensures |r| == |events|
    ensures forall i :: 0 <= i < |r| ==> r[i] == Stamped(events[i], now)
  {
    if |events| == 0 then [] else Stamp(events[..|events| - 1], now) + [Stamped(events[|events| - 1], now)]
  }

  function Run(longMs: nat, polls: seq<Poll>): (r: (Gesture, seq<Stamped>)) {
    if |polls| == 0 then (IDLE, [])
    else
      var (g, trace) := Run(longMs, polls[..|polls| - 1]);
      var p := polls[|polls| - 1];
      var (g', events) := AfterPoll(g, longMs, p.pressed, p.now);
      (g', trace + Stamp(events, p.now))
  }

  /** Whether the press at place k is the second tap of a double tap: the event before it is a
      click less than 400 ms earlier, and the press of that click was not itself a second tap. */
  predicate SecondTap(trace: seq<Stamped>, k: nat)
    requires k < |trace|
  {
    && k >= 3 && trace[k - 1].event == Clicked
    && trace[k].at - trace[k - 1].at < 400
    && !SecondTap(trace, k - 3)
  }

  predicate IsHold(e: ButtonEvent) {
    e == LongPressed || e == DoubleTapHeld
  }

  /** What must precede the event at place k, and how long before. */
  predicate Lawful(trace: seq<Stamped>, k: nat, longMs: nat)
    requires k < |trace|
  {
    var e := trace[k];
    match e.event
    case Pressed => k == 0 || trace[k - 1].event == Released || trace[k - 1].event == Clicked
    case Released => k >= 1 && (trace[k - 1].event == Pressed || IsHold(trace[k - 1].event))
    case Clicked =>
      && k >= 2 && trace[k - 1] == Stamped(Released, e.at)
      && trace[k - 2].event == Pressed && e.at - trace[k - 2].at < longMs
    case LongPressed =>
      k >= 1 && trace[k - 1].event == Pressed && e.at - trace[k - 1].at >= longMs && !SecondTap(trace, k - 1)
    case DoubleTapHeld =>
      k >= 1 && trace[k - 1].event == Pressed && e.at - trace[k - 1].at >= longMs && SecondTap(trace, k - 1)
  }

  predicate AllLawful(trace: seq<Stamped>, longMs: nat) {
    forall k :: 0 <= k < |trace| ==> Lawful(trace, k, longMs)
  }

  /** How the detector's fields follow from what it has emitted up to some time. */
  predicate Explains(g: Gesture, trace: seq<Stamped>, time: u32) {
    var n := |trace|;
    && g.pressedAt <= time && g.lastClicked <= time
    && (forall k :: 0 <= k < n ==> 0 < trace[k].at <= time)
    && (g.lastPressed && !g.fired ==>
          n > 0 && trace[n - 1] == Stamped(Pressed, g.pressedAt) && g.second == SecondTap(trace, n - 1))
    && (g.lastPressed && g.fired ==>
          n > 1 && IsHold(trace[n - 1].event) && trace[n - 2] == Stamped(Pressed, g.pressedAt))
    && (!g.lastPressed ==>
          && (n == 0 || trace[n - 1].event == Released || trace[n - 1].event == Clicked)
          && (if n > 2 && trace[n - 1].event == Clicked then
                if SecondTap(trace, n - 3) then g.lastClicked == 0
                else g.lastClicked == trace[n - 1].at || (g.lastClicked == 0 && time - trace[n - 1].at >= 400)
              else g.lastClicked == 0))
  }

  lemma {:induction false} SecondTapPrefix(trace: seq<Stamped>, more: seq<Stamped>, k: nat)
    requires k < |trace|
    ensures SecondTap(trace + more, k) == SecondTap(trace, k)
  {
    var all := trace + more;
    assert all[k] == trace[k];
    if k >= 3 {
      assert all[k - 1] == trace[k - 1];
      SecondTapPrefix(trace, more, k - 3);
    }
  }

  lemma LawfulPrefix(trace: seq<Stamped>, more: seq<Stamped>, longMs: nat)
    requires AllLawful(trace, longMs)
    ensures forall k :: 0 <= k < |trace| ==> Lawful(trace + more, k, longMs)
  {
    forall k | 0 <= k < |trace| ensures Lawful(trace + more, k, longMs) {
      assert Lawful(trace, k, longMs);
      if k >= 1 {
        SecondTapPrefix(trace, more, k - 1);
      }
    }
  }

  lemma PressExplained(g: Gesture, trace: seq<Stamped>, longMs: nat, time: u32, now: u32)
    requires Explains(g, trace, time) && AllLawful(trace, longMs) && 0 < time <= now && !g.lastPressed
    ensures var g', trace' := PressEdge(g, now).0, trace + [Stamped(Pressed, now)];
            Explains(g', trace', now) && AllLawful(trace', longMs)
  {
    var more := [Stamped(Pressed, now)];
    LawfulPrefix(trace, more, longMs);
    var n := |trace|;
    if n >= 3 {
      SecondTapPrefix(trace, more, n - 3);
      assert Lawful(trace, n - 1, longMs);
    }
    if n == 1 || n == 2 {
      assert Lawful(trace, n - 1, longMs);
    }
  }

  lemma ReleaseExplained(g: Gesture, trace: seq<Stamped>, longMs: nat, time: u32, now: u32)
    requires Explains(g, trace, time) && AllLawful(trace, longMs) && 0 < time <= now && g.lastPressed
    ensures var (g', events) := ReleaseEdge(g, longMs, now);
            var trace' := trace + Stamp(events, now);
            Explains(g', trace', now) && AllLawful(trace', longMs)
  {
    hide Stamp;
    var events := ReleaseEdge(g, longMs, now).1;
    var more, n := Stamp(events, now), |trace|;
    LawfulPrefix(trace, more, longMs);
    SecondTapPrefix(trace, more, n - 1);
    var trace' := trace + more;
    assert trace'[n] == Stamped(Released, now) && trace'[n - 1] == trace[n - 1];
  }

  lemma HoldExplained(g: Gesture, trace: seq<Stamped>, longMs: nat, time: u32, now: u32)
    requires Explains(g, trace, time) && AllLawful(trace, longMs) && 0 < time <= now && g.lastPressed && !g.fired
    ensures var (g', events) := Hold(g, longMs, now);
            var trace' := trace + Stamp(events, now);
            Explains(g', trace', now) && AllLawful(trace', longMs)
  {
    hide Stamp;
    var events := Hold(g, longMs, now).1;
    var more, n := Stamp(events, now), |trace|;
    LawfulPrefix(trace, more, longMs);
    SecondTapPrefix(trace, more, n - 1);
    var trace' := trace + more;
    assert events == [] ==> trace' == trace;
  }

  lemma ExpiryExplained(g: Gesture, trace: seq<Stamped>, now: u32)
    requires Explains(g, trace, now)
    ensures Explains(Expired(g, now), trace, now)
  {
  }

  lemma LaterExplained(g: Gesture, trace: seq<Stamped>, time: u32, now: u32)
    requires Explains(g, trace, time) && time <= now
    ensures Explains(g, trace, now)
  {
  }

  lemma PollExplained(g: Gesture, trace: seq<Stamped>, longMs: nat, time: u32, p: Poll)
    requires Explains(g, trace, time) && AllLawful(trace, longMs) && 0 < time <= p.now
    ensures var (g', events) := AfterPoll(g, longMs, p.pressed, p.now);
            var trace' := trace + Stamp(events, p.now);
            Explains(g', trace', p.now) && AllLawful(trace', longMs)
  {
    hide Explains, AllLawful, Hold, ReleaseEdge, Expired;
    var now := p.now;
    assert trace + [] == trace;
    if p.pressed && !g.lastPressed {
      PressExplained(g, trace, longMs, time, now);
      assert Stamp([Pressed], now) == [Stamped(Pressed, now)];
      ExpiryExplained(PressEdge(g, now).0, trace + [Stamped(Pressed, now)], now);
    } else if !p.pressed && g.lastPressed {
      ReleaseExplained(g, trace, longMs, time, now);
      ExpiryExplained(ReleaseEdge(g, longMs, now).0, trace + Stamp(ReleaseEdge(g, longMs, now).1, now), now);
    } else if p.pressed && g.lastPressed && !g.fired {
      HoldExplained(g, trace, longMs, time, now);
      ExpiryExplained(Hold(g, longMs, now).0, trace + Stamp(Hold(g, longMs, now).1, now), now);
    } else {
      LaterExplained(g, trace, time, now);
      ExpiryExplained(g, trace, now);
    }
  }

  function LastTime(polls: seq<Poll>): (t: u32) {
    if |polls| == 0 || polls[|polls| - 1].now == 0 then 1 else polls[|polls| - 1].now
  }

  /** Over every run in positive, non-decreasing time, every event is lawful: holds fire at or after
      the threshold and clicks before it, no click follows a hold in the same press, and the hold
      of a press is a double-tap hold exactly when the press is a second tap. */
  lemma {:induction false} TraceIsLawful(longMs: nat, polls: seq<Poll>)
    requires Timely(polls)
    ensures var (g, trace) := Run(longMs, polls);
            AllLawful(trace, longMs) && Explains(g, trace, LastTime(polls))
  {
    hide AfterPoll, Explains, AllLawful, Stamp;
    if |polls| == 0 {
      IdleExplained(longMs);
    } else {
      var front, p := polls[..|polls| - 1], polls[|polls| - 1];
      TraceIsLawful(longMs, front);
      var (g, trace) := Run(longMs, front);
      assert LastTime(front) <= p.now;
      PollExplained(g, trace, longMs, LastTime(front), p);
    }
  }

  /** What the next poll of a run emits, in terms of the trace alone: a release clicks exactly when
      the press was not held and is shorter than the threshold, and a press still down fires its one
      hold exactly when the threshold is reached. */
  lemma NextPollEmits(longMs: nat, polls: seq<Poll>, p: Poll)
    requires Timely(polls + [p])
    ensures var (g, trace) := Run(longMs, polls);
            var n := |trace|;
            var down := n > 0 && trace[n - 1].event != Released && trace[n - 1].event != Clicked;
            var unheld := n > 0 && trace[n - 1].event == Pressed;
            AfterPoll(g, longMs, p.pressed, p.now).1
            == if p.pressed && !down then [Pressed]
               else if !p.pressed && down then
                 if unheld && p.now - trace[n - 1].at < longMs then [Released, Clicked] else [Released]
               else if p.pressed && unheld && p.now - trace[n - 1].at >= longMs then
                 [if SecondTap(trace, n - 1) then DoubleTapHeld else LongPressed]
               else []
  {
    hide Run;
    assert Timely(polls) by {
      assert forall i :: 0 <= i < |polls| ==> (polls + [p])[i] == polls[i];
    }
    TraceIsLawful(longMs, polls);
    assert LastTime(polls) <= p.now by {
      assert (polls + [p])[|polls|] == p;
      if |polls| > 0 {
        assert (polls + [p])[|polls| - 1] == polls[|polls| - 1];
      }
    }
    var g := Run(longMs, polls).0;
  }

  lemma IdleExplained(longMs: nat)
    ensures Explains(IDLE, [], 1) && AllLawful([], longMs)
  {
  }

  // ---------------------------------------------------------------------------
  // The event language
  // ---------------------------------------------------------------------------

  datatype Place = Up | Down | Holding | Short | Broken

  /** The automaton of (Pressed (LongPressed | DoubleTapHeld)? Released Clicked?)* . */
  function Move(p: Place, e: ButtonEvent): (p': Place) {
    match e
    case Pressed => if p == Up || p == Short then Down else Broken
    case LongPressed => if p == Down then Holding else Broken
    case DoubleTapHeld => if p == Down then Holding else Broken
    case Released => if p == Down then Short else if p == Holding then Up else Broken
    case Clicked => if p == Short then Up else Broken
  }

  function PlaceOf(trace: seq<Stamped>): (p: Place) {
    if |trace| == 0 then Up else Move(PlaceOf(trace[..|trace| - 1]), trace[|trace| - 1].event)
  }

  /** Where a lawful trace stands, by its last event and whether its last press was held. */
  lemma {:induction false} LawfulIsWord(trace: seq<Stamped>, longMs: nat)
    requires AllLawful(trace, longMs)
    ensures PlaceOf(trace)
            == if |trace| == 0 then Up
               else
                 match trace[|trace| - 1].event
                 case Pressed => Down
                 case LongPressed => Holding
                 case DoubleTapHeld => Holding
                 case Released => if |trace| >= 2 && trace[|trace| - 2].event == Pressed then Short else Up
                 case Clicked => Up
  {
    if |trace| > 0 {
      var n := |trace|;
      var front := trace[..n - 1];
      forall k | 0 <= k < |front| ensures Lawful(front, k, longMs) {
        assert Lawful(trace, k, longMs);
        assert front + [trace[n - 1]] == trace;
        if k >= 1 {
          SecondTapPrefix(front, [trace[n - 1]], k - 1);
        }
      }
      LawfulIsWord(front, longMs);
      assert Lawful(trace, n - 1, longMs);
      if n >= 2 {
        assert Lawful(trace, n - 2, longMs);
      }
    }
  }

  /** Every run's events are a prefix of a word of that language. */
  lemma RunsAreWords(longMs: nat, polls: seq<Poll>)
    requires Timely(polls)
    ensures PlaceOf(Run(longMs, polls).1) != Broken
  {
    TraceIsLawful(longMs, polls);
    LawfulIsWord(Run(longMs, polls).1, longMs);
  }

  // ---------------------------------------------------------------------------
  // The class
  // ---------------------------------------------------------------------------

  class ButtonsAtomLite {
    const longPressMs: u16
    var lastPressed: bool
    var pressedAt: u32
    var longPressFired: bool
    var lastClickedAt: u32
    var inDoubleTapSecond: bool

    ghost function State(): (g: Gesture)
      reads this
    {
      Gesture(lastPressed, pressedAt, longPressFired, lastClickedAt, inDoubleTapSecond)
    }

    constructor (longPressMs: u16)
      ensures this.longPressMs == longPressMs && State() == IDLE
    {
      this.longPressMs := longPressMs;
      lastPressed, pressedAt, longPressFired, lastClickedAt, inDoubleTapSecond := false, 0, false, 0, false;
    }

    method PollPin(pressedNow: bool, now: u32) returns (events: seq<ButtonEvent>)
      modifies this
      ensures (State(), events) == AfterPoll(old(State()), longPressMs, pressedNow, now)
    {
      events := [];
      if pressedNow && !lastPressed {
        lastPressed := true;
        pressedAt := now;
        longPressFired := false;
        inDoubleTapSecond := lastClickedAt != 0 && Elapsed(now, lastClickedAt) < DOUBLE_TAP_MS;
        events := [Pressed];
      } else if !pressedNow && lastPressed {
        lastPressed := false;
        events := [Released];
        var heldFor := Elapsed(now, pressedAt);
        if !longPressFired && heldFor < longPressMs {
          events := events + [Clicked];
          assert events == [Released, Clicked];
          lastClickedAt := if inDoubleTapSecond then 0 else now;
        } else {
          lastClickedAt := 0;
        }
        inDoubleTapSecond := false;
      } else if pressedNow && lastPressed && !longPressFired {
        if Elapsed(now, pressedAt) >= longPressMs {
          longPressFired := true;
          if inDoubleTapSecond {
            events := [DoubleTapHeld];
            lastClickedAt := 0;
            inDoubleTapSecond := false;
          } else {
            events := [LongPressed];
          }
        }
      }
      if lastClickedAt != 0 && !lastPressed && Elapsed(now, lastClickedAt) >= DOUBLE_TAP_MS {
        lastClickedAt := 0;
      }
    }
  }
}
