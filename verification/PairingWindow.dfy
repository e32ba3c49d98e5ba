/** The BLE pairing window: opened by the operator, closed by the client or by a timeout that
    pauses while a client is connected. Clock readings wrap at 2^32 ms; the specification speaks of
    real time, which does not. */
module PairingWindow {
  import opened Bytes

  const DEFAULT_WINDOW_S: u8 := 180

  datatype Pairing = Closed | Open | Committed | Sleeping | Aborted

  datatype Window = Window(
    active: bool, state: Pairing, windowS: u8, started: u32, writeSeen: bool, connected: bool, connectedAt: u32)

  const DOWN: Window := Window(false, Closed, DEFAULT_WINDOW_S, 0, false, false, 0)

  function Reading(time: nat): (now: u32) {
    time % WRAP
  }

  /** The window length a request gets: a default for none, and at least five seconds. */
  function Granted(requested: u8): (s: u8)
    ensures 5 <= s
  {
    if requested == 0 then DEFAULT_WINDOW_S else if requested < 5 then 5 else requested
  }

  function AfterBegin(w: Window, requested: u8, advertises: bool, now: u32): (r: (Window, bool)) {
    if w.active then (w, true)
    else if !advertises then (w.(windowS := Granted(requested)), false)
    else (Window(true, Open, Granted(requested), now, false, false, 0), true)
  }

  function AfterConnect(w: Window, now: u32): (w': Window) {
    w.(connected := true, connectedAt := now)
  }

  /** The window's origin moves forward by the time the client was connected. */
  function AfterDisconnect(w: Window, now: u32): (w': Window) {
    w.(connected := false,
       started := if w.connected && w.state == Open then (w.started + Elapsed(now, w.connectedAt)) % WRAP else w.started)
  }

  function Observed(w: Window, linked: bool, now: u32): (w': Window) {
    if linked && !w.connected then AfterConnect(w, now)
    else if !linked && w.connected then AfterDisconnect(w, now)
    else w
  }

  function AfterTick(w: Window, linked: bool, now: u32): (w': Window) {
    if !w.active || w.state == Closed then w
    else
      var w1 := Observed(w, linked, now);
      if w1.state == Open && !w1.connected && Elapsed(now, w1.started) >= w1.windowS as int * 1000
      then w1.(state := Aborted) else w1
  }

  function AfterControl(w: Window, action: u8): (w': Window) {
    if w.state != Open then w
    else if action == 1 then w.(state := Committed)
    else if action == 2 then w.(state := Sleeping)
    else if action == 3 then w.(state := Aborted)
    else w
  }

  function AfterEnd(w: Window): (w': Window) {
    if !w.active then w else w.(active := false, state := Closed, connected := false, connectedAt := 0)
  }

  function SecondsRemaining(w: Window, now: u32): (s: nat) {
    if !w.active || w.state != Open then 0
    else
      var elapsed, total := Elapsed(now, w.started), w.windowS as int * 1000;
      if elapsed >= total then 0 else (total - elapsed) / 1000
  }

  // ---------------------------------------------------------------------------
  // Steps
  // ---------------------------------------------------------------------------

  datatype Step =
    | Begin(requested: u8, advertises: bool, time: nat)
    | Tick(linked: bool, time: nat)
    | Control(action: u8)
    | WriteDone
    | End

  function Do(w: Window, step: Step): (w': Window) {
    match step
    case Begin(requested, advertises, time) => AfterBegin(w, requested, advertises, Reading(time)).0
    case Tick(linked, time) => AfterTick(w, linked, Reading(time))
    case Control(action) => AfterControl(w, action)
    case WriteDone => w.(writeSeen := true)
    case End => AfterEnd(w)
  }

  function Run(steps: seq<Step>): (w: Window) {
    if |steps| == 0 then DOWN else Do(Run(steps[..|steps| - 1]), steps[|steps| - 1])
  }

  predicate Terminal(p: Pairing) {
    p == Committed || p == Sleeping || p == Aborted
  }

  predicate ActiveUnlessClosed(w: Window) {
    w.active <==> w.state != Closed
  }

  lemma {:induction false} RunsStayCoherent(steps: seq<Step>)
    ensures ActiveUnlessClosed(Run(steps))
  {
    if |steps| > 0 {
      RunsStayCoherent(steps[..|steps| - 1]);
    }
  }

  /** After any run, Committed, Sleeping and Aborted are left only through End. */
  lemma TerminalIsFinal(steps: seq<Step>, step: Step)
    requires Terminal(Run(steps).state) && !step.End?
    ensures Do(Run(steps), step).state == Run(steps).state
  {
    RunsStayCoherent(steps);
    hide Run;
  }

  // ---------------------------------------------------------------------------
  // A session in real time
  // ---------------------------------------------------------------------------

  /** The link as the ticks of a session observed it: the total of the completed connections, and
      when the present one, if any, was first seen. */
  datatype Link = Link(paused: nat, since: Option<nat>)

  function Observe(l: Link, step: Step): (l': Link) {
    match step
    case Tick(linked, time) =>
      if linked && l.since.None? then Link(l.paused, Some(time))
      else if !linked && l.since.Some? then
        Link(l.paused + if time >= l.since.value then time - l.since.value else 0, None)
      else l
    case _ => l
  }

  function LinkOf(steps: seq<Step>): (l: Link) {
    if |steps| == 0 then Link(0, None) else Observe(LinkOf(steps[..|steps| - 1]), steps[|steps| - 1])
  }

  function Session(begun: nat, requested: u8, steps: seq<Step>): (w: Window) {
    if |steps| == 0 then AfterBegin(DOWN, requested, true, Reading(begun)).0
    else Do(Session(begun, requested, steps[..|steps| - 1]), steps[|steps| - 1])
  }

  /** When the last tick of a session was, or its begin. */
  function Clock(begun: nat, steps: seq<Step>): (time: nat) {
    if |steps| == 0 then begun
    else if steps[|steps| - 1].Tick? then steps[|steps| - 1].time
    else Clock(begun, steps[..|steps| - 1])
  }

  /** Real time does not go back, and the session has not been ended. */
  predicate Timely(begun: nat, steps: seq<Step>) {
    |steps| > 0 ==>
      && !steps[|steps| - 1].End?
      && Timely(begun, steps[..|steps| - 1])
      && (steps[|steps| - 1].Tick? ==> Clock(begun, steps[..|steps| - 1]) <= steps[|steps| - 1].time)
  }

  /** The code's fields follow the observed link. */
  predicate Tracks(w: Window, begun: nat, requested: u8, l: Link, clock: nat) {
    && w.active && w.state != Closed && w.windowS == Granted(requested)
    && w.connected == l.since.Some?
    && (l.since.Some? ==> w.connectedAt == Reading(l.since.value))
    && (w.state == Open ==> w.started == Reading(begun + l.paused))
    && begun + l.paused <= (if l.since.Some? then l.since.value else clock) <= clock
  }

  lemma ShiftedOrigin(origin: nat, since: nat, time: nat)
    requires since <= time
    ensures (Reading(origin) + Elapsed(Reading(time), Reading(since))) % WRAP == Reading(origin + (time - since))
  {
    var d := Reading(time) - Reading(since);
    var k := time / WRAP - since / WRAP + d / WRAP + origin / WRAP;
    assert Reading(origin) + d % WRAP == origin + (time - since) - k * WRAP;
    SameResidue(Reading(origin) + d % WRAP, origin + (time - since), -k);
  }

  lemma SameResidue(x: int, y: int, k: int)
    requires x == y + k * WRAP
    ensures x % WRAP == y % WRAP
  {
  }

  lemma ElapsedSince(origin: nat, time: nat)
    requires origin <= time
    ensures Elapsed(Reading(time), Reading(origin)) == (time - origin) % WRAP <= time - origin
    ensures time - origin < WRAP ==> Elapsed(Reading(time), Reading(origin)) == time - origin
  {
  }

  lemma TickTracks(w: Window, begun: nat, requested: u8, l: Link, clock: nat, linked: bool, time: nat)
    requires Tracks(w, begun, requested, l, clock) && clock <= time
    ensures Tracks(AfterTick(w, linked, Reading(time)), begun, requested, Observe(l, Tick(linked, time)), time)
  {
    hide Reading, Elapsed;
    if l.since.Some? {
      ShiftedOrigin(begun + l.paused, l.since.value, time);
    }
  }

  /** While the window is open its origin is the begin time plus all completed connected time that
      the ticks observed, modulo 2^32. */
  lemma {:induction false} OriginIsTracked(begun: nat, requested: u8, steps: seq<Step>)
    requires Timely(begun, steps)
    ensures Tracks(Session(begun, requested, steps), begun, requested, LinkOf(steps), Clock(begun, steps))
  {
    hide AfterTick, Reading;
    if |steps| > 0 {
      var front, last := steps[..|steps| - 1], steps[|steps| - 1];
      OriginIsTracked(begun, requested, front);
      if last.Tick? {
        TickTracks(Session(begun, requested, front), begun, requested, LinkOf(front), Clock(begun, front),
                   last.linked, last.time);
      }
    }
  }

  /** The milliseconds a request is granted. */
  function Limit(requested: u8): (ms: nat) {
    if requested == 0 then 180000 else if requested < 5 then 5000 else requested * 1000
  }

  lemma LimitIsGranted(requested: u8)
    ensures Granted(requested) as int * 1000 == Limit(requested)
  {
  }

  /** Real time since the begin, less the completed connected time, at a tick. */
  function Disconnected(begun: nat, steps: seq<Step>): (d: int) {
    Clock(begun, steps) - begun - LinkOf(steps).paused
  }

  /** The timeout, exactly: a tick aborts an open window only when no client is connected and the
      disconnected time has reached the granted seconds; and within 2^32 ms of disconnected time it
      does so whenever that holds. */
  lemma TimeoutIff(begun: nat, requested: u8, steps: seq<Step>, linked: bool, time: nat)
    requires Timely(begun, steps + [Tick(linked, time)])
    requires Session(begun, requested, steps).state == Open
    ensures var all := steps + [Tick(linked, time)];
            var d := Disconnected(begun, all);
            var aborted := Session(begun, requested, all).state == Aborted;
            && d >= 0
            && (aborted ==> !linked && d >= Limit(requested))
            && (d < 0x1_0000_0000 ==> (aborted <==> !linked && d >= Limit(requested)))
            && (!aborted ==> Session(begun, requested, all).state == Open)
  {
    var all := steps + [Tick(linked, time)];
    LimitIsGranted(requested);
    assert all[..|all| - 1] == steps;
    OriginIsTracked(begun, requested, steps);
    OriginIsTracked(begun, requested, all);
    var w, l := Session(begun, requested, steps), LinkOf(all);
    hide Reading, Elapsed, LinkOf, Session, Timely;
    AbortDecided(w, begun, requested, LinkOf(steps), Clock(begun, steps), linked, time);
    assert Session(begun, requested, all) == AfterTick(w, linked, Reading(time)) by {
      SessionStep(begun, requested, all);
    }
    assert l == Observe(LinkOf(steps), Tick(linked, time)) by {
      LinkStep(all);
    }
  }

  lemma SessionStep(begun: nat, requested: u8, all: seq<Step>)
    requires |all| > 0
    ensures Session(begun, requested, all) == Do(Session(begun, requested, all[..|all| - 1]), all[|all| - 1])
  {
  }

  lemma LinkStep(all: seq<Step>)
    requires |all| > 0
    ensures LinkOf(all) == Observe(LinkOf(all[..|all| - 1]), all[|all| - 1])
  {
  }

  lemma AbortDecided(w: Window, begun: nat, requested: u8, l: Link, clock: nat, linked: bool, time: nat)
    requires Tracks(w, begun, requested, l, clock) && clock <= time && w.state == Open
    ensures var w', l' := AfterTick(w, linked, Reading(time)), Observe(l, Tick(linked, time));
            && begun + l'.paused <= time
            && (w'.state == Aborted <==>
                  !linked && (time - (begun + l'.paused)) % WRAP >= Limit(requested))
            && (w'.state == Aborted || w'.state == Open)
  {
    LimitIsGranted(requested);
    hide Reading, Elapsed, Granted, Limit;
    var l' := Observe(l, Tick(linked, time));
    if l.since.Some? {
      ShiftedOrigin(begun + l.paused, l.since.value, time);
    }
    ElapsedSince(begun + l'.paused, time);
  }

  /** The countdown a host shows is the window less the disconnected time plus any connection still
      going on: unlike the timeout it does not pause while a client is connected. */
  lemma RemainingMeans(begun: nat, requested: u8, steps: seq<Step>, time: nat)
    requires Timely(begun, steps) && Clock(begun, steps) <= time
    requires Session(begun, requested, steps).state == Open && time - (begun + LinkOf(steps).paused) < 0x1_0000_0000
    ensures var s := SecondsRemaining(Session(begun, requested, steps), Reading(time));
            var left := Limit(requested) - (time - begun - LinkOf(steps).paused);
            if left <= 0 then s == 0 else 1000 * s <= left < 1000 * s + 1000
  {
    LimitIsGranted(requested);
    hide Reading, Elapsed, LinkOf, Session, Timely, Limit, Granted;
    OriginIsTracked(begun, requested, steps);
    ElapsedSince(begun + LinkOf(steps).paused, time);
  }

  // ---------------------------------------------------------------------------
  // How a session ends
  // ---------------------------------------------------------------------------

  /** Step n settles an open window: a control byte 1, 2 or 3, or a tick without a link that finds the
      disconnected time at the limit, on a clock that wraps at 2^32 ms. */
  predicate Decides(begun: nat, requested: u8, steps: seq<Step>, n: nat)
    requires n < |steps|
  {
    match steps[n]
    case Control(action) => action == 1 || action == 2 || action == 3
    case Tick(linked, time) =>
      !linked && (time - begun - LinkOf(steps[..n + 1]).paused) % 0x1_0000_0000 >= Limit(requested)
    case _ => false
  }

  /** The first step that decides, or the number of steps. */
  function Deciding(begun: nat, requested: u8, steps: seq<Step>): (n: nat)
    ensures n <= |steps|
  {
    if |steps| == 0 then 0
    else
      var front := steps[..|steps| - 1];
      var n := Deciding(begun, requested, front);
      if n < |front| || Decides(begun, requested, steps, |steps| - 1) then n else |steps|
  }

  lemma {:induction false} DecidingIsFirst(begun: nat, requested: u8, steps: seq<Step>)
    ensures var n := Deciding(begun, requested, steps);
            && (forall m :: 0 <= m < n ==> !Decides(begun, requested, steps, m))
            && (n < |steps| ==> Decides(begun, requested, steps, n))
  {
    hide LinkOf, Limit;
    if |steps| > 0 {
      var front := steps[..|steps| - 1];
      DecidingIsFirst(begun, requested, front);
      forall m | 0 <= m < |front|
        ensures Decides(begun, requested, steps, m) == Decides(begun, requested, front, m)
      {
        assert steps[..m + 1] == front[..m + 1];
      }
    }
  }

  /** What the first deciding step makes of the window. */
  function Verdict(step: Step): (p: Pairing) {
    match step
    case Control(action) => if action == 1 then Committed else if action == 2 then Sleeping else Aborted
    case _ => Aborted
  }

  /** Main result: over every session in real time the window is open until a step decides, and from
      then on is what the first one made it: committed, sleeping or aborted by the client's bytes 1,
      2 and 3, or aborted by the timeout. No other byte, tick, write or begin counts. */
  lemma {:induction false} FirstDecisionStands(begun: nat, requested: u8, steps: seq<Step>)
    requires Timely(begun, steps)
    ensures var n := Deciding(begun, requested, steps);
            Session(begun, requested, steps).state == if n < |steps| then Verdict(steps[n]) else Open
  {
    if |steps| > 0 {
      var front, last := steps[..|steps| - 1], steps[|steps| - 1];
      FirstDecisionStands(begun, requested, front);
      OriginIsTracked(begun, requested, front);
      assert steps[..|steps|] == steps;
      hide LinkOf, Limit, Session, Timely, Reading, AfterTick;
      SessionStep(begun, requested, steps);
      LinkStep(steps);
      var w := Session(begun, requested, front);
      if last.Tick? {
        if w.state == Open {
          AbortDecided(w, begun, requested, LinkOf(front), Clock(begun, front), last.linked, last.time);
        } else {
          TickKeeps(w, last.linked, Reading(last.time));
        }
      }
    }
  }

  lemma TickKeeps(w: Window, linked: bool, now: u32)
    requires w.state != Open
    ensures AfterTick(w, linked, now).state == w.state
  {
  }

  /** A window begun after an end, or for the first time, is the same window; one that is up stays as
      it is, and one that cannot advertise stays closed. */
  lemma BeginIsFresh(w: Window, requested: u8, advertises: bool, now: u32)
    ensures var (w', ok) := AfterBegin(w, requested, advertises, now);
            && (w.active ==> w' == w && ok)
            && (!w.active && advertises ==>
                  ok && w' == Window(true, Open, w'.windowS, now, false, false, 0) && w'.windowS as int * 1000 == Limit(requested))
            && (!w.active && !advertises ==> w'.state == w.state && !w'.active && !ok)
  {
  }

  /** End closes the window whatever it was, and no tick or control byte reopens it. */
  lemma {:induction false} EndCloses(steps: seq<Step>, after: seq<Step>)
    requires forall k :: 0 <= k < |after| ==> !after[k].Begin?
    ensures var w := Run(steps + [End] + after);
            w.state == Closed && !w.active && !w.connected && w.connectedAt == 0
  {
    var all := steps + [End] + after;
    if |after| == 0 {
      assert all[..|all| - 1] == steps;
      RunsStayCoherent(steps);
      LinkNeedsWindow(steps);
    } else {
      assert all[..|all| - 1] == steps + [End] + after[..|after| - 1];
      EndCloses(steps, after[..|after| - 1]);
    }
  }

  lemma {:induction false} LinkNeedsWindow(steps: seq<Step>)
    ensures !Run(steps).active ==> !Run(steps).connected && Run(steps).connectedAt == 0
  {
    if |steps| > 0 {
      LinkNeedsWindow(steps[..|steps| - 1]);
      RunsStayCoherent(steps[..|steps| - 1]);
    }
  }

  /** So the countdown can reach zero although the timeout is paused. */
  lemma CountdownRunsWhileConnected()
    ensures var steps := [Tick(true, 0), Tick(true, 5000)];
            && Timely(0, steps) && Session(0, 5, steps).state == Open
            && SecondsRemaining(Session(0, 5, steps), Reading(5000)) == 0
  {
    var steps := [Tick(true, 0), Tick(true, 5000)];
    assert steps[..1] == [Tick(true, 0)] && [Tick(true, 0)][..0] == [];
    assert Timely(0, []) && Timely(0, [Tick(true, 0)]);
    assert Session(0, 5, []) == Window(true, Open, 5, 0, false, false, 0);
    assert Session(0, 5, [Tick(true, 0)]) == Window(true, Open, 5, 0, false, true, 0);
    assert Session(0, 5, steps) == Window(true, Open, 5, 0, false, true, 0);
  }

  // ---------------------------------------------------------------------------
  // The class
  // ---------------------------------------------------------------------------

  class BleService {
    var active: bool
    var pairingState: Pairing
    var pairWinS: u8
    var windowStarted: u32
    var writeSeen: bool
    var clientConnected: bool
    var connectedAt: u32

    ghost function Current(): (w: Window)
      reads this
    {
      Window(active, pairingState, pairWinS, windowStarted, writeSeen, clientConnected, connectedAt)
    }

    constructor ()
      ensures Current() == DOWN
    {
      active, pairingState, pairWinS, windowStarted := false, Closed, DEFAULT_WINDOW_S, 0;
      writeSeen, clientConnected, connectedAt := false, false, 0;
    }

    method BeginWindow(requested: u8, advertises: bool, now: u32) returns (ok: bool)
      modifies this
      ensures (Current(), ok) == AfterBegin(old(Current()), requested, advertises, now)
    {
      if active {
        return true;
      }
      pairWinS := if requested == 0 then DEFAULT_WINDOW_S else requested;
      if pairWinS < 5 {
        pairWinS := 5;
      }
      if !advertises {
        return false;
      }
      active := true;
      pairingState := Open;
      windowStarted := now;
      writeSeen := false;
      clientConnected := false;
      connectedAt := 0;
      return true;
    }

    method OnClientConnected(now: u32)
      modifies this`clientConnected, this`connectedAt
      ensures Current() == AfterConnect(old(Current()), now)
    {
      clientConnected := true;
      connectedAt := now;
    }

    method OnClientDisconnected(now: u32)
      modifies this`clientConnected, this`windowStarted
      ensures Current() == AfterDisconnect(old(Current()), now)
    {
      var connectedFor: nat := 0;
      if clientConnected && pairingState == Open {
        connectedFor := Elapsed(now, connectedAt);
        windowStarted := (windowStarted + connectedFor) % WRAP;
      }
      clientConnected := false;
    }

    method TickWindow(linked: bool, now: u32) returns (state: Pairing)
      modifies this
      ensures Current() == AfterTick(old(Current()), linked, now) && state == Current().state
    {
      if !active || pairingState == Closed {
        return pairingState;
      }
      if linked && !clientConnected {
        OnClientConnected(now);
      } else if !linked && clientConnected {
        OnClientDisconnected(now);
      }
      if pairingState == Open && !clientConnected {
        var elapsed := Elapsed(now, windowStarted);
        if elapsed >= pairWinS as int * 1000 {
          pairingState := Aborted;
        }
      }
      return pairingState;
    }

    method OnPairingControlWrite(action: u8)
      modifies this`pairingState
      ensures Current() == AfterControl(old(Current()), action)
    {
      if pairingState != Open {
        return;
      }
      if action == 1 {
        pairingState := Committed;
      } else if action == 2 {
        pairingState := Sleeping;
      } else if action == 3 {
        pairingState := Aborted;
      }
    }

    method OnConfigWriteSuccess()
      modifies this`writeSeen
      ensures Current() == old(Current()).(writeSeen := true)
    {
      writeSeen := true;
    }

    method EndWindow()
      modifies this
      ensures Current() == AfterEnd(old(Current()))
    {
      if !active {
        return;
      }
      active := false;
      pairingState := Closed;
      clientConnected := false;
      connectedAt := 0;
    }
  }
}
