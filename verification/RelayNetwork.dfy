/** A network of repeating nodes. A send reaches any subset of the other nodes, each at most once;
    deliveries arrive in any order. Flooding is bounded and preserves what it floods. */
module RelayNetwork {
  import opened Bytes
  import opened Counting
  import opened Frame
  import opened LumeMode

  datatype Delivery = Delivery(dest: nat, frame: seq<u8>)

  datatype Net = Net(nodes: seq<State>, air: seq<Delivery>)

  /** A frame sent from outside, a delivery reaching its node, or a node's main-loop tick. The
      listed nodes are those that the send, if there is one, will reach. */
  datatype Event =
    | Inject(frame: seq<u8>, dests: seq<nat>)
    | Arrive(k: nat, now: u32)
    | Beat(node: nat, now: u32, dests: seq<nat>)

  /** A pending relay is a whole frame that has been relayed one to three times. */
  predicate Relayable(f: seq<u8>) {
    |f| >= HEADER_SIZE && 1 <= f[HOP_OFFSET] <= MAX_HOPS
  }

  predicate Sound(net: Net) {
    && (forall i :: 0 <= i < |net.nodes| ==>
          WellFormed(net.nodes[i])
          && (net.nodes[i].pendingRepeat.Some? ==> Relayable(net.nodes[i].pendingRepeat.value)))
    && (forall k :: 0 <= k < |net.air| ==> net.air[k].dest < |net.nodes|)
  }

  predicate Reachable(dests: seq<nat>, n: nat) {
    && (forall k :: 0 <= k < |dests| ==> dests[k] < n)
    && (forall i, j :: 0 <= i < j < |dests| ==> dests[i] != dests[j])
  }

  predicate Enabled(net: Net, ev: Event) {
    match ev
    case Inject(_, dests) => Reachable(dests, |net.nodes|)
    case Arrive(k, _) => k < |net.air|
    case Beat(node, _, dests) => node < |net.nodes| && Reachable(dests, |net.nodes|) && node !in dests
  }

  function Deliveries(dests: seq<nat>, frame: seq<u8>): (ds: seq<Delivery>)
    ensures |ds| == |dests|
    ensures forall k :: 0 <= k < |ds| ==> ds[k] == Delivery(dests[k], frame)
  {
    if |dests| == 0 then [] else Deliveries(dests[..|dests| - 1], frame) + [Delivery(dests[|dests| - 1], frame)]
  }

  /** The frame an event puts on the air by relaying. */
  function RelayedBy(net: Net, ev: Event): (fs: seq<seq<u8>>)
    requires Enabled(net, ev)
  {
    if ev.Beat? && net.nodes[ev.node].pendingRepeat.Some? then [net.nodes[ev.node].pendingRepeat.value] else []
  }

  function Next(cs: seq<Config>, net: Net, ev: Event): (net': Net)
    requires |cs| == |net.nodes| && Sound(net) && Enabled(net, ev)
  {
    match ev
    case Inject(frame, dests) => net.(air := net.air + Deliveries(dests, frame))
    case Arrive(k, now) =>
      var d := net.air[k];
      Net(net.nodes[d.dest := AfterRecv(cs[d.dest], net.nodes[d.dest], d.frame, now).0], Without(net.air, k))
    case Beat(node, now, dests) =>
      Net(net.nodes[node := AfterTick(cs[node], net.nodes[node], now).0],
          net.air + if net.nodes[node].pendingRepeat.Some?
                    then Deliveries(dests, net.nodes[node].pendingRepeat.value) else [])
  }

  /** What a tick sends is exactly the pending relay, and it clears it. */
  lemma TickSends(c: Config, s: State, now: u32)
    requires WellFormed(s)
    ensures AfterTick(c, s, now).0.pendingRepeat == None
    ensures forall f :: Send(f) in AfterTick(c, s, now).1 <==> s.pendingRepeat == Some(f)
  {
    DrainSends(c, s);
    hide Drain, Fallback, Scan, Expire;
    var s1 := Drain(c, s).0;
    var age := Age(now, s1.lastRx);
    FallbackSendsNothing(s1, age);
    ScanSendsNothing(c, Fallback(s1, age).0, age, now);
  }

  lemma DrainSends(c: Config, s: State)
    requires WellFormed(s)
    ensures Drain(c, s).0.pendingRepeat == None
    ensures forall f :: Send(f) in Drain(c, s).1 <==> s.pendingRepeat == Some(f)
  {
    hide FanOut;
    if s.pendingLight.Some? {
      forall f ensures Send(f) !in FanOut(c, s.pendingLight.value, false, |c.bindings|) {
        FanOutSends(c, s.pendingLight.value, false, |c.bindings|, f);
      }
    }
  }

  lemma FallbackSendsNothing(s: State, age: nat)
    requires WellFormed(s)
    ensures Fallback(s, age).0.pendingRepeat == s.pendingRepeat
    ensures forall f :: Send(f) !in Fallback(s, age).1
  {
  }

  lemma ScanSendsNothing(c: Config, s: State, age: nat, now: u32)
    requires WellFormed(s)
    ensures Scan(c, s, age, now).0.pendingRepeat == s.pendingRepeat
    ensures forall f :: Send(f) !in Scan(c, s, age, now).1
  {
    hide NextChannel, Elapsed;
  }

  lemma {:induction false} FanOutSends(c: Config, p: Pulse, inCallback: bool, n: nat, f: seq<u8>)
    requires n <= |c.bindings|
    ensures Send(f) !in FanOut(c, p, inCallback, n)
  {
    if n > 0 {
      FanOutSends(c, p, inCallback, n - 1, f);
    }
  }

  /** What a received frame leaves pending: the old relay, or a copy one hop further on. */
  lemma RecvQueues(c: Config, s: State, frame: seq<u8>, now: u32)
    requires WellFormed(s)
    ensures var p := AfterRecv(c, s, frame, now).0.pendingRepeat;
            || p == s.pendingRepeat
            || (|frame| >= 9 && frame[6] < 3
                && p == Some(frame[6 := frame[6] + 1]))
  {
    hide FanOut, PulseIn, Seen, Admit;
  }

  lemma SoundKept(cs: seq<Config>, net: Net, ev: Event)
    requires |cs| == |net.nodes| && Sound(net) && Enabled(net, ev)
    ensures Sound(Next(cs, net, ev)) && |Next(cs, net, ev).nodes| == |net.nodes|
  {
    hide AfterRecv, AfterTick, Relayable;
    match ev {
      case Inject(frame, dests) =>
      case Arrive(k, now) =>
        var d := net.air[k];
        RecvQueues(cs[d.dest], net.nodes[d.dest], d.frame, now);
        StillRelayable(d.frame);
      case Beat(node, now, dests) =>
        TickSends(cs[node], net.nodes[node], now);
    }
  }

  lemma StillRelayable(f: seq<u8>)
    ensures |f| >= HEADER_SIZE && f[HOP_OFFSET] < MAX_HOPS ==> Relayable(f[HOP_OFFSET := f[HOP_OFFSET] + 1])
  {
  }

  // ---------------------------------------------------------------------------
  // The flooding bound
  // ---------------------------------------------------------------------------

  /** Prices for a delivery and for a relay. */
  datatype Price = Price(delivery: nat, relay: nat)

  /** What one delivery of a frame can still cost in a network of n nodes: itself, a relay, and the
      deliveries of that relay to the other nodes. */
  function DeliveryCost(p: Price, n: nat, hop: nat): (w: nat)
    requires n > 0
    decreases MAX_HOPS as int - hop
  {
    p.delivery + if hop < MAX_HOPS then p.relay + (n - 1) * DeliveryCost(p, n, hop + 1) else 0
  }

  function PendingCost(p: Price, n: nat, hop: nat): (w: nat)
    requires n > 0
  {
    p.relay + (n - 1) * DeliveryCost(p, n, hop)
  }

  /** The hop count that matters; a fragment is never relayed. */
  function HopOf(f: seq<u8>): (hop: nat) {
    if |f| < HEADER_SIZE then MAX_HOPS else f[HOP_OFFSET]
  }

  function AirCost(p: Price, n: nat, air: seq<Delivery>): (w: nat)
    requires n > 0
  {
    if |air| == 0 then 0
    else AirCost(p, n, air[..|air| - 1]) + DeliveryCost(p, n, HopOf(air[|air| - 1].frame))
  }

  function NodeCost(p: Price, n: nat, s: State): (w: nat)
    requires n > 0
  {
    if s.pendingRepeat.Some? then PendingCost(p, n, HopOf(s.pendingRepeat.value)) else 0
  }

  function NodesCost(p: Price, n: nat, nodes: seq<State>): (w: nat)
    requires n > 0
  {
    if |nodes| == 0 then 0 else NodesCost(p, n, nodes[..|nodes| - 1]) + NodeCost(p, n, nodes[|nodes| - 1])
  }

  function Cost(p: Price, net: Net): (w: nat)
    requires |net.nodes| > 0
  {
    AirCost(p, |net.nodes|, net.air) + NodesCost(p, |net.nodes|, net.nodes)
  }

  lemma {:induction false} AirConcat(p: Price, n: nat, a: seq<Delivery>, b: seq<Delivery>)
    requires n > 0
    ensures AirCost(p, n, a + b) == AirCost(p, n, a) + AirCost(p, n, b)
  {
    hide DeliveryCost, HopOf;
    if |b| == 0 {
      assert a + b == a;
    } else {
      AirConcat(p, n, a, b[..|b| - 1]);
      assert (a + b)[..|a + b| - 1] == a + b[..|b| - 1];
    }
  }

  lemma AirOne(p: Price, n: nat, d: Delivery)
    requires n > 0
    ensures AirCost(p, n, [d]) == DeliveryCost(p, n, HopOf(d.frame))
  {
    assert [d][..0] == [];
  }

  lemma AirWithout(p: Price, n: nat, air: seq<Delivery>, k: nat)
    requires n > 0 && k < |air|
    ensures AirCost(p, n, Without(air, k)) + DeliveryCost(p, n, HopOf(air[k].frame)) == AirCost(p, n, air)
  {
    hide AirCost, DeliveryCost, HopOf;
    AirOne(p, n, air[k]);
    AirConcat(p, n, air[..k], [air[k]]);
    AirConcat(p, n, air[..k] + [air[k]], air[k + 1..]);
    AirConcat(p, n, air[..k], air[k + 1..]);
    assert air[..k] + [air[k]] + air[k + 1..] == air;
    assert Without(air, k) == air[..k] + air[k + 1..];
  }

  lemma {:induction false} AirOfSend(p: Price, n: nat, dests: seq<nat>, f: seq<u8>)
    requires n > 0
    ensures AirCost(p, n, Deliveries(dests, f)) == |dests| * DeliveryCost(p, n, HopOf(f))
  {
    hide DeliveryCost, HopOf;
    if |dests| > 0 {
      AirOfSend(p, n, dests[..|dests| - 1], f);
      var ds := Deliveries(dests, f);
      assert ds[..|ds| - 1] == Deliveries(dests[..|dests| - 1], f);
    }
  }

  lemma {:induction false} NodesUpdate(p: Price, n: nat, nodes: seq<State>, i: nat, s: State)
    requires n > 0 && i < |nodes|
    ensures NodesCost(p, n, nodes[i := s]) + NodeCost(p, n, nodes[i]) == NodesCost(p, n, nodes) + NodeCost(p, n, s)
  {
    hide NodeCost;
    var last := |nodes| - 1;
    if i == last {
      assert nodes[i := s][..last] == nodes[..last];
    } else {
      NodesUpdate(p, n, nodes[..last], i, s);
      assert nodes[i := s][..last] == nodes[..last][i := s];
    }
  }

  /** A send from a node reaches at most all the others. */
  lemma ReachesOthers(dests: seq<nat>, n: nat)
    requires Reachable(dests, n)
    ensures |dests| <= n
    ensures forall node: nat :: node < n && node !in dests ==> |dests| <= n - 1
  {
    DistinctFit(dests, n);
    forall node: nat | node < n && node !in dests ensures |dests| <= n - 1 {
      DistinctFit(dests + [node], n);
    }
  }

  lemma MoreCostsMore(a: nat, b: nat, w: nat)
    requires a <= b
    ensures a * w <= b * w
  {
  }

  /** What an event is charged: arrivals and relays at their prices. */
  function Charge(p: Price, net: Net, ev: Event): (w: nat)
    requires Enabled(net, ev)
  {
    (if ev.Arrive? then p.delivery else 0) + |RelayedBy(net, ev)| * p.relay
  }

  /** What an event adds to the budget: the cost of the deliveries of an outside send. */
  function Budget(p: Price, n: nat, ev: Event): (w: nat)
    requires n > 0
  {
    if ev.Inject? then |ev.dests| * DeliveryCost(p, n, HopOf(ev.frame)) else 0
  }

  /** Every charge is paid out of the budget and the outstanding cost. */
  lemma StepPays(p: Price, cs: seq<Config>, net: Net, ev: Event)
    requires |cs| == |net.nodes| > 0 && Sound(net) && Enabled(net, ev)
    ensures |Next(cs, net, ev).nodes| == |net.nodes|
    ensures Charge(p, net, ev) + Cost(p, Next(cs, net, ev)) <= Cost(p, net) + Budget(p, |net.nodes|, ev)
  {
    hide AfterRecv, AfterTick, AirCost, DeliveryCost, NodesCost, HopOf, NodeCost;
    SoundKept(cs, net, ev);
    var n := |net.nodes|;
    match ev {
      case Inject(frame, dests) =>
        AirOfSend(p, n, dests, frame);
        AirConcat(p, n, net.air, Deliveries(dests, frame));
      case Arrive(k, now) =>
        var d := net.air[k];
        var s, s' := net.nodes[d.dest], AfterRecv(cs[d.dest], net.nodes[d.dest], d.frame, now).0;
        AirWithout(p, n, net.air, k);
        NodesUpdate(p, n, net.nodes, d.dest, s');
        ArrivalPays(p, n, cs[d.dest], s, d.frame, now);
      case Beat(node, now, dests) =>
        var s, s' := net.nodes[node], AfterTick(cs[node], net.nodes[node], now).0;
        NodesUpdate(p, n, net.nodes, node, s');
        TickSends(cs[node], s, now);
        NothingPending(p, n, s');
        NothingPending(p, n, s);
        if s.pendingRepeat.Some? {
          var f := s.pendingRepeat.value;
          AirOfSend(p, n, dests, f);
          AirConcat(p, n, net.air, Deliveries(dests, f));
          ReachesOthers(dests, n);
          MoreCostsMore(|dests|, n - 1, DeliveryCost(p, n, HopOf(f)));
        } else {
          assert net.air + [] == net.air;
        }
    }
  }

  lemma NothingPending(p: Price, n: nat, s: State)
    requires n > 0
    ensures s.pendingRepeat == None ==> NodeCost(p, n, s) == 0
    ensures s.pendingRepeat.Some? ==> NodeCost(p, n, s) == p.relay + (n - 1) * DeliveryCost(p, n, HopOf(s.pendingRepeat.value))
  {
  }

  lemma ArrivalPays(p: Price, n: nat, c: Config, s: State, frame: seq<u8>, now: u32)
    requires n > 0 && WellFormed(s)
    ensures p.delivery + NodeCost(p, n, AfterRecv(c, s, frame, now).0)
            <= DeliveryCost(p, n, HopOf(frame)) + NodeCost(p, n, s)
  {
    hide AfterRecv, DeliveryCost, NodeCost, HopOf;
    RecvQueues(c, s, frame, now);
    var s' := AfterRecv(c, s, frame, now).0;
    NothingPending(p, n, s);
    NothingPending(p, n, s');
    CostStep(p, n, frame);
  }

  /** One delivery pays for itself and for the relay it may cause. */
  lemma CostStep(p: Price, n: nat, frame: seq<u8>)
    requires n > 0
    ensures p.delivery <= DeliveryCost(p, n, HopOf(frame))
    ensures |frame| >= HEADER_SIZE && frame[HOP_OFFSET] < MAX_HOPS ==>
              DeliveryCost(p, n, HopOf(frame))
              == p.delivery + p.relay + (n - 1) * DeliveryCost(p, n, HopOf(frame[HOP_OFFSET := frame[HOP_OFFSET] + 1]))
  {
    DeliveryUnfolds(p, n, HopOf(frame));
    hide DeliveryCost;
    if |frame| >= HEADER_SIZE && frame[HOP_OFFSET] < MAX_HOPS {
      assert HopOf(frame[HOP_OFFSET := frame[HOP_OFFSET] + 1]) == HopOf(frame) + 1;
    }
  }

  lemma DeliveryUnfolds(p: Price, n: nat, hop: nat)
    requires n > 0
    ensures p.delivery <= DeliveryCost(p, n, hop)
    ensures hop < MAX_HOPS ==> DeliveryCost(p, n, hop) == p.delivery + p.relay + (n - 1) * DeliveryCost(p, n, hop + 1)
  {
  }

  // ---------------------------------------------------------------------------
  // Runs
  // ---------------------------------------------------------------------------

  /** Fresh nodes and nothing in flight. */
  function Start(cs: seq<Config>, now: u32): (net: Net)
    ensures |net.nodes| == |cs| && Sound(net)
  {
    Net(seq(|cs|, i requires 0 <= i < |cs| => Enter(cs[i], now)), [])
  }

  ghost predicate Valid(cs: seq<Config>, now: u32, events: seq<Event>)
    decreases |events|, 0
  {
    |events| > 0 ==>
      Valid(cs, now, events[..|events| - 1])
      && Enabled(After(cs, now, events[..|events| - 1]), events[|events| - 1])
  }

  /** The network after a run of enabled events. */
  ghost function After(cs: seq<Config>, now: u32, events: seq<Event>): (net: Net)
    requires Valid(cs, now, events)
    ensures Sound(net) && |net.nodes| == |cs|
    decreases |events|, 1
  {
    if |events| == 0 then Start(cs, now)
    else
      var net := After(cs, now, events[..|events| - 1]);
      SoundKept(cs, net, events[|events| - 1]);
      Next(cs, net, events[|events| - 1])
  }

  /** All frames relayed in a run, in order. */
  ghost function Relays(cs: seq<Config>, now: u32, events: seq<Event>): (fs: seq<seq<u8>>)
    requires Valid(cs, now, events)
  {
    if |events| == 0 then []
    else
      var front := events[..|events| - 1];
      Relays(cs, now, front) + RelayedBy(After(cs, now, front), events[|events| - 1])
  }

  function Arrivals(events: seq<Event>): (n: nat) {
    if |events| == 0 then 0 else Arrivals(events[..|events| - 1]) + if events[|events| - 1].Arrive? then 1 else 0
  }

  function Budgets(p: Price, n: nat, events: seq<Event>): (w: nat)
    requires n > 0
  {
    if |events| == 0 then 0 else Budgets(p, n, events[..|events| - 1]) + Budget(p, n, events[|events| - 1])
  }

  lemma {:induction false} StartCostsNothing(p: Price, n: nat, nodes: seq<State>)
    requires n > 0 && forall i :: 0 <= i < |nodes| ==> nodes[i].pendingRepeat == None
    ensures NodesCost(p, n, nodes) == 0
  {
    if |nodes| > 0 {
      StartCostsNothing(p, n, nodes[..|nodes| - 1]);
    }
  }

  lemma Distribute(a: nat, b: nat, x: nat)
    ensures (a + b) * x == a * x + b * x
  {
  }

  lemma {:induction false} RunPays(p: Price, cs: seq<Config>, now: u32, events: seq<Event>)
    requires |cs| > 0 && Valid(cs, now, events)
    ensures Arrivals(events) * p.delivery + |Relays(cs, now, events)| * p.relay + Cost(p, After(cs, now, events))
            <= Budgets(p, |cs|, events)
  {
    hide Next, Cost, Budget, Sound;
    if |events| == 0 {
      StartCost(p, cs, now);
    } else {
      var front, last := events[..|events| - 1], events[|events| - 1];
      RunPays(p, cs, now, front);
      var net := After(cs, now, front);
      StepPays(p, cs, net, last);
      var r, more := Relays(cs, now, front), RelayedBy(net, last);
      Distribute(|r|, |more|, p.relay);
      Distribute(Arrivals(front), if last.Arrive? then 1 else 0, p.delivery);
    }
  }

  lemma StartCost(p: Price, cs: seq<Config>, now: u32)
    requires |cs| > 0
    ensures Cost(p, Start(cs, now)) == 0
  {
    StartCostsNothing(p, |cs|, Start(cs, now).nodes);
  }

  function Injections(events: seq<Event>): (n: nat) {
    if |events| == 0 then 0 else Injections(events[..|events| - 1]) + if events[|events| - 1].Inject? then 1 else 0
  }

  predicate FromOrigin(events: seq<Event>) {
    forall k :: 0 <= k < |events| && events[k].Inject? ==> HopOf(events[k].frame) == 0
  }

  lemma CostFromOrigin(n: nat)
    requires n > 0
    ensures DeliveryCost(Price(0, 1), n, 0) == 1 + (n - 1) * n
  {
    var p := Price(0, 1);
    assert DeliveryCost(p, n, 3) == 0;
    assert DeliveryCost(p, n, 2) == 1 + (n - 1) * 0 == 1;
    assert DeliveryCost(p, n, 1) == 1 + (n - 1) * 1 == n;
  }

  lemma {:induction false} BudgetFromOrigin(cs: seq<Config>, now: u32, events: seq<Event>)
    requires |cs| > 0 && Valid(cs, now, events) && FromOrigin(events)
    ensures Budgets(Price(0, 1), |cs|, events) <= Injections(events) * (|cs| * (1 + (|cs| - 1) * |cs|))
  {
    hide After, DeliveryCost, HopOf;
    if |events| > 0 {
      var front, last := events[..|events| - 1], events[|events| - 1];
      BudgetFromOrigin(cs, now, front);
      var n := |cs|;
      var each: nat := 1 + (n - 1) * n;
      if last.Inject? {
        assert HopOf(last.frame) == 0;
        ReachesOthers(last.dests, n);
        CostFromOrigin(n);
        MoreCostsMore(|last.dests|, n, each);
        Distribute(Injections(front), 1, n * each);
      }
    }
  }

  lemma Cubic(n: nat)
    ensures n > 0 ==> n * (1 + (n - 1) * n) <= n + n * n + n * n * n
  {
    if n > 0 {
      assert n * (1 + (n - 1) * n) == n + n * ((n - 1) * n);
      assert n * ((n - 1) * n) == n * n * (n - 1) <= n * n * n;
    }
  }

  /** However deliveries are lost, delayed and reordered, frames injected at hop 0 into a network of
      N repeating nodes cause at most N (1 + (N - 1) N) relays each, which is below N + N^2 + N^3.
      Sequence number 0, which bypasses duplicate suppression, is no exception. */
  lemma RelaysAreBounded(cs: seq<Config>, now: u32, events: seq<Event>)
    requires |cs| > 0 && Valid(cs, now, events) && FromOrigin(events)
    ensures var n := |cs|;
            && |Relays(cs, now, events)| <= Injections(events) * (n * (1 + (n - 1) * n))
            && n * (1 + (n - 1) * n) <= n + n * n + n * n * n
  {
    hide Relays, Budgets, Injections, FromOrigin, After, Cost, Valid;
    RunPays(Price(0, 1), cs, now, events);
    BudgetFromOrigin(cs, now, events);
    Cubic(|cs|);
  }

  /** Flooding from a finite set of injections terminates: arrivals and relays together are bounded
      by what was injected, whatever else the nodes do. */
  lemma FloodingTerminates(cs: seq<Config>, now: u32, events: seq<Event>)
    requires |cs| > 0 && Valid(cs, now, events)
    ensures Arrivals(events) + |Relays(cs, now, events)| <= Budgets(Price(1, 1), |cs|, events)
  {
    hide Arrivals, Relays, Budgets, Valid, After, Cost;
    RunPays(Price(1, 1), cs, now, events);
  }

  // ---------------------------------------------------------------------------
  // Integrity
  // ---------------------------------------------------------------------------

  /** f is o, or o some hops further on. */
  predicate Descends(o: seq<u8>, f: seq<u8>) {
    || f == o
    || (|o| >= HEADER_SIZE && |f| == |o| && o[HOP_OFFSET] < f[HOP_OFFSET] <= MAX_HOPS
        && f == o[HOP_OFFSET := f[HOP_OFFSET]])
  }

  predicate HasOrigin(events: seq<Event>, f: seq<u8>) {
    exists k :: 0 <= k < |events| && events[k].Inject? && Descends(events[k].frame, f)
  }

  lemma OriginKept(events: seq<Event>, ev: Event, f: seq<u8>)
    ensures HasOrigin(events, f) ==> HasOrigin(events + [ev], f)
    ensures ev.Inject? ==> HasOrigin(events + [ev], ev.frame)
  {
    var all := events + [ev];
    if HasOrigin(events, f) {
      var k :| 0 <= k < |events| && events[k].Inject? && Descends(events[k].frame, f);
      assert all[k].Inject? && Descends(all[k].frame, f);
    }
    if ev.Inject? {
      assert Descends(all[|events|].frame, ev.frame);
    }
  }

  lemma OriginOfRelay(events: seq<Event>, f: seq<u8>)
    requires HasOrigin(events, f) && |f| >= HEADER_SIZE && f[HOP_OFFSET] < MAX_HOPS
    ensures HasOrigin(events, f[HOP_OFFSET := f[HOP_OFFSET] + 1])
  {
    var k :| 0 <= k < |events| && events[k].Inject? && Descends(events[k].frame, f);
    assert Descends(events[k].frame, f[HOP_OFFSET := f[HOP_OFFSET] + 1]);
  }

  /** Everything in flight or pending comes from something injected. */
  predicate AllHaveOrigin(events: seq<Event>, net: Net) {
    && (forall k :: 0 <= k < |net.air| ==> HasOrigin(events, net.air[k].frame))
    && (forall i :: 0 <= i < |net.nodes| ==>
          (net.nodes[i].pendingRepeat.Some? ==> HasOrigin(events, net.nodes[i].pendingRepeat.value)))
  }

  lemma StepKeepsOrigin(cs: seq<Config>, net: Net, events: seq<Event>, ev: Event)
    requires |cs| == |net.nodes| && Sound(net) && Enabled(net, ev) && AllHaveOrigin(events, net)
    ensures AllHaveOrigin(events + [ev], Next(cs, net, ev))
  {
    hide AfterRecv, AfterTick, HasOrigin;
    var net' := Next(cs, net, ev);
    forall f ensures HasOrigin(events, f) ==> HasOrigin(events + [ev], f) {
      OriginKept(events, ev, f);
    }
    match ev {
      case Inject(frame, dests) =>
        OriginKept(events, ev, frame);
      case Arrive(k, now) =>
        var d := net.air[k];
        RecvQueues(cs[d.dest], net.nodes[d.dest], d.frame, now);
        if |d.frame| >= HEADER_SIZE && d.frame[HOP_OFFSET] < MAX_HOPS {
          OriginOfRelay(events, d.frame);
        }
      case Beat(node, now, dests) =>
        TickSends(cs[node], net.nodes[node], now);
    }
  }

  lemma {:induction false} RunHasOrigin(cs: seq<Config>, now: u32, events: seq<Event>)
    requires Valid(cs, now, events)
    ensures AllHaveOrigin(events, After(cs, now, events))
  {
    hide Next, HasOrigin;
    if |events| > 0 {
      var front, last := events[..|events| - 1], events[|events| - 1];
      RunHasOrigin(cs, now, front);
      StepKeepsOrigin(cs, After(cs, now, front), front, last);
      assert front + [last] == events;
    }
  }

  /** Every relayed frame is some injected frame with only the hop byte raised, to at most three:
      it decodes to the same source, sequence number, type and payload. */
  lemma {:induction false} RelaysPreserve(cs: seq<Config>, now: u32, events: seq<Event>, i: nat) returns (k: nat)
    requires Valid(cs, now, events) && i < |Relays(cs, now, events)|
    ensures k < |events| && events[k].Inject?
    ensures var f, o := Relays(cs, now, events)[i], events[k].frame;
            && |f| == |o| >= 9 && 1 <= f[6] <= 3 && o[6] <= f[6]
            && f == o[6 := f[6]]
            && (DecodeHeader(o).Ok? ==>
                  && DecodeHeader(f) == Ok(DecodeHeader(o).value.(hops := f[6]))
                  && PayloadOf(f, DecodeHeader(f).value) == PayloadOf(o, DecodeHeader(o).value))
  {
    var front, last := events[..|events| - 1], events[|events| - 1];
    if i < |Relays(cs, now, front)| {
      k := RelaysPreserve(cs, now, front, i);
    } else {
      hide Next, DecodeHeader, PayloadOf;
      var net := After(cs, now, front);
      var f := net.nodes[last.node].pendingRepeat.value;
      assert Relays(cs, now, events)[i] == f;
      RunHasOrigin(cs, now, front);
      k :| 0 <= k < |front| && front[k].Inject? && Descends(front[k].frame, f);
      var o := front[k].frame;
      assert f == o[HOP_OFFSET := f[HOP_OFFSET]];
      HopRewrite(o, f[HOP_OFFSET]);
    }
  }

  // ---------------------------------------------------------------------------
  // What duplicate suppression adds
  // ---------------------------------------------------------------------------

  /** A run as one node lives it. */
  ghost function StepsOf(cs: seq<Config>, now: u32, events: seq<Event>, i: nat): (steps: seq<Step>)
    requires Valid(cs, now, events)
  {
    if |events| == 0 then []
    else
      var front, last := events[..|events| - 1], events[|events| - 1];
      StepsOf(cs, now, front, i) + StepOf(After(cs, now, front), last, i)
  }

  function StepOf(net: Net, ev: Event, i: nat): (steps: seq<Step>)
    requires Enabled(net, ev)
  {
    match ev
    case Inject(_, _) => []
    case Arrive(k, time) => if net.air[k].dest == i then [Recv(net.air[k].frame, time)] else []
    case Beat(node, time, _) => if node == i then [Tick(time)] else []
  }

  lemma NodeOfStep(cs: seq<Config>, net: Net, ev: Event, i: nat)
    requires |cs| == |net.nodes| && Sound(net) && Enabled(net, ev) && i < |cs|
    ensures |Next(cs, net, ev).nodes| == |cs| && WellFormed(net.nodes[i])
    ensures var steps := StepOf(net, ev, i);
            if steps == [] then Next(cs, net, ev).nodes[i] == net.nodes[i]
            else |steps| == 1 && Next(cs, net, ev).nodes[i] == Do(cs[i], net.nodes[i], steps[0]).0
  {
    hide AfterRecv, AfterTick;
  }

  /** Each node of the network runs the node's own protocol. */
  lemma {:induction false} NodeRuns(cs: seq<Config>, now: u32, events: seq<Event>, i: nat)
    requires Valid(cs, now, events) && i < |cs|
    ensures After(cs, now, events).nodes[i] == Run(cs[i], now, StepsOf(cs, now, events, i)).0
  {
    hide Next, Do, Run, StepOf, Sound;
    if |events| == 0 {
      RunOfNothing(cs[i], now);
    } else {
      var front, last := events[..|events| - 1], events[|events| - 1];
      NodeRuns(cs, now, front, i);
      var net := After(cs, now, front);
      NodeOfStep(cs, net, last, i);
      var before, steps := StepsOf(cs, now, front, i), StepsOf(cs, now, events, i);
      if StepOf(net, last, i) == [] {
        assert steps == before;
      } else {
        assert steps[..|steps| - 1] == before;
        RunStep(cs[i], now, steps);
      }
    }
  }

  /** The frames a node has relayed in a run. */
  ghost function RelaysBy(cs: seq<Config>, now: u32, events: seq<Event>, i: nat): (fs: seq<seq<u8>>)
    requires Valid(cs, now, events) && i < |cs|
  {
    SendLog(cs[i], now, StepsOf(cs, now, events, i))
  }

  lemma RelaysByStep(cs: seq<Config>, now: u32, events: seq<Event>, i: nat)
    requires Valid(cs, now, events) && i < |cs| && |events| > 0
    ensures var front, last := events[..|events| - 1], events[|events| - 1];
            RelaysBy(cs, now, events, i)
            == RelaysBy(cs, now, front, i)
               + if last.Beat? && last.node == i then RelayedBy(After(cs, now, front), last) else []
  {
    hide Run, After, Sound;
    var front, last := events[..|events| - 1], events[|events| - 1];
    NodeRuns(cs, now, front, i);
    var net, before, steps := After(cs, now, front), StepsOf(cs, now, front, i), StepsOf(cs, now, events, i);
    var sent := SendLog(cs[i], now, before);
    assert sent + [] == sent;
    if StepOf(net, last, i) == [] {
      assert steps == before;
    } else {
      assert steps[..|steps| - 1] == before;
      SendLogStep(cs[i], now, steps);
    }
  }

  lemma SendLogStep(c: Config, start: u32, steps: seq<Step>)
    requires |steps| > 0
    ensures var front := steps[..|steps| - 1];
            SendLog(c, start, steps) == SendLog(c, start, front) + SentBy(Run(c, start, front).0, steps[|steps| - 1])
  {
  }

  /** How many of the frames carry a pair. */
  function CountPair(fs: seq<seq<u8>>, p: Mark): (n: nat) {
    if |fs| == 0 then 0 else CountPair(fs[..|fs| - 1], p) + if PairOf(fs[|fs| - 1]) == p then 1 else 0
  }

  lemma CountPairFew(f: seq<u8>, p: Mark)
    ensures CountPair([], p) == 0
    ensures CountPair([f], p) == if PairOf(f) == p then 1 else 0
  {
    assert [f][..0] == [];
  }

  lemma {:induction false} CountPairConcat(a: seq<seq<u8>>, b: seq<seq<u8>>, p: Mark)
    requires |b| <= 1
    ensures CountPair(a + b, p) == CountPair(a, p) + CountPair(b, p)
  {
    if |b| == 0 {
      assert a + b == a;
    } else {
      assert (a + b)[..|a + b| - 1] == a;
      CountPairFew(b[0], p);
      assert b == [b[0]];
    }
  }

  lemma {:induction false} DistinctPairsCount(fs: seq<seq<u8>>, p: Mark)
    requires forall i, j :: 0 <= i < j < |fs| ==> PairOf(fs[i]) != PairOf(fs[j])
    ensures CountPair(fs, p) <= 1
    ensures CountPair(fs, p) == 1 ==> exists k :: 0 <= k < |fs| && PairOf(fs[k]) == p
  {
    hide PairOf;
    if |fs| > 0 {
      DistinctPairsCount(fs[..|fs| - 1], p);
    }
  }

  /** How many relays of a pair the first n nodes have made. */
  ghost function PairRelays(cs: seq<Config>, now: u32, events: seq<Event>, p: Mark, n: nat): (r: nat)
    requires Valid(cs, now, events) && n <= |cs|
  {
    if n == 0 then 0
    else PairRelays(cs, now, events, p, n - 1) + CountPair(RelaysBy(cs, now, events, n - 1), p)
  }

  lemma {:induction false} PairRelaysStep(cs: seq<Config>, now: u32, events: seq<Event>, p: Mark, n: nat)
    requires Valid(cs, now, events) && n <= |cs| && |events| > 0
    ensures var front, last := events[..|events| - 1], events[|events| - 1];
            PairRelays(cs, now, events, p, n)
            == PairRelays(cs, now, front, p, n)
               + if last.Beat? && last.node < n then CountPair(RelayedBy(After(cs, now, front), last), p) else 0
  {
    hide After, RelaysBy, CountPair, RelayedBy, Enabled;
    var front, last := events[..|events| - 1], events[|events| - 1];
    if n > 0 {
      PairRelaysStep(cs, now, events, p, n - 1);
      RelaysByStep(cs, now, events, n - 1);
      var sent := RelaysBy(cs, now, front, n - 1);
      if last.Beat? && last.node == n - 1 {
        AtMostOne(After(cs, now, front), last);
        CountPairConcat(sent, RelayedBy(After(cs, now, front), last), p);
      } else {
        assert sent + [] == sent;
      }
    }
  }

  lemma AtMostOne(net: Net, ev: Event)
    requires Enabled(net, ev)
    ensures |RelayedBy(net, ev)| <= 1 && (!ev.Beat? ==> RelayedBy(net, ev) == [])
    ensures ev.Beat? ==> ev.node < |net.nodes|
  {
  }

  /** The network's relays are those of its nodes. */
  lemma {:induction false} RelaysAreNodes(cs: seq<Config>, now: u32, events: seq<Event>, p: Mark)
    requires Valid(cs, now, events)
    ensures CountPair(Relays(cs, now, events), p) == PairRelays(cs, now, events, p, |cs|)
  {
    hide After, RelaysBy, CountPair, RelayedBy, PairRelays, Enabled;
    CountPairFew([], p);
    if |events| == 0 {
      NoRelaysYet(cs, now, p, |cs|);
    } else {
      var front, last := events[..|events| - 1], events[|events| - 1];
      RelaysAreNodes(cs, now, front, p);
      PairRelaysStep(cs, now, events, p, |cs|);
      var net := After(cs, now, front);
      AtMostOne(net, last);
      CountPairConcat(Relays(cs, now, front), RelayedBy(net, last), p);
    }
  }

  lemma {:induction false} NoRelaysYet(cs: seq<Config>, now: u32, p: Mark, n: nat)
    requires Valid(cs, now, []) && n <= |cs|
    ensures PairRelays(cs, now, [], p, n) == 0
  {
    if n > 0 {
      NoRelaysYet(cs, now, p, n - 1);
    }
  }

  /** Every injected frame that decodes carries one of the pairs. */
  predicate InjectsPairs(events: seq<Event>, pairs: set<Mark>) {
    forall k :: 0 <= k < |events| && events[k].Inject? ==> FromPairs(events[k].frame, pairs)
  }

  lemma DescendantPair(o: seq<u8>, f: seq<u8>, pairs: set<Mark>)
    requires Descends(o, f) && FromPairs(o, pairs)
    ensures FromPairs(f, pairs)
  {
    hide DecodeHeader;
    if f != o {
      HopRewrite(o, f[HOP_OFFSET]);
    }
  }

  lemma OriginPair(events: seq<Event>, f: seq<u8>, pairs: set<Mark>)
    requires HasOrigin(events, f) && InjectsPairs(events, pairs)
    ensures FromPairs(f, pairs)
  {
    hide FromPairs;
    var k :| 0 <= k < |events| && events[k].Inject? && Descends(events[k].frame, f);
    DescendantPair(events[k].frame, f, pairs);
  }

  lemma {:induction false} NodesHearPairs(cs: seq<Config>, now: u32, events: seq<Event>, i: nat, pairs: set<Mark>)
    requires Valid(cs, now, events) && InjectsPairs(events, pairs)
    ensures AllFromPairs(StepsOf(cs, now, events, i), pairs)
  {
    hide FromPairs, HasOrigin, Next;
    if |events| > 0 {
      var front, last := events[..|events| - 1], events[|events| - 1];
      NodesHearPairs(cs, now, front, i, pairs);
      RunHasOrigin(cs, now, front);
      var net := After(cs, now, front);
      if last.Arrive? {
        OriginPair(front, net.air[last.k].frame, pairs);
      }
    }
  }

  lemma PrefixDistinct(sent: seq<seq<u8>>, all: seq<seq<u8>>, log: seq<Mark>, pairs: set<Mark>)
    requires sent <= all && DistinctPairs(all, log) && DistinctMarks(log, pairs)
    ensures forall i, j :: 0 <= i < j < |sent| ==> PairOf(sent[i]) != PairOf(sent[j])
    ensures forall k :: 0 <= k < |sent| ==> PairOf(sent[k]) in pairs
  {
    hide PairOf;
    assert forall k :: 0 <= k < |sent| ==> sent[k] == all[k];
    forall k | 0 <= k < |sent| ensures PairOf(sent[k]) in pairs {
      assert PairOf(all[k]) in log;
    }
  }

  /** A node relays each pair at most once. */
  lemma NodeRelaysOnce(cs: seq<Config>, now: u32, events: seq<Event>, p: Mark, i: nat, pairs: set<Mark>)
    requires Valid(cs, now, events) && InjectsPairs(events, pairs) && FitRing(pairs) && i < |cs|
    ensures CountPair(RelaysBy(cs, now, events, i), p) <= if p in pairs then 1 else 0
  {
    hide Run, StepsOf, CountPair, FitRing, AllFromPairs, SendLog, PairOf;
    NodesHearPairs(cs, now, events, i, pairs);
    var steps := StepsOf(cs, now, events, i);
    RelayedOnce(cs[i], now, steps, pairs);
    MarksAreDistinct(cs[i], now, steps, pairs);
    var sent, all := RelaysBy(cs, now, events, i), Outgoing(cs[i], now, steps);
    assert sent <= all;
    PrefixDistinct(sent, all, MarkLog(cs[i], now, steps), pairs);
    DistinctPairsCount(sent, p);
  }

  lemma {:induction false} PairRelaysBound(cs: seq<Config>, now: u32, events: seq<Event>, p: Mark, n: nat, pairs: set<Mark>)
    requires Valid(cs, now, events) && InjectsPairs(events, pairs) && FitRing(pairs) && n <= |cs|
    ensures PairRelays(cs, now, events, p, n) <= if p in pairs then n else 0
  {
    hide RelaysBy, CountPair, FitRing, InjectsPairs, Valid;
    if n > 0 {
      PairRelaysBound(cs, now, events, p, n - 1, pairs);
      NodeRelaysOnce(cs, now, events, p, n - 1, pairs);
    }
  }

  /** What the duplicate ring is for: while at most sixteen pairs of source and sequence number are
      injected, all sequenced, at any hop counts and any number of times, a network of N nodes
      relays each pair at most N times, and nothing else. */
  lemma PairsRelayedOnce(cs: seq<Config>, now: u32, events: seq<Event>, p: Mark, pairs: set<Mark>)
    requires Valid(cs, now, events) && InjectsPairs(events, pairs) && FitRing(pairs)
    ensures CountPair(Relays(cs, now, events), p) <= if p in pairs then |cs| else 0
  {
    hide RelaysBy, CountPair, FitRing, InjectsPairs, PairRelays, Relays;
    RelaysAreNodes(cs, now, events, p);
    PairRelaysBound(cs, now, events, p, |cs|, pairs);
  }
}
