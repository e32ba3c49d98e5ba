/** How far the hop budget carries a frame: down a line of repeating nodes it reaches four of them,
    is relayed three times, and goes no further. */
module RelayLine {
  import opened Bytes
  import opened Frame
  import opened LumeMode
  import opened LumeWire
  import opened RelayNetwork

  /** A frame injected at node 0, then k times: it arrives, and the node's next tick reaches the next
      node of the line only. */
  function Line(f: seq<u8>, k: nat, time: u32): (events: seq<Event>) {
    if k == 0 then [Inject(f, [0])]
    else
      var before := Line(f, k - 1, time);
      if k <= 4 then before + [Arrive(0, time), Beat(k - 1, time, [k])] else before
  }

  /** What is on the air when the frame is on its way to node k. */
  function OnAir(f: seq<u8>, k: nat): (air: seq<Delivery>)
    requires |f| >= 9
  {
    if k <= 3 then [Delivery(k, f[6 := k])] else []
  }

  /** The relays made by then. */
  function Relayed(f: seq<u8>, k: nat): (fs: seq<seq<u8>>)
    requires |f| >= 9
  {
    if k == 0 then [] else if k <= 3 then Relayed(f, k - 1) + [f[6 := k]] else Relayed(f, 3)
  }

  /** The frame on its way to node k: those before have heard it, the others nothing yet. */
  ghost predicate Underway(cs: seq<Config>, now: u32, f: seq<u8>, k: nat, net: Net)
    requires |f| >= 9
  {
    && |net.nodes| == |cs| && net.air == OnAir(f, k)
    && (forall i :: 0 <= i < |cs| && i < k ==> net.nodes[i].rx == 1)
    && (forall i :: k <= i < |cs| ==> net.nodes[i] == Enter(cs[i], now))
  }

  /** A frame that any repeating node relays. */
  predicate Travels(f: seq<u8>) {
    ShowFrame(f) && |f| <= 250 && 0x40 <= SourceOf(f) <= 0xFE
  }

  lemma FreshHasSeenNothing(c: Config, now: u32, m: Mark)
    ensures !Seen(Enter(c, now).ring, m)
  {
  }

  lemma OneHopOn(f: seq<u8>, k: nat)
    requires Travels(f) && k <= 3
    ensures Travels(f[6 := k]) && f[6 := k][6] == k && SourceOf(f[6 := k]) == SourceOf(f)
    ensures k < 3 ==> f[6 := k][6 := k + 1] == f[6 := k + 1]
  {
  }

  /** A fresh repeating node hears a travelling frame and queues its copy while hops are left. */
  lemma FreshNodeHears(c: Config, now: u32, f: seq<u8>, time: u32)
    requires c.repeats && Travels(f)
    ensures var s := AfterRecv(c, Enter(c, now), f, time).0;
            s.rx == 1 && s.pendingRepeat == if f[6] < 3 then Some(f[6 := f[6] + 1]) else None
  {
    var s := Enter(c, now);
    assert Heard(s, f) && s.rx == 0 && s.pendingRepeat == None;
    FreshHasSeenNothing(c, now, PairIn(f));
    hide Heard, Seen, AfterRecv, Enter, IsPulse;
    QueuesFromBytes(c, s, f, time);
    RecvTells(c, s, f, time);
  }

  lemma ArrivalIs(cs: seq<Config>, net: Net, d: Delivery, time: u32)
    requires |cs| == |net.nodes| && Sound(net) && net.air == [d] && d.dest < |cs|
    ensures Enabled(net, Arrive(0, time)) && RelayedBy(net, Arrive(0, time)) == []
    ensures Next(cs, net, Arrive(0, time))
            == Net(net.nodes[d.dest := AfterRecv(cs[d.dest], net.nodes[d.dest], d.frame, time).0], [])
  {
    hide AfterRecv;
  }

  lemma BeatIs(cs: seq<Config>, net: Net, k: nat, time: u32)
    requires |cs| == |net.nodes| && Sound(net) && net.air == [] && k + 1 < |cs|
    ensures Enabled(net, Beat(k, time, [k + 1]))
    ensures var p := net.nodes[k].pendingRepeat;
            && RelayedBy(net, Beat(k, time, [k + 1])) == (if p.Some? then [p.value] else [])
            && Next(cs, net, Beat(k, time, [k + 1]))
               == Net(net.nodes[k := AfterTick(cs[k], net.nodes[k], time).0],
                      if p.Some? then [Delivery(k + 1, p.value)] else [])
  {
    hide AfterTick;
    OneDelivery(k + 1);
  }

  /** One more node of the line. */
  lemma NextNode(cs: seq<Config>, now: u32, net: Net, f: seq<u8>, k: nat, time: u32)
    requires |cs| >= 5 && (forall i :: 0 <= i < |cs| ==> cs[i].repeats) && Travels(f) && f[6] == 0 && k <= 3
    requires Sound(net) && Underway(cs, now, f, k, net)
    ensures Enabled(net, Arrive(0, time))
    ensures var net1 := Next(cs, net, Arrive(0, time));
            && Sound(net1) && |net1.nodes| == |cs| && Enabled(net1, Beat(k, time, [k + 1]))
            && RelayedBy(net, Arrive(0, time)) == []
            && RelayedBy(net1, Beat(k, time, [k + 1])) == (if k < 3 then [f[6 := k + 1]] else [])
            && Underway(cs, now, f, k + 1, Next(cs, net1, Beat(k, time, [k + 1])))
  {
    OneHopOn(f, k);
    assert |f| >= 9 && k < |cs| && net.nodes[k] == Enter(cs[k], now) && net.air == [Delivery(k, f[6 := k])];
    hide AfterRecv, AfterTick, Enter, Travels, Sound, Next, Enabled, RelayedBy, Underway;
    var g := f[6 := k];
    FreshNodeHears(cs[k], now, g, time);
    ArrivalIs(cs, net, Delivery(k, g), time);
    SoundKept(cs, net, Arrive(0, time));
    var net1 := Next(cs, net, Arrive(0, time));
    BeatIs(cs, net1, k, time);
    TickTells(cs[k], net1.nodes[k], time);
    OneMoreHeard(cs, now, f, k, net, net1.nodes[k], AfterTick(cs[k], net1.nodes[k], time).0);
  }

  lemma OneMoreHeard(cs: seq<Config>, now: u32, f: seq<u8>, k: nat, net: Net, heard: State, s: State)
    requires |f| >= 9 && k <= 3 && k < |cs| && Underway(cs, now, f, k, net) && s.rx == 1
    ensures Underway(cs, now, f, k + 1, Net(net.nodes[k := heard][k := s], OnAir(f, k + 1)))
  {
    hide Enter;
  }

  lemma OneDelivery(d: nat)
    ensures forall g: seq<u8> :: Deliveries([d], g) == [Delivery(d, g)]
  {
    forall g: seq<u8> ensures Deliveries([d], g) == [Delivery(d, g)] {
      assert [d][..0] == [];
    }
  }

  /** The first k steps of the line can be taken, have brought the frame to node k and made the relays
      that takes. */
  ghost predicate BroughtTo(cs: seq<Config>, now: u32, f: seq<u8>, time: u32, k: nat)
    requires |f| >= 9
  {
    var events := Line(f, k, time);
    && Valid(cs, now, events)
    && Underway(cs, now, f, k, RelayNetwork.After(cs, now, events))
    && Relays(cs, now, events) == Relayed(f, k)
  }

  /** Main result: a frame with its whole hop budget, injected at the head of a line of repeating
      nodes, is heard by exactly the first four and relayed by exactly the first three, with hop
      counts 1, 2 and 3. */
  lemma LineReachesFour(cs: seq<Config>, now: u32, f: seq<u8>, time: u32)
    requires |cs| >= 5 && (forall i :: 0 <= i < |cs| ==> cs[i].repeats) && Travels(f) && f[6] == 0
    ensures var events := Line(f, 4, time);
            && Valid(cs, now, events)
            && Relays(cs, now, events) == [f[6 := 1], f[6 := 2], f[6 := 3]]
            && var net := RelayNetwork.After(cs, now, events);
               && net.air == []
               && forall i :: 0 <= i < |cs| ==> net.nodes[i].rx == if i < 4 then 1 else 0
  {
    hide Line, Relays, RelayNetwork.After, Valid, Travels, Relayed;
    TravelsWhole(f);
    RelayedAll(f);
    LineBrings(cs, now, f, time, 4);
  }

  lemma RelayedAll(f: seq<u8>)
    requires |f| >= 9
    ensures Relayed(f, 4) == [f[6 := 1], f[6 := 2], f[6 := 3]]
  {
    assert Relayed(f, 1) == [] + [f[6 := 1]];
    assert Relayed(f, 2) == [f[6 := 1]] + [f[6 := 2]];
    assert Relayed(f, 4) == Relayed(f, 3) == [f[6 := 1], f[6 := 2]] + [f[6 := 3]];
  }

  lemma TravelsWhole(f: seq<u8>)
    requires Travels(f)
    ensures |f| >= 9
  {
  }

  lemma {:induction false} LineBrings(cs: seq<Config>, now: u32, f: seq<u8>, time: u32, k: nat)
    requires |cs| >= 5 && (forall i :: 0 <= i < |cs| ==> cs[i].repeats) && Travels(f) && f[6] == 0 && k <= 4
    ensures |f| >= 9 && BroughtTo(cs, now, f, time, k)
  {
    hide BroughtTo, Travels, ShowFrame, Underway, Line, Relayed, Relays, RelayNetwork.After, Valid;
    TravelsWhole(f);
    if k == 0 {
      BroughtToStart(cs, now, f, time);
    } else {
      LineBrings(cs, now, f, time, k - 1);
      BroughtOn(cs, now, f, time, k - 1);
    }
  }

  lemma BroughtToStart(cs: seq<Config>, now: u32, f: seq<u8>, time: u32)
    requires |cs| >= 5 && Travels(f) && f[6] == 0
    ensures BroughtTo(cs, now, f, time, 0)
  {
    LineStep(f, 0, time);
    hide Underway, Next, Relays, RelayNetwork.After, Valid, Line, Relayed;
    Launched(cs, now, f);
  }

  lemma BroughtOn(cs: seq<Config>, now: u32, f: seq<u8>, time: u32, k: nat)
    requires |cs| >= 5 && (forall i :: 0 <= i < |cs| ==> cs[i].repeats) && Travels(f) && f[6] == 0 && k <= 3
    requires BroughtTo(cs, now, f, time, k)
    ensures BroughtTo(cs, now, f, time, k + 1)
  {
    hide Underway, Travels, Next, Relays, RelayNetwork.After, Valid, Sound, Line, Relayed;
    TravelsWhole(f);
    LineStep(f, k + 1, time);
    OneNodeOn(cs, now, f, time, k, Line(f, k, time));
  }

  lemma OneNodeOn(cs: seq<Config>, now: u32, f: seq<u8>, time: u32, k: nat, before: seq<Event>)
    requires |cs| >= 5 && (forall i :: 0 <= i < |cs| ==> cs[i].repeats) && Travels(f) && f[6] == 0 && k <= 3
    requires Valid(cs, now, before) && Underway(cs, now, f, k, RelayNetwork.After(cs, now, before))
    ensures var events := before + [Arrive(0, time), Beat(k, time, [k + 1])];
            && Valid(cs, now, events) && Underway(cs, now, f, k + 1, RelayNetwork.After(cs, now, events))
            && Relays(cs, now, events) == Relays(cs, now, before) + (if k < 3 then [f[6 := k + 1]] else [])
  {
    hide Underway, Travels, Next, RelayedBy, Enabled, Relays, RelayNetwork.After, Valid, Sound;
    NextNode(cs, now, RelayNetwork.After(cs, now, before), f, k, time);
    ExtendTwice(cs, now, before, Arrive(0, time), Beat(k, time, [k + 1]));
  }

  lemma LineStep(f: seq<u8>, k: nat, time: u32)
    requires |f| >= 9 && k <= 4
    ensures k == 0 ==> Line(f, k, time) == [Inject(f, [0])] && Relayed(f, k) == []
    ensures k > 0 ==>
              && Line(f, k, time) == Line(f, k - 1, time) + [Arrive(0, time), Beat(k - 1, time, [k])]
              && Relayed(f, k) == Relayed(f, k - 1) + (if k - 1 < 3 then [f[6 := k]] else [])
  {
  }

  lemma ExtendTwice(cs: seq<Config>, now: u32, events: seq<Event>, a: Event, b: Event)
    requires Valid(cs, now, events) && |cs| == |RelayNetwork.After(cs, now, events).nodes|
    requires var net := RelayNetwork.After(cs, now, events);
             Sound(net) && Enabled(net, a) && Sound(Next(cs, net, a)) && Enabled(Next(cs, net, a), b)
             && |Next(cs, net, a).nodes| == |cs|
    ensures Valid(cs, now, events + [a, b])
    ensures var net := RelayNetwork.After(cs, now, events);
            var net1 := Next(cs, net, a);
            && RelayNetwork.After(cs, now, events + [a, b]) == Next(cs, net1, b)
            && Relays(cs, now, events + [a, b]) == Relays(cs, now, events) + RelayedBy(net, a) + RelayedBy(net1, b)
  {
    hide Next, RelayedBy, Enabled, Relays, RelayNetwork.After, Valid, Sound;
    Extend(cs, now, events, a);
    Extend(cs, now, events + [a], b);
    assert events + [a] + [b] == events + [a, b];
  }

  lemma Extend(cs: seq<Config>, now: u32, events: seq<Event>, ev: Event)
    requires Valid(cs, now, events) && Enabled(RelayNetwork.After(cs, now, events), ev)
    ensures Valid(cs, now, events + [ev])
    ensures RelayNetwork.After(cs, now, events + [ev]) == Next(cs, RelayNetwork.After(cs, now, events), ev)
    ensures Relays(cs, now, events + [ev]) == Relays(cs, now, events) + RelayedBy(RelayNetwork.After(cs, now, events), ev)
  {
    assert (events + [ev])[..|events|] == events;
  }

  lemma Launched(cs: seq<Config>, now: u32, f: seq<u8>)
    requires |cs| >= 5 && Travels(f) && f[6] == 0
    ensures Valid(cs, now, [Inject(f, [0])])
    ensures Underway(cs, now, f, 0, RelayNetwork.After(cs, now, [Inject(f, [0])]))
    ensures Relays(cs, now, [Inject(f, [0])]) == []
  {
    assert [] + [Inject(f, [0])] == [Inject(f, [0])];
    Extend(cs, now, [], Inject(f, [0]));
    OneDelivery(0);
    assert f[6 := 0] == f;
  }
}
