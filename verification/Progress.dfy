/** Nothing is ever stuck: from every state that a run can reach, everything accepted can still be delivered. */
module Progress {
  import opened Packets
  import opened Framing
  import opened PacketQueue
  import opened Endpoints
  import opened EndpointRuns
  import opened Delivery
  import opened Handover

  /** Both programs use supported versions. */
  predicate Civil(net: Net) {
    AllSupported(net.a.accepted) && AllSupported(net.b.accepted)
  }

  /** The input buffers have not reached their limit. */
  predicate Bounded(limits: Limits, net: Net) {
    |net.a.e.input| < limits.bufMax && |net.b.e.input| < limits.bufMax
  }

  /** A running connection that nobody has hung up and whose programs have taken their packets as they came. */
  predicate Healthy(limits: Limits, net: Net) {
    && net.ok && net.aOpen && net.bOpen && Connected(net) && Civil(net) && Bounded(limits, net)
    && TookInOrder(net.a) && TookInOrder(net.b)
  }

  predicate Generous(limits: Limits) {
    Roomy(limits) && DeviceRoomy(limits) && limits.queueSize >= 1
  }

  /** The packets that a has sent or queued and b has not decoded. */
  function Undecoded(net: Net): int {
    |net.a.accepted| - |net.b.decoded|
  }

  // ----- runs in parts -----

  lemma {:induction false} RunLast(limits: Limits, net: Net, front: seq<NetEvent>, e: NetEvent)
    ensures RunNet(limits, net, front + [e]) == NetStep(limits, RunNet(limits, net, front), e)
  {
    assert (front + [e])[..|front|] == front;
  }

  lemma {:induction false} RunOn(limits: Limits, net: Net, first: seq<NetEvent>, more: seq<NetEvent>)
    ensures RunNet(limits, net, first + more) == RunNet(limits, RunNet(limits, net, first), more)
  {
    if more == [] {
      assert first + more == first;
    } else {
      var k := |more| - 1;
      RunOn(limits, net, first, more[..k]);
      assert more == more[..k] + [more[k]] && first + more == (first + more[..k]) + [more[k]];
      RunLast(limits, net, first + more[..k], more[k]);
      RunLast(limits, RunNet(limits, net, first), more[..k], more[k]);
    }
  }

  lemma {:induction false} RunFromFirst(limits: Limits, net: Net, e: NetEvent, rest: seq<NetEvent>)
    ensures RunNet(limits, net, [e] + rest) == RunNet(limits, NetStep(limits, net, e), rest)
  {
    RunLast(limits, net, [], e);
    assert [] + [e] == [e];
    RunOn(limits, net, [e], rest);
  }

  // ----- programs that do nothing but take their packets -----

  /** The program takes its oldest packet, on its own or whenever it is told of one. */
  predicate Obliging(act: Act) {
    match act
    case Program(api) => api == GetData(0)
    case Loop(count, callback) => callback == [GetData(0)]
    case HangUp => false
  }

  predicate AllObliging(events: seq<NetEvent>) {
    forall i :: 0 <= i < |events| ==> Obliging(events[i].act)
  }

  lemma {:induction false} ObligingTakes(m: PacketMem)
    ensures Takes([GetData(0)], m)
  {
    assert TakesBy([GetData(0)][0], m);
  }

  /** Such programs keep both disciplines. */
  lemma {:induction false} ObligingIsOrderly(limits: Limits, net: Net, events: seq<NetEvent>)
    requires AllObliging(events)
    ensures InOrderAtA(events) && PromptAtA(limits, net, events)
  {
    forall m: PacketMem ensures Takes([GetData(0)], m) {
      ObligingTakes(m);
    }
    forall i | 0 <= i < |events| ensures ActsInOrder(events[i].act) && Obliging(events[i].act) {
    }
    if events != [] {
      ObligingIsOrderly(limits, net, events[..|events| - 1]);
    }
  }

  /** What it means that nothing is lost on the way from net to net', while no program calls. */
  predicate Onward(net: Net, net': Net) {
    && net'.a.accepted == net.a.accepted && net'.b.accepted == net.b.accepted
    && |net'.a.taken| >= |net.a.taken| && |net'.b.taken| >= |net.b.taken|
  }

  lemma {:induction false} OnwardTwice(net: Net, mid: Net, end: Net)
    requires Onward(net, mid) && Onward(mid, end)
    ensures Onward(net, end)
  {
  }

  lemma {:induction false} ReceiveKeepsBounded(limits: Limits, e: Endpoint, input: Input)
    requires |e.input| < limits.bufMax
    ensures |Receive(limits, e, input).e.input| < limits.bufMax
  {
  }

  lemma {:induction false} ActKeepsBounded(limits: Limits, net: Net, act: Act)
    requires Bounded(limits, net) && ActAtA(limits, net, act).ok
    ensures Bounded(limits, ActAtA(limits, net, act))
  {
    if act.Loop? {
      ReceiveKeepsBounded(limits, net.a.e, Arriving(limits, net, act.count));
    }
  }

  /** Taking the oldest packet sends nothing. */
  lemma {:induction false} TakingOne(limits: Limits, e: Endpoint)
    ensures var f := ApplyAll(limits, e, [GetData(0)]);
            && f.accepted == [] && f.e == Apply(limits, e, GetData(0)).e && f.e.outQueue == e.outQueue
            && |f.e.inQueue| == if e.inQueue == [] then 0 else |e.inQueue| - 1
  {
    var apis: seq<Api> := [GetData(0)];
    assert apis[..0] == [] && ApplyAll(limits, e, []) == Effect(e, [], []);
    assert e.inQueue != [] ==> FirstMatch(e.inQueue, 0) == 0;
  }

  /** The counts after an iteration of an obliging program that ends well: the bytes read leave the pipe, a packet is
      decoded and taken if one was complete, and one is sent if one was queued. */
  lemma {:induction false} LoopCounts(limits: Limits, net: Net, act: Act)
    requires act.Loop? && Obliging(act) && ActAtA(limits, net, act).ok
    ensures var p, p' := net.a, ActAtA(limits, net, act).a;
            && p'.accepted == p.accepted && |p'.decoded| >= |p.decoded| && |p'.taken| >= |p.taken|
            && ActAtA(limits, net, act).ba == net.ba[Portion(limits, net.ba, act.count)..]
            && (Next(p.e.input) != NeedMore && act.count == 0 ==> |p'.decoded| == |p.decoded| + 1)
            && |p'.e.outQueue| == if p.e.outQueue == [] then 0 else |p.e.outQueue| - 1
  {
    var r := Receive(limits, net.a.e, Arriving(limits, net, act.count));
    TakingOne(limits, r.e);
    assert net.a.accepted + [] == net.a.accepted;
  }

  lemma {:induction false} CallCounts(limits: Limits, net: Net)
    ensures var p, p' := net.a, ActAtA(limits, net, Act.Program(GetData(0))).a;
            && p'.accepted == p.accepted && p'.decoded == p.decoded && |p'.taken| >= |p.taken|
            && p'.e.outQueue == p.e.outQueue
            && |p'.e.inQueue| == if p.e.inQueue == [] then 0 else |p.e.inQueue| - 1
  {
    TakingOne(limits, net.a.e);
    assert net.a.accepted + [] == net.a.accepted;
  }

  lemma {:induction false} InOrderIsHandedOver(p: Peer)
    requires TookInOrder(p)
    ensures HandedOver(p)
  {
  }

  /** An obliging act that ends well keeps the connection healthy. */
  lemma {:induction false} ObligingStep(limits: Limits, net: Net, act: Act)
    requires Generous(limits) && Healthy(limits, net) && Obliging(act) && ActAtA(limits, net, act).ok
    ensures Healthy(limits, ActAtA(limits, net, act)) && Onward(net, ActAtA(limits, net, act))
  {
    ActKeeps(limits, net, act);
    ActKeepsBounded(limits, net, act);
    InOrderIsHandedOver(net.a);
    match act
    case Program(api) =>
      CallHandsOver(limits, net, api);
      CallCounts(limits, net);
    case Loop(count, callback) =>
      LoopHandsOver(limits, net, count, callback);
      LoopCounts(limits, net, act);
  }

  // ----- one step nearer -----

  /** b takes its oldest packet. */
  lemma {:induction false} TakeOne(limits: Limits, net: Net) returns (act: Act)
    requires Generous(limits) && Healthy(limits, net) && net.a.e.inQueue != []
    ensures Obliging(act)
    ensures var net' := ActAtA(limits, net, act);
            && Healthy(limits, net') && Onward(net, net')
            && net'.b == net.b && net'.ba == net.ba && net'.a.decoded == net.a.decoded
            && |net'.a.e.inQueue| < |net.a.e.inQueue| && net'.a.e.outQueue == net.a.e.outQueue && net'.ab == net.ab
  {
    act := Act.Program(GetData(0));
    ObligingStep(limits, net, act);
    CallCounts(limits, net);
  }

  /** a iterates, with room in its queue and in its buffer. */
  lemma {:induction false} Iterating(limits: Limits, net: Net, count: nat) returns (act: Act)
    requires Generous(limits) && Healthy(limits, net) && |net.a.e.inQueue| < limits.queueSize
    requires |net.a.e.input| + Portion(limits, net.ba, count) < limits.bufMax
    ensures act == Loop(count, [GetData(0)])
    ensures var net' := ActAtA(limits, net, act); Healthy(limits, net') && Onward(net, net')
  {
    act := Loop(count, [GetData(0)]);
    WhenIterationsFail(limits, net, count, [GetData(0)]);
    assert OnTheWire(net) != [] ==> OnTheWire(net)[0] == net.b.accepted[|net.a.decoded|];
    ObligingStep(limits, net, act);
  }

  /** With nothing in the pipe and no complete packet at b, whatever is not decoded waits in a's out-queue. */
  lemma {:induction false} NothingOnTheWire(net: Net)
    requires Connected(net) && Civil(net) && net.ab == [] && Next(net.b.e.input) == NeedMore
    ensures Undecoded(net) == |net.a.e.outQueue|
  {
    var d, sent := |net.b.decoded|, |net.a.accepted| - |net.a.e.outQueue|;
    var flying := net.a.accepted[d..sent];
    assert net.b.e.input + [] == net.b.e.input;
    assert AllSupported(flying);
    NextOfFrames(net.b.e.input, flying);
  }

  /** The measure of what is left to do on the way from a to b. */
  predicate Nearer(n: Net, m: Net) {
    || |n.a.e.outQueue| < |m.a.e.outQueue|
    || (|n.a.e.outQueue| == |m.a.e.outQueue| &&
        (|| Undecoded(n) < Undecoded(m)
         || (Undecoded(n) == Undecoded(m) &&
             (|| |n.ab| < |m.ab|
              || (|n.ab| == |m.ab| && |n.b.e.inQueue| + |n.a.e.inQueue| < |m.b.e.inQueue| + |m.a.e.inQueue|)))))
  }

  /** a makes room in its in-queue, or iterates and sends a packet. */
  lemma {:induction false} SendOne(limits: Limits, net: Net) returns (act: Act)
    requires Generous(limits) && Healthy(limits, net) && net.a.e.outQueue != []
    ensures Obliging(act)
    ensures var net' := ActAtA(limits, net, act); Healthy(limits, net') && Onward(net, net') && Nearer(net', net)
  {
    if |net.a.e.inQueue| >= limits.queueSize {
      act := TakeOne(limits, net);
    } else {
      act := Iterating(limits, net, 0);
      LoopCounts(limits, net, act);
    }
  }

  /** b receives: it takes a packet that waits, decodes a complete one, or reads on. */
  lemma {:induction false} ReceiveOne(limits: Limits, net: Net) returns (act: Act)
    requires Generous(limits) && Healthy(limits, net)
    requires net.b.e.inQueue != [] || Next(net.b.e.input) != NeedMore || net.ab != []
    ensures Obliging(act)
    ensures var net' := NetStep(limits, net, AtB(act));
            Healthy(limits, net') && Onward(net, net') && Nearer(net', net)
  {
    var m := Mirror(net);
    if net.b.e.inQueue != [] {
      act := TakeOne(limits, m);
    } else if Next(net.b.e.input) != NeedMore {
      act := Iterating(limits, m, 0);
      LoopCounts(limits, m, act);
    } else {
      NeedMoreIsShort(net.b.e.input);
      act := Iterating(limits, m, limits.ioSize);
      LoopCounts(limits, m, act);
    }
  }

  /** Some step brings an undelivered packet nearer, as long as there is one. */
  lemma {:induction false} SomeStepHelps(limits: Limits, net: Net) returns (e: NetEvent)
    requires Generous(limits) && Healthy(limits, net)
    requires net.b.e.inQueue != [] || Undecoded(net) > 0
    ensures Obliging(e.act)
    ensures var net' := NetStep(limits, net, e); Healthy(limits, net') && Onward(net, net') && Nearer(net', net)
  {
    if net.b.e.inQueue != [] || Next(net.b.e.input) != NeedMore || net.ab != [] {
      var act := ReceiveOne(limits, net);
      e := AtB(act);
    } else {
      NothingOnTheWire(net);
      var act := SendOne(limits, net);
      e := AtA(act);
    }
  }

  // ----- delivery of everything -----

  /** Every packet accepted by a has been taken by b's program, in order. */
  predicate AllDelivered(net: Net) {
    AllHold(net.b.taken, net.a.accepted)
  }

  /** The events lead on to a healthy connection on which everything from a to b is delivered. */
  predicate Delivers(limits: Limits, net: Net, events: seq<NetEvent>) {
    var end := RunNet(limits, net, events);
    AllObliging(events) && Healthy(limits, end) && Onward(net, end) && AllDelivered(end)
  }

  lemma {:induction false} NothingLeft(limits: Limits, net: Net)
    requires Healthy(limits, net) && net.b.e.inQueue == [] && Undecoded(net) <= 0
    ensures AllDelivered(net)
  {
    assert net.b.decoded == net.b.taken + [];
    assert net.a.accepted[..|net.b.decoded|] == net.a.accepted;
  }

  lemma {:induction false} DeliversFromFirst(limits: Limits, net: Net, e: NetEvent, rest: seq<NetEvent>)
    requires Obliging(e.act) && Onward(net, NetStep(limits, net, e)) && Delivers(limits, NetStep(limits, net, e), rest)
    ensures Delivers(limits, net, [e] + rest)
  {
    RunFromFirst(limits, net, e, rest);
    OnwardTwice(net, NetStep(limits, net, e), RunNet(limits, net, [e] + rest));
  }

  /** Steps that deliver everything on the way from a to b. */
  lemma {:induction false} Deliver(limits: Limits, net: Net) returns (events: seq<NetEvent>)
    requires Generous(limits) && Healthy(limits, net)
    ensures Delivers(limits, net, events)
    decreases |net.a.e.outQueue|, Undecoded(net), |net.ab|, |net.b.e.inQueue| + |net.a.e.inQueue|
  {
    if net.b.e.inQueue == [] && Undecoded(net) <= 0 {
      events := [];
      NothingLeft(limits, net);
    } else {
      var e := SomeStepHelps(limits, net);
      var rest := Deliver(limits, NetStep(limits, net, e));
      events := [e] + rest;
      DeliversFromFirst(limits, net, e, rest);
    }
  }

  /** What is delivered stays delivered. */
  lemma {:induction false} StaysDelivered(limits: Limits, net: Net, end: Net)
    requires Healthy(limits, net) && Healthy(limits, end) && Onward(net, end) && AllDelivered(net)
    ensures AllDelivered(end)
  {
    assert |end.b.taken| == |end.b.decoded| == |end.a.accepted|;
    assert end.b.decoded == end.b.taken;
    assert end.a.accepted[..|end.b.decoded|] == end.a.accepted;
  }

  lemma {:induction false} MirrorIsHealthy(limits: Limits, net: Net)
    ensures Healthy(limits, net) <==> Healthy(limits, Mirror(net))
  {
  }

  /** Steps that deliver everything on the way from b to a, with everything else delivered. */
  lemma {:induction false} DeliverBack(limits: Limits, net: Net) returns (events: seq<NetEvent>)
    requires Generous(limits) && Healthy(limits, net) && AllDelivered(net)
    ensures AllObliging(events)
    ensures var end := RunNet(limits, net, events);
            end.ok && Onward(net, end) && AllDelivered(end) && AllDelivered(Mirror(end))
  {
    MirrorIsHealthy(limits, net);
    var back := Deliver(limits, Mirror(net));
    events := MirrorEvents(back);
    MirrorRun(limits, Mirror(net), back);
    assert Mirror(Mirror(net)) == net;
    var end := RunNet(limits, net, events);
    assert end == Mirror(RunNet(limits, Mirror(net), back));
    MirrorIsHealthy(limits, end);
    StaysDelivered(limits, net, end);
  }

  /** Steps that deliver everything in both directions. */
  lemma {:induction false} DeliverBoth(limits: Limits, net: Net) returns (events: seq<NetEvent>)
    requires Generous(limits) && Healthy(limits, net)
    ensures AllObliging(events)
    ensures var end := RunNet(limits, net, events);
            end.ok && Onward(net, end) && AllDelivered(end) && AllDelivered(Mirror(end))
  {
    var first := Deliver(limits, net);
    var mid := RunNet(limits, net, first);
    var back := DeliverBack(limits, mid);
    RunOn(limits, net, first, back);
    OnwardTwice(net, mid, RunNet(limits, mid, back));
    events := first + back;
  }

  lemma {:induction false} RunsStayBounded(limits: Limits, net: Net, events: seq<NetEvent>)
    requires Generous(limits) && Initial(net) && RunNet(limits, net, events).ok
    ensures Bounded(limits, RunNet(limits, net, events))
  {
    if events != [] {
      var front := RunNet(limits, net, events[..|events| - 1]);
      RunsStayBounded(limits, net, events[..|events| - 1]);
      match events[|events| - 1]
      case AtA(act) => ActKeepsBounded(limits, front, act);
      case AtB(act) => ActKeepsBounded(limits, Mirror(front), act);
    }
  }

  /** Nothing is ever stuck, in either direction: after any run in which no iteration has failed and nobody has hung
      up, as long as the programs used supported versions and each kept one of the two disciplines of taking packets,
      the endpoints can be run on, the programs doing nothing but take their packets, so that every packet accepted so
      far at either end arrives with the program at the other end, in order. */
  lemma {:induction false} EverythingCanBeDelivered(limits: Limits, start: Net, events: seq<NetEvent>)
    returns (more: seq<NetEvent>)
    requires Generous(limits) && Initial(start)
    requires OrderlyAtA(limits, start, events) && OrderlyAtB(limits, start, events)
    requires var net := RunNet(limits, start, events); net.ok && net.aOpen && net.bOpen && Civil(net)
    ensures AllObliging(more)
    ensures var net, end := RunNet(limits, start, events), RunNet(limits, start, events + more);
            && end.ok && end.a.accepted == net.a.accepted && end.b.accepted == net.b.accepted
            && AllDelivered(end) && AllDelivered(Mirror(end))
  {
    RunsStayConnected(limits, start, events);
    OrderlyTakesInOrder(limits, start, events);
    MirrorRun(limits, start, events);
    OrderlyTakesInOrder(limits, Mirror(start), MirrorEvents(events));
    RunsStayBounded(limits, start, events);
    more := DeliverBoth(limits, RunNet(limits, start, events));
    RunOn(limits, start, events, more);
  }

  /** The build constants of the server leave all the room that the theorems ask for. */
  lemma ServerIsGenerous()
    ensures Generous(SERVER_LIMITS)
  {
  }
}
