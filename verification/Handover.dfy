/** What the programs at both ends get, in every run: each packet once, in order for programs that keep one of two
    disciplines, and the waiting packets in order for all. */
module Handover {
  import opened Bytes
  import opened Packets
  import opened PacketQueue
  import opened Endpoints
  import opened EndpointRuns
  import opened Delivery

  // ----- exactly once -----

  /** Each decoded packet has been taken by the program or waits in the in-queue, once. */
  predicate HandedOver(p: Peer) {
    multiset(p.decoded) == multiset(p.taken) + multiset(p.e.inQueue)
  }

  /** The program takes packets as they come, not by request id: the first discipline. */
  predicate TakesInOrder(apis: seq<Api>) {
    forall i :: 0 <= i < |apis| && apis[i].GetData? ==> apis[i].rrId == 0
  }

  predicate ActsInOrder(act: Act) {
    match act
    case Program(api) => TakesInOrder([api])
    case Loop(_, callback) => TakesInOrder(callback)
    case HangUp => true
  }

  lemma {:induction false} Removing(q: seq<PacketMem>, i: nat)
    requires i < |q|
    ensures multiset([q[i]]) + multiset(Without(q, i)) == multiset(q)
    ensures i == 0 ==> [q[i]] + Without(q, i) == q
  {
    assert q == q[..i] + [q[i]] + q[i + 1..];
  }

  lemma {:induction false} ApplyHandsOver(limits: Limits, e: Endpoint, api: Api)
    ensures var f := Apply(limits, e, api);
            && multiset(f.taken) + multiset(f.e.inQueue) == multiset(e.inQueue)
            && (TakesInOrder([api]) ==> f.taken + f.e.inQueue == e.inQueue)
  {
    if api.GetData? {
      var i := FirstMatch(e.inQueue, api.rrId);
      if i < |e.inQueue| {
        Removing(e.inQueue, i);
        assert TakesInOrder([api]) ==> [api][0].rrId == 0;
      }
    }
  }

  lemma {:induction false} ApplyAllHandsOver(limits: Limits, e: Endpoint, apis: seq<Api>)
    ensures var f := ApplyAll(limits, e, apis);
            && multiset(f.taken) + multiset(f.e.inQueue) == multiset(e.inQueue)
            && (TakesInOrder(apis) ==> f.taken + f.e.inQueue == e.inQueue)
  {
    if apis != [] {
      var k := |apis| - 1;
      var front := ApplyAll(limits, e, apis[..k]);
      ApplyAllHandsOver(limits, e, apis[..k]);
      ApplyHandsOver(limits, front.e, apis[k]);
      var last := Apply(limits, front.e, apis[k]);
      assert TakesInOrder(apis) ==> TakesInOrder(apis[..k]) && TakesInOrder([apis[k]]) by {
        if TakesInOrder(apis) {
          assert forall i :: 0 <= i < k ==> apis[..k][i] == apis[i];
        }
      }
      Moving(front.taken, last.taken, last.e.inQueue, front.e.inQueue, e.inQueue);
    }
  }

  lemma {:induction false} Moving(taken: seq<PacketMem>, more: seq<PacketMem>, rest: seq<PacketMem>, q: seq<PacketMem>,
                                  all: seq<PacketMem>)
    requires multiset(taken) + multiset(q) == multiset(all) && multiset(more) + multiset(rest) == multiset(q)
    ensures multiset(taken + more) + multiset(rest) == multiset(all)
    ensures taken + q == all && more + rest == q ==> taken + more + rest == all
  {
  }

  lemma Regroup<T>(front: seq<T>, q: seq<T>, more: seq<T>, taken: seq<T>, rest: seq<T>)
    requires taken + rest == q + more
    ensures front + q + more == front + taken + rest
  {
    assert front + q + more == front + (q + more) && front + taken + rest == front + (taken + rest);
  }

  lemma RegroupElements<T>(all: seq<T>, front: seq<T>, q: seq<T>, more: seq<T>, taken: seq<T>, rest: seq<T>)
    requires multiset(all) == multiset(front) + multiset(q)
    requires multiset(taken) + multiset(rest) == multiset(q + more)
    ensures multiset(all + more) == multiset(front + taken) + multiset(rest)
  {
    var f, t, r := multiset(front), multiset(taken), multiset(rest);
    assert multiset(all + more) == f + multiset(q) + multiset(more) == f + multiset(q + more);
    assert multiset(front + taken) + r == f + t + r == f + (t + r);
  }

  /** Packets decoded and then partly taken are still all accounted for. */
  lemma {:induction false} Taking(p: Peer, decoded: seq<PacketMem>, taken: seq<PacketMem>, inQueue: seq<PacketMem>)
    requires multiset(taken) + multiset(inQueue) == multiset(p.e.inQueue + decoded)
    ensures HandedOver(p) ==> multiset(p.decoded + decoded) == multiset(p.taken + taken) + multiset(inQueue)
    ensures p.decoded == p.taken + p.e.inQueue && taken + inQueue == p.e.inQueue + decoded ==>
              p.decoded + decoded == p.taken + taken + inQueue
  {
    if HandedOver(p) {
      RegroupElements(p.decoded, p.taken, p.e.inQueue, decoded, taken, inQueue);
    }
    if p.decoded == p.taken + p.e.inQueue && taken + inQueue == p.e.inQueue + decoded {
      Regroup(p.taken, p.e.inQueue, decoded, taken, inQueue);
    }
  }

  lemma {:induction false} ReceivingQueues(limits: Limits, e: Endpoint, input: Input)
    requires Receive(limits, e, input).ok
    ensures Receive(limits, e, input).e.inQueue == e.inQueue + Receive(limits, e, input).decoded
  {
  }

  /** p took its packets as they came. */
  predicate TookInOrder(p: Peer) {
    p.decoded == p.taken + p.e.inQueue
  }

  lemma {:induction false} CallHandsOver(limits: Limits, net: Net, api: Api)
    requires HandedOver(net.a)
    ensures var p' := ActAtA(limits, net, Act.Program(api)).a;
            HandedOver(p') && (TookInOrder(net.a) && TakesInOrder([api]) ==> TookInOrder(p'))
  {
    var p, f := net.a, Apply(limits, net.a.e, api);
    ApplyHandsOver(limits, p.e, api);
    assert p.e.inQueue + [] == p.e.inQueue && p.decoded + [] == p.decoded;
    Taking(p, [], f.taken, f.e.inQueue);
  }

  lemma {:induction false} LoopHandsOver(limits: Limits, net: Net, count: nat, callback: seq<Api>)
    requires HandedOver(net.a) && ActAtA(limits, net, Loop(count, callback)).ok
    ensures var p' := ActAtA(limits, net, Loop(count, callback)).a;
            HandedOver(p') && (TookInOrder(net.a) && TakesInOrder(callback) ==> TookInOrder(p'))
  {
    var p, input := net.a, Arriving(limits, net, count);
    var r := Receive(limits, p.e, input);
    ReceivingQueues(limits, p.e, input);
    ApplyAllHandsOver(limits, r.e, callback);
    var c := Reaction(limits, r, callback);
    assert [] + r.e.inQueue == r.e.inQueue;
    Taking(p, r.decoded, c.taken, c.e.inQueue);
    SendKeepsInQueue(limits, c.e);
  }

  lemma {:induction false} SendKeepsInQueue(limits: Limits, e: Endpoint)
    ensures Send(limits, e).e.inQueue == e.inQueue
  {
  }

  /** Exactly once: whatever ids a program asks for, in every run, until some iteration fails, what it took and what
      waits for it are exactly the packets decoded for it; and in order, if it takes them as they come. */
  lemma {:induction false} RunsHandOver(limits: Limits, net: Net, events: seq<NetEvent>)
    requires Initial(net) && RunNet(limits, net, events).ok
    ensures var p := RunNet(limits, net, events).a;
            HandedOver(p) && (InOrderAtA(events) ==> TookInOrder(p))
  {
    if events != [] {
      var k := |events| - 1;
      var front := RunNet(limits, net, events[..k]);
      RunsHandOver(limits, net, events[..k]);
      match events[k]
      case AtA(Program(api)) => CallHandsOver(limits, front, api);
      case AtA(Loop(count, callback)) => LoopHandsOver(limits, front, count, callback);
      case AtA(HangUp) =>
      case AtB(act) =>
    }
  }

  /** Every act of a's program takes packets as they come. */
  predicate InOrderAtA(events: seq<NetEvent>) {
    forall i :: 0 <= i < |events| && events[i].AtA? ==> ActsInOrder(events[i].act)
  }

  // ----- the waiting packets keep their order -----

  /** The packets of q stand in all, at the positions listed, in the same order. */
  predicate StandsIn(q: seq<PacketMem>, all: seq<PacketMem>, at: seq<nat>) {
    && |at| == |q|
    && (forall i :: 0 <= i < |q| ==> at[i] < |all| && q[i] == all[at[i]])
    && (forall i, j :: 0 <= i < j < |q| ==> at[i] < at[j])
  }

  lemma {:induction false} ApplyStays(limits: Limits, e: Endpoint, api: Api, all: seq<PacketMem>, at: seq<nat>)
    returns (at': seq<nat>)
    requires StandsIn(e.inQueue, all, at)
    ensures StandsIn(Apply(limits, e, api).e.inQueue, all, at')
  {
    at' := at;
    if api.GetData? {
      var i := FirstMatch(e.inQueue, api.rrId);
      if i < |at| {
        at' := at[..i] + at[i + 1..];
      }
    }
  }

  lemma {:induction false} ApplyAllStays(limits: Limits, e: Endpoint, apis: seq<Api>, all: seq<PacketMem>, at: seq<nat>)
    returns (at': seq<nat>)
    requires StandsIn(e.inQueue, all, at)
    ensures StandsIn(ApplyAll(limits, e, apis).e.inQueue, all, at')
  {
    at' := at;
    if apis != [] {
      var k := |apis| - 1;
      at' := ApplyAllStays(limits, e, apis[..k], all, at);
      at' := ApplyStays(limits, ApplyAll(limits, e, apis[..k]).e, apis[k], all, at');
    }
  }

  lemma {:induction false} LoopStays(limits: Limits, net: Net, count: nat, callback: seq<Api>, at: seq<nat>)
    returns (at': seq<nat>)
    requires StandsIn(net.a.e.inQueue, net.a.decoded, at) && ActAtA(limits, net, Loop(count, callback)).ok
    ensures var p := ActAtA(limits, net, Loop(count, callback)).a; StandsIn(p.e.inQueue, p.decoded, at')
  {
    var p, input := net.a, Arriving(limits, net, count);
    var r := Receive(limits, p.e, input);
    ReceivingQueues(limits, p.e, input);
    var all := p.decoded + r.decoded;
    at' := if r.decoded == [] then at else at + [|p.decoded|];
    assert StandsIn(r.e.inQueue, all, at');
    if r.calls {
      at' := ApplyAllStays(limits, r.e, callback, all, at');
    }
    SendKeepsInQueue(limits, Reaction(limits, r, callback).e);
  }

  /** Whatever ids a program asks for, the packets that wait for it stand in the order in which they were decoded. */
  lemma {:induction false} RunsKeepOrder(limits: Limits, net: Net, events: seq<NetEvent>) returns (at: seq<nat>)
    requires Initial(net) && RunNet(limits, net, events).ok
    ensures var p := RunNet(limits, net, events).a; StandsIn(p.e.inQueue, p.decoded, at)
  {
    at := [];
    if events != [] {
      var k := |events| - 1;
      var front := RunNet(limits, net, events[..k]);
      at := RunsKeepOrder(limits, net, events[..k]);
      match events[k]
      case AtA(Program(api)) => at := ApplyStays(limits, front.a.e, api, front.a.decoded, at);
      case AtA(Loop(count, callback)) => at := LoopStays(limits, front, count, callback, at);
      case AtA(HangUp) =>
      case AtB(act) =>
    }
  }

  // ----- programs that take each packet when they are told of it -----

  predicate TakesBy(api: Api, m: PacketMem) {
    api.GetData? && (api.rrId == 0 || api.rrId == RrIdOf(m))
  }

  /** Some operation asks for the packet m, by its own id or for whatever comes first. */
  predicate Takes(apis: seq<Api>, m: PacketMem) {
    exists i :: 0 <= i < |apis| && TakesBy(apis[i], m)
  }

  /** The second discipline: a callback for a received packet asks for that packet. */
  predicate Prompt(limits: Limits, net: Net, act: Act) {
    match act
    case Program(_) => true
    case HangUp => true
    case Loop(count, callback) =>
      var r := Receive(limits, net.a.e, Arriving(limits, net, count));
      r.decoded != [] ==> Takes(callback, r.decoded[0])
  }

  /** Every act of a's program in the run keeps the second discipline. */
  predicate PromptAtA(limits: Limits, net: Net, events: seq<NetEvent>) {
    events == [] ||
    var k := |events| - 1;
    && PromptAtA(limits, net, events[..k])
    && (events[k].AtA? ==> Prompt(limits, RunNet(limits, net, events[..k]), events[k].act))
  }

  /** Nothing waits: everything decoded has been taken, in order. */
  predicate CaughtUp(p: Peer) {
    p.e.inQueue == [] && p.taken == p.decoded
  }

  lemma {:induction false} NoApi(limits: Limits, e: Endpoint, api: Api)
    requires e.inQueue == []
    ensures var f := Apply(limits, e, api); f.e.inQueue == [] && f.taken == []
  {
  }

  lemma {:induction false} OneToTake(limits: Limits, e: Endpoint, apis: seq<Api>, m: PacketMem)
    requires e.inQueue == [m]
    ensures var f := ApplyAll(limits, e, apis);
            if Takes(apis, m) then f.e.inQueue == [] && f.taken == [m] else f.e.inQueue == [m] && f.taken == []
  {
    if apis != [] {
      var k := |apis| - 1;
      var front := ApplyAll(limits, e, apis[..k]);
      OneToTake(limits, e, apis[..k], m);
      OneMoreTakes(apis, m);
      if Takes(apis[..k], m) {
        NoApi(limits, front.e, apis[k]);
        assert [m] + [] == [m];
      } else {
        OneApi(limits, front.e, apis[k], m);
      }
    }
  }

  lemma {:induction false} OneMoreTakes(apis: seq<Api>, m: PacketMem)
    requires apis != []
    ensures Takes(apis, m) <==> Takes(apis[..|apis| - 1], m) || TakesBy(apis[|apis| - 1], m)
  {
    var k := |apis| - 1;
    if Takes(apis[..k], m) {
      var i :| 0 <= i < k && TakesBy(apis[..k][i], m);
      assert TakesBy(apis[i], m);
    }
    if Takes(apis, m) && !TakesBy(apis[k], m) {
      var i :| 0 <= i < |apis| && TakesBy(apis[i], m);
      assert TakesBy(apis[..k][i], m);
    }
  }

  lemma {:induction false} OneApi(limits: Limits, e: Endpoint, api: Api, m: PacketMem)
    requires e.inQueue == [m]
    ensures var f := Apply(limits, e, api);
            if TakesBy(api, m) then f.e.inQueue == [] && f.taken == [m] else f.e.inQueue == [m] && f.taken == []
  {
  }

  lemma {:induction false} CallCatchesUp(limits: Limits, net: Net, api: Api)
    requires CaughtUp(net.a)
    ensures CaughtUp(ActAtA(limits, net, Act.Program(api)).a)
  {
    assert net.a.taken + [] == net.a.taken;
  }

  lemma {:induction false} LoopCatchesUp(limits: Limits, net: Net, count: nat, callback: seq<Api>)
    requires CaughtUp(net.a) && Prompt(limits, net, Loop(count, callback))
    requires ActAtA(limits, net, Loop(count, callback)).ok
    ensures CaughtUp(ActAtA(limits, net, Loop(count, callback)).a)
  {
    var p, input := net.a, Arriving(limits, net, count);
    var r := Receive(limits, p.e, input);
    ReceivingQueues(limits, p.e, input);
    if r.calls {
      OneToTake(limits, r.e, callback, r.decoded[0]);
    }
    SendKeepsInQueue(limits, Reaction(limits, r, callback).e);
  }

  /** A program that asks for each packet when it is told of it, by whichever id, has always caught up between two
      events: nothing waits, and it took what was decoded, in order. */
  lemma {:induction false} PromptRunsCatchUp(limits: Limits, net: Net, events: seq<NetEvent>)
    requires Initial(net) && RunNet(limits, net, events).ok && PromptAtA(limits, net, events)
    ensures CaughtUp(RunNet(limits, net, events).a)
  {
    if events != [] {
      var k := |events| - 1;
      var front := RunNet(limits, net, events[..k]);
      PromptRunsCatchUp(limits, net, events[..k]);
      match events[k]
      case AtA(Program(api)) => CallCatchesUp(limits, front, api);
      case AtA(Loop(count, callback)) => LoopCatchesUp(limits, front, count, callback);
      case AtA(HangUp) =>
      case AtB(act) =>
    }
  }

  /** Such a program never finds its in-queue full: its iterations fail exactly for a closed connection, an overflow
      or a packet with an unsupported version. */
  lemma {:induction false} PromptProgramsKeepUp(limits: Limits, start: Net, events: seq<NetEvent>, count: nat,
                                                callback: seq<Api>)
    requires Roomy(limits) && limits.queueSize >= 1 && Initial(start)
    requires RunNet(limits, start, events).ok && PromptAtA(limits, start, events)
    ensures var net := RunNet(limits, start, events);
            var n := Portion(limits, net.ba, count);
            && Connected(net)
            && (!ActAtA(limits, net, Loop(count, callback)).ok <==>
                FindsClosed(net, count) || Overflows(limits, net, n) || MeetsBadVersion(net, n))
  {
    RunsStayConnected(limits, start, events);
    PromptRunsCatchUp(limits, start, events);
    WhenIterationsFail(limits, RunNet(limits, start, events), count, callback);
  }

  // ----- first in, first out -----

  /** a's program keeps one of the two disciplines throughout the run. */
  predicate OrderlyAtA(limits: Limits, net: Net, events: seq<NetEvent>) {
    InOrderAtA(events) || PromptAtA(limits, net, events)
  }

  /** b's program does. */
  predicate OrderlyAtB(limits: Limits, net: Net, events: seq<NetEvent>) {
    OrderlyAtA(limits, Mirror(net), MirrorEvents(events))
  }

  /** The packets taken are a prefix of those accepted; the rest are exactly those in the receiver's in-queue, those
      on the wire and those in the sender's out-queue, in this order. */
  predicate Fifo(sender: Peer, pipe: seq<byte>, receiver: Peer) {
    var accepted, k, sent := sender.accepted, |receiver.taken|, |sender.accepted| - |sender.e.outQueue|;
    var parsed := k + |receiver.e.inQueue|;
    && parsed <= sent
    && AllHold(receiver.taken, accepted[..k])
    && AllHold(receiver.e.inQueue, accepted[k..parsed])
    && receiver.e.input + pipe == EncodeAll(accepted[parsed..sent])
    && AllHold(sender.e.outQueue, accepted[sent..])
  }

  lemma {:induction false} ChannelIsFifo(sender: Peer, pipe: seq<byte>, receiver: Peer)
    requires Channel(sender.accepted, sender.e.outQueue, receiver.e.input + pipe, receiver.decoded)
    requires TookInOrder(receiver)
    ensures Fifo(sender, pipe, receiver)
  {
  }

  lemma {:induction false} OrderlyTakesInOrder(limits: Limits, net: Net, events: seq<NetEvent>)
    requires Initial(net) && RunNet(limits, net, events).ok && OrderlyAtA(limits, net, events)
    ensures TookInOrder(RunNet(limits, net, events).a)
  {
    if InOrderAtA(events) {
      RunsHandOver(limits, net, events);
    } else {
      PromptRunsCatchUp(limits, net, events);
    }
  }

  /** The FIFO theorem: for a program that takes packets as they come, and for one that asks for each packet by its id
      when it is told of it, delivery is first in, first out, in every run until some iteration fails. */
  lemma {:induction false} DeliveryIsFifo(limits: Limits, net: Net, events: seq<NetEvent>)
    requires Roomy(limits) && Initial(net) && RunNet(limits, net, events).ok
    ensures var end := RunNet(limits, net, events);
            && (OrderlyAtA(limits, net, events) ==> Fifo(end.b, end.ba, end.a))
            && (OrderlyAtB(limits, net, events) ==> Fifo(end.a, end.ab, end.b))
  {
    var end := RunNet(limits, net, events);
    RunsStayConnected(limits, net, events);
    MirrorRun(limits, net, events);
    if OrderlyAtA(limits, net, events) {
      OrderlyTakesInOrder(limits, net, events);
      ChannelIsFifo(end.b, end.ba, end.a);
    }
    if OrderlyAtB(limits, net, events) {
      OrderlyTakesInOrder(limits, Mirror(net), MirrorEvents(events));
      ChannelIsFifo(end.a, end.ab, end.b);
    }
  }
}
