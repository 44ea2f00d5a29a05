/** Request ids in runs of two endpoints: when the packets that wait for a program share an id. */
module RunIds {
  import opened Bytes
  import opened Packets
  import opened Framing
  import opened Proto
  import opened Endpoints
  import opened EndpointRuns
  import opened Delivery
  import opened Handover
  import opened Progress
  import opened RequestIds

  /** The log of a's ids after one more act. */
  function LogAct(limits: Limits, net: Net, act: Act, log: Log): Log {
    match act
    case Program(api) => LogApi(limits, net.a.e, api, log)
    case Loop(count, callback) =>
      var r := Receive(limits, net.a.e, Arriving(limits, net, count));
      if r.calls then LogAll(limits, r.e, callback, log) else log
    case HangUp => log
  }

  /** The log of the ids that a issues in a run. */
  function LogRun(limits: Limits, net: Net, events: seq<NetEvent>): Log {
    if events == [] then Log(0, [])
    else
      var k := |events| - 1;
      var front, log := RunNet(limits, net, events[..k]), LogRun(limits, net, events[..k]);
      if front.ok && events[k].AtA? then LogAct(limits, front, events[k].act, log) else log
  }

  lemma {:induction false} SendIssuesNothing(limits: Limits, e: Endpoint)
    ensures Send(limits, e).e.nextRrId == e.nextRrId
  {
  }

  lemma {:induction false} ReceiveIssuesNothing(limits: Limits, e: Endpoint, input: Input)
    ensures Receive(limits, e, input).e.nextRrId == e.nextRrId
  {
  }

  lemma {:induction false} LoopLogs(limits: Limits, n: uint32, net: Net, count: nat, callback: seq<Api>, log: Log)
    requires Logged(n, net.a.e, log, net.a.accepted)
    ensures var act := Loop(count, callback);
            var p := ActAtA(limits, net, act).a; Logged(n, p.e, LogAct(limits, net, act, log), p.accepted)
  {
    var input := Arriving(limits, net, count);
    var r := Receive(limits, net.a.e, input);
    ReceiveIssuesNothing(limits, net.a.e, input);
    if r.calls {
      ApplyAllLogs(limits, n, r.e, callback, log, net.a.accepted);
    } else {
      assert net.a.accepted + [] == net.a.accepted;
    }
    SendIssuesNothing(limits, Reaction(limits, r, callback).e);
  }

  /** In any run, however long, the log tells how a came to its present id and its accepted packets to theirs. */
  lemma {:induction false} RunLogs(limits: Limits, net: Net, events: seq<NetEvent>)
    requires net.a.accepted == []
    ensures var p := RunNet(limits, net, events).a;
            Logged(net.a.e.nextRrId, p.e, LogRun(limits, net, events), p.accepted)
  {
    if events != [] {
      var k := |events| - 1;
      RunLogs(limits, net, events[..k]);
      var front, log := RunNet(limits, net, events[..k]), LogRun(limits, net, events[..k]);
      if front.ok && events[k].AtA? {
        match events[k].act
        case Program(api) => ApplyLogs(limits, net.a.e.nextRrId, front.a.e, api, log, front.a.accepted);
        case Loop(count, callback) => LoopLogs(limits, net.a.e.nextRrId, front, count, callback, log);
        case HangUp =>
      }
    }
  }

  // ----- the receiving side -----

  function MemIds(mems: seq<PacketMem>): seq<uint32> {
    seq(|mems|, i requires 0 <= i < |mems| => RrIdOf(mems[i]))
  }

  /** The issue numbers at the positions listed. */
  function Picked(ks: seq<nat>, at: seq<nat>): seq<nat>
    requires forall i :: 0 <= i < |at| ==> at[i] < |ks|
  {
    seq(|at|, i requires 0 <= i < |at| => ks[at[i]])
  }

  /** The ids of the packets decoded by b, over every run, however often the 32-bit counter wraps around: never 0, and
      equal exactly if a multiple of 2^32 - 1 issues by a separates them. */
  lemma {:induction false} DecodedIdsRepeat(limits: Limits, net: Net, events: seq<NetEvent>)
    requires Roomy(limits) && Initial(net) && RunNet(limits, net, events).ok
    ensures var decoded, ks := RunNet(limits, net, events).b.decoded, LogRun(limits, net, events).ks;
            |decoded| <= |ks| && RepeatsAfterPeriods(MemIds(decoded), ks[..|decoded|])
  {
    var end, log := RunNet(limits, net, events), LogRun(limits, net, events);
    RunsStayConnected(limits, net, events);
    RunLogs(limits, net, events);
    IssuedIdsRepeat(0, log.count, log.ks, end.a.accepted);
    DecodedIds(end.a.accepted, end.b.decoded);
  }

  lemma {:induction false} DecodedIds(accepted: seq<Packet>, decoded: seq<PacketMem>)
    requires |decoded| <= |accepted| && AllHold(decoded, accepted[..|decoded|])
    ensures MemIds(decoded) == IdsOf(accepted)[..|decoded|]
  {
    forall i | 0 <= i < |decoded| ensures RrIdOf(decoded[i]) == accepted[i].rrId {
      assert Holds(decoded[i], accepted[..|decoded|][i]);
    }
  }

  /** The same for the packets that wait for b's program, whatever it took before: two of them share an id exactly
      if a multiple of 2^32 - 1 issues separates them. */
  lemma {:induction false} PendingIdsRepeat(limits: Limits, net: Net, events: seq<NetEvent>) returns (at: seq<nat>)
    requires Roomy(limits) && Initial(net) && RunNet(limits, net, events).ok
    ensures var b, ks := RunNet(limits, net, events).b, LogRun(limits, net, events).ks;
            && |b.decoded| <= |ks| && StandsIn(b.e.inQueue, b.decoded, at)
            && RepeatsAfterPeriods(MemIds(b.e.inQueue), Picked(ks, at))
  {
    DecodedIdsRepeat(limits, net, events);
    MirrorRun(limits, net, events);
    at := RunsKeepOrder(limits, Mirror(net), MirrorEvents(events));
    var b := RunNet(limits, net, events).b;
    PickedIdsRepeat(b.e.inQueue, b.decoded, at, LogRun(limits, net, events).ks);
  }

  lemma {:induction false} PickedIdsRepeat(q: seq<PacketMem>, all: seq<PacketMem>, at: seq<nat>, ks: seq<nat>)
    requires |all| <= |ks| && RepeatsAfterPeriods(MemIds(all), ks[..|all|]) && StandsIn(q, all, at)
    ensures RepeatsAfterPeriods(MemIds(q), Picked(ks, at))
  {
    var ids, first := MemIds(all), ks[..|all|];
    forall i | 0 <= i < |q| ensures RrIdOf(q[i]) == ids[at[i]] && ks[at[i]] == first[at[i]] {
    }
  }

  /** So asking for a waiting packet by its id finds that packet and no other, as long as a issues no more than 2^32
      - 1 ids. */
  lemma {:induction false} PendingIdsDiffer(limits: Limits, net: Net, events: seq<NetEvent>)
    requires Roomy(limits) && Initial(net) && RunNet(limits, net, events).ok
    requires LogRun(limits, net, events).count <= PERIOD
    ensures AllDiffer(MemIds(RunNet(limits, net, events).b.e.inQueue))
  {
    var b, log := RunNet(limits, net, events).b, LogRun(limits, net, events);
    var at := PendingIdsRepeat(limits, net, events);
    RunLogs(limits, net, events);
    OnePeriodDiffers(MemIds(b.e.inQueue), Picked(log.ks, at), log.count);
  }

  // ----- the limit is needed -----

  function CallsAtA(apis: seq<Api>): seq<NetEvent> {
    seq(|apis|, i requires 0 <= i < |apis| => AtA(Act.Program(apis[i])))
  }

  lemma {:induction false} OneCallMore(limits: Limits, net: Net, p: Peer, f: Effect, api: Api)
    requires net.ok && net.a == Peer(f.e, p.accepted + f.accepted, p.decoded, p.taken + f.taken)
    ensures var g := Apply(limits, f.e, api);
            NetStep(limits, net, AtA(Act.Program(api))) ==
            net.(a := Peer(g.e, p.accepted + (f.accepted + g.accepted), p.decoded, p.taken + (f.taken + g.taken)))
  {
    var g := Apply(limits, f.e, api);
    assert p.accepted + f.accepted + g.accepted == p.accepted + (f.accepted + g.accepted);
    assert p.taken + f.taken + g.taken == p.taken + (f.taken + g.taken);
  }

  lemma {:induction false} CallsRun(limits: Limits, net: Net, apis: seq<Api>)
    requires net.ok
    ensures var f, p := ApplyAll(limits, net.a.e, apis), net.a;
            RunNet(limits, net, CallsAtA(apis)) ==
            net.(a := Peer(f.e, p.accepted + f.accepted, p.decoded, p.taken + f.taken))
  {
    var p := net.a;
    if apis == [] {
      assert p.accepted + [] == p.accepted && p.taken + [] == p.taken;
    } else {
      var k := |apis| - 1;
      CallsRun(limits, net, apis[..k]);
      assert CallsAtA(apis) == CallsAtA(apis[..k]) + [AtA(Act.Program(apis[k]))];
      RunLast(limits, net, CallsAtA(apis[..k]), AtA(Act.Program(apis[k])));
      OneCallMore(limits, RunNet(limits, net, CallsAtA(apis[..k])), p, ApplyAll(limits, p.e, apis[..k]), apis[k]);
    }
  }

  /** Nothing travels, b has nothing to send, and all that b decoded waits for its program. */
  predicate Still(net: Net) {
    && net.ok && net.aOpen && net.bOpen && Connected(net)
    && net.ab == net.ba == [] && net.a.e.input == net.b.e.input == []
    && net.b.e.outQueue == [] && net.b.decoded == net.b.e.inQueue
  }

  lemma {:induction false} EmptyWire(net: Net)
    requires Connected(net) && net.a.e.input + net.ba == []
    ensures OnTheWire(net) == []
  {
  }

  /** a's next packet leaves its out-queue. */
  lemma {:induction false} ShipFromA(limits: Limits, net: Net)
    requires Roomy(limits) && Still(net) && net.a.e.outQueue != []
    ensures var net' := NetStep(limits, net, AtA(Loop(0, [])));
            && |net.b.decoded| < |net.a.accepted|
            && net'.ok && net'.a.e.input == [] && net'.a.accepted == net.a.accepted
            && net'.a.e.outQueue == net.a.e.outQueue[1..]
            && net' == Net(net'.a, net.b, Encode(net.a.accepted[|net.b.decoded|]), [], true, true, true)
  {
    EmptyWire(Mirror(net));
    HeadFrame(net.a.accepted, net.a.e.outQueue);
    assert Holds(net.a.e.outQueue[0], net.a.accepted[|net.b.decoded|]) by {
      assert net.a.accepted[|net.b.decoded|..][0] == net.a.accepted[|net.b.decoded|];
    }
    SendsHead(limits, net.a.e);
    assert net.a.accepted + [] == net.a.accepted;
  }

  lemma {:induction false} SendsHead(limits: Limits, e: Endpoint)
    requires Roomy(limits) && e.input == [] && e.output == [] && e.outQueue != [] && HoldsPacket(e.outQueue[0])
    ensures var r := Iterate(limits, e, Nothing, []);
            r.ok && r.written == FrameOf(e.outQueue[0]) && r.e.input == [] && r.e.outQueue == e.outQueue[1..]
            && r.accepted == [] && r.decoded == []
  {
    var head := e.(outQueue := e.outQueue[..1]);
    SendWritesWholeFrame(limits, head);
    assert Receive(limits, e, Nothing) == Received(e, true, [], false, false);
  }

  /** b decodes the packet that is in the pipe. */
  lemma {:induction false} ShipToB(limits: Limits, net: Net, p: Packet)
    requires Roomy(limits) && net.ok && Connected(net) && net.b.e.input == [] && net.b.e.outQueue == [] && net.ba == []
    requires net.aOpen && net.bOpen && net.a.e.input == []
    requires net.b.decoded == net.b.e.inQueue && |net.b.e.inQueue| < limits.queueSize
    requires net.ab == Encode(p) && SupportedVersion(p.version)
    ensures var net' := NetStep(limits, net, AtB(Loop(MAX_FRAME, [])));
            net'.ok && net'.a == net.a && Still(net') && |net'.b.e.inQueue| == |net.b.e.inQueue| + 1
  {
    var m := Mirror(net);
    assert Portion(limits, net.ab, MAX_FRAME) == |net.ab| && net.ab[..|net.ab|] == net.ab;
    DecodesOne(limits, net.b.e, p);
    assert net.b.accepted + [] == net.b.accepted;
    ActKeeps(limits, m, Loop(MAX_FRAME, []));
  }

  lemma {:induction false} DecodesOne(limits: Limits, e: Endpoint, p: Packet)
    requires Roomy(limits) && e.input == [] && e.output == [] && e.outQueue == [] && |e.inQueue| < limits.queueSize
    requires SupportedVersion(p.version)
    ensures var r := Iterate(limits, e, Chunk(Encode(p)), []);
            && r.ok && r.written == [] && r.e.input == [] && r.e.output == [] && r.e.outQueue == []
            && |r.decoded| == 1 && r.e.inQueue == e.inQueue + r.decoded && r.accepted == []
  {
    NextOfEncode(p, []);
    assert Encode(p) + [] == Encode(p) && [] + Encode(p) == Encode(p);
  }

  /** a sends a packet and b decodes it. */
  lemma {:induction false} Ship(limits: Limits, net: Net) returns (events: seq<NetEvent>)
    requires Roomy(limits) && Still(net) && net.a.e.outQueue != [] && |net.b.e.inQueue| < limits.queueSize
    requires AllSupported(net.a.accepted)
    ensures var net' := RunNet(limits, net, events);
            && Still(net') && |net'.b.e.inQueue| == |net.b.e.inQueue| + 1
            && net'.a.accepted == net.a.accepted && net'.a.e.outQueue == net.a.e.outQueue[1..]
  {
    var toPipe, fromPipe := AtA(Loop(0, [])), AtB(Loop(MAX_FRAME, []));
    ShipFromA(limits, net);
    StepKeeps(limits, net, toPipe);
    ShipToB(limits, NetStep(limits, net, toPipe), net.a.accepted[|net.b.decoded|]);
    events := [toPipe] + [fromPipe];
    RunFromFirst(limits, net, toPipe, [fromPipe]);
    RunLast(limits, NetStep(limits, net, toPipe), [], fromPipe);
    assert [] + [fromPipe] == [fromPipe];
  }

  /** a gets two packets with the same id accepted. */
  lemma {:induction false} IdsMeetAtA(limits: Limits, net: Net) returns (events: seq<NetEvent>)
    requires Roomy(limits) && Initial(net) && limits.queueSize >= 2
    ensures var end := RunNet(limits, net, events);
            && Still(end) && end.b.e.inQueue == [] && |end.a.e.outQueue| == |end.a.accepted| == 2
            && AllSupported(end.a.accepted) && end.a.accepted[0].rrId == end.a.accepted[1].rrId
  {
    var apis := IdsMeetAfterRefusals(limits, net.a.e);
    events := CallsAtA(apis);
    CallsRun(limits, net, apis);
    RunsStayConnected(limits, net, events);
    StillAfterCalls(net, ApplyAll(limits, net.a.e, apis), RunNet(limits, net, events));
    BothSupported(ApplyAll(limits, net.a.e, apis).accepted, net.a.e.version);
  }

  lemma {:induction false} BothSupported(ps: seq<Packet>, version: byte)
    requires |ps| == 2 && ps[0].version == ps[1].version == version && SupportedVersion(version)
    ensures AllSupported(ps)
  {
  }

  lemma {:induction false} StillAfterCalls(net: Net, f: Effect, called: Net)
    requires Initial(net) && Connected(called)
    requires called == net.(a := Peer(f.e, net.a.accepted + f.accepted, net.a.decoded, net.a.taken + f.taken))
    requires f.e.input == net.a.e.input
    ensures Still(called) && called.b.e.inQueue == []
    ensures |called.a.e.outQueue| == |called.a.accepted| && called.a.accepted == f.accepted
  {
    EmptyWire(Mirror(called));
  }

  /** a sends two packets and b decodes them. */
  lemma {:induction false} ShipTwo(limits: Limits, net: Net) returns (events: seq<NetEvent>)
    requires Roomy(limits) && limits.queueSize >= 2 && Still(net) && net.b.e.inQueue == []
    requires |net.a.e.outQueue| == 2 && AllSupported(net.a.accepted)
    ensures var end := RunNet(limits, net, events);
            Still(end) && |end.b.e.inQueue| == 2 && end.a.accepted == net.a.accepted
  {
    var once := Ship(limits, net);
    var twice := Ship(limits, RunNet(limits, net, once));
    RunOn(limits, net, once, twice);
    events := once + twice;
  }

  /** The limit on the issues is needed: in a run in which a issues 2^32 ids, most of them to calls that are refused,
      the first id comes round again, and two packets with the same id wait for b's program. */
  lemma {:induction false} IdsMeetInQueue(limits: Limits, net: Net) returns (events: seq<NetEvent>)
    requires Roomy(limits) && Initial(net) && limits.queueSize >= 2
    ensures var end := RunNet(limits, net, events);
            && end.ok && |end.b.e.inQueue| == 2 && RrIdOf(end.b.e.inQueue[0]) == RrIdOf(end.b.e.inQueue[1])
  {
    var calls := IdsMeetAtA(limits, net);
    var ship := ShipTwo(limits, RunNet(limits, net, calls));
    RunOn(limits, net, calls, ship);
    events := calls + ship;
    SameIds(RunNet(limits, net, events));
  }

  lemma {:induction false} SameIds(net: Net)
    requires Still(net) && |net.b.e.inQueue| == 2 == |net.a.accepted|
    requires net.a.accepted[0].rrId == net.a.accepted[1].rrId
    ensures RrIdOf(net.b.e.inQueue[0]) == RrIdOf(net.b.e.inQueue[1])
  {
    DecodedIds(net.a.accepted, net.b.decoded);
    var ids := MemIds(net.b.decoded);
    assert ids[0] == net.a.accepted[0].rrId && ids[1] == net.a.accepted[1].rrId;
  }
}
