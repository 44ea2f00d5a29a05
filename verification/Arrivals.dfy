/** From a call at one end to the packet at the other: what arrives is what was called. */
module Arrivals {
  import opened Bytes
  import opened Packets
  import opened Proto
  import opened Endpoints
  import opened EndpointFacts
  import opened EndpointRuns
  import opened Delivery
  import opened Progress
  import opened RequestIds

  /** Packets accepted stay accepted. */
  lemma {:induction false} AcceptedGrows(limits: Limits, net: Net, events: seq<NetEvent>)
    ensures net.a.accepted <= RunNet(limits, net, events).a.accepted
  {
    if events != [] {
      var k := |events| - 1;
      AcceptedGrows(limits, net, events[..k]);
      StepGrows(limits, RunNet(limits, net, events[..k]), events[k]);
    }
  }

  lemma {:induction false} StepGrows(limits: Limits, net: Net, event: NetEvent)
    ensures net.a.accepted <= NetStep(limits, net, event).a.accepted
  {
  }

  /** From end to end: if a's program calls when the protocol version allows it, the payload fits and the out-queue
      has room, then in any run that goes on from there, until some iteration fails, the packet that b decodes in
      its turn reads as the call: with the version named by it, or else a's, the next id, the call id and the
      payload. */
  lemma {:induction false} CallArrives(limits: Limits, start: Net, before: seq<NetEvent>, callId: uint32,
                                       data: seq<byte>, version: Option<byte>, minVersion: byte,
                                       after: seq<NetEvent>)
    requires Roomy(limits) && Initial(start)
    requires var e := RunNet(limits, start, before).a.e;
             minVersion <= e.version && |data| <= 10240 && |e.outQueue| < limits.queueSize
    requires RunNet(limits, start, before).ok
    ensures var call := AtA(Act.Program(Call(callId, Data(data), version, minVersion)));
            var from, end := RunNet(limits, start, before).a, RunNet(limits, start, before + [call] + after);
            var turn := |from.accepted|;
            end.ok && turn < |end.b.decoded| ==>
              && HoldsPacket(end.b.decoded[turn])
              && var p := Read(end.b.decoded[turn]);
                 && p.version == (match version case Some(v) => v case None => from.e.version)
                 && p.rrId == IdAfter(from.e.nextRrId, 1) && p.callId == callId && p.data == data
  {
    var api: Api := Call(callId, Data(data), version, minVersion);
    var events := before + [AtA(Act.Program(api))] + after;
    var net, end := RunNet(limits, start, before), RunNet(limits, start, events);
    RunLast(limits, start, before, AtA(Act.Program(api)));
    RunOn(limits, start, before + [AtA(Act.Program(api))], after);
    CallSays(limits, net.a.e, callId, Data(data), version, minVersion);
    AcceptedGrows(limits, RunNet(limits, start, before + [AtA(Act.Program(api))]), after);
    assert IdAfter(net.a.e.nextRrId, 1) == NextId(IdAfter(net.a.e.nextRrId, 0));
    if end.ok {
      RunsStayConnected(limits, start, events);
      var turn := |net.a.accepted|;
      if turn < |end.b.decoded| {
        assert Holds(end.b.decoded[turn], end.a.accepted[..|end.b.decoded|][turn]);
      }
    }
  }
}
