/** Two endpoints joined by a reliable pair of byte pipes: what is delivered, in every run. */
module Delivery {
  import opened Bytes
  import opened Packets
  import opened Framing
  import opened Proto
  import opened Endpoints
  import opened EndpointRuns

  // ----- one direction -----

  /** mem holds the packet p, whatever lies behind its payload. */
  predicate Holds(mem: PacketMem, p: Packet) {
    HoldsPacket(mem) && Read(mem) == p
  }

  predicate AllHold(mems: seq<PacketMem>, ps: seq<Packet>) {
    |mems| == |ps| && forall i :: 0 <= i < |ps| ==> Holds(mems[i], ps[i])
  }

  /** The packets accepted by the sender are those decoded by the receiver, then those on the wire (in the pipe or
      not yet parsed by the receiver), then those in the sender's out-queue; nothing is lost, doubled or reordered. */
  predicate Channel(accepted: seq<Packet>, outQueue: seq<PacketMem>, wire: seq<byte>, decoded: seq<PacketMem>) {
    && |decoded| + |outQueue| <= |accepted|
    && var sent := |accepted| - |outQueue|;
    && AllHold(decoded, accepted[..|decoded|])
    && AllHold(outQueue, accepted[sent..])
    && wire == EncodeAll(accepted[|decoded|..sent])
  }

  lemma {:induction false} Accepting(accepted: seq<Packet>, outQueue: seq<PacketMem>, wire: seq<byte>,
                                     decoded: seq<PacketMem>, p: Packet)
    requires Channel(accepted, outQueue, wire, decoded)
    ensures Channel(accepted + [p], outQueue + [Image(p)], wire, decoded)
  {
    ReadImage(p);
    var sent := |accepted| - |outQueue|;
    assert (accepted + [p])[sent..] == accepted[sent..] + [p];
    assert (accepted + [p])[..|decoded|] == accepted[..|decoded|];
    assert (accepted + [p])[|decoded|..sent] == accepted[|decoded|..sent];
  }

  lemma {:induction false} HeadFrame(accepted: seq<Packet>, outQueue: seq<PacketMem>)
    requires 0 < |outQueue| <= |accepted| && AllHold(outQueue, accepted[|accepted| - |outQueue|..])
    ensures HoldsPacket(outQueue[0]) && FrameOf(outQueue[0]) == Encode(accepted[|accepted| - |outQueue|])
  {
    assert Holds(outQueue[0], accepted[|accepted| - |outQueue|..][0]);
    EncodeRead(outQueue[0]);
  }

  lemma {:induction false} Sending(accepted: seq<Packet>, outQueue: seq<PacketMem>, wire: seq<byte>,
                                   decoded: seq<PacketMem>)
    requires Channel(accepted, outQueue, wire, decoded) && outQueue != []
    ensures HoldsPacket(outQueue[0])
    ensures Channel(accepted, outQueue[1..], wire + FrameOf(outQueue[0]), decoded)
  {
    var sent := |accepted| - |outQueue|;
    var p := accepted[sent];
    HeadFrame(accepted, outQueue);
    assert accepted[sent..][1..] == accepted[sent + 1..];
    var flying := accepted[|decoded|..sent];
    assert accepted[|decoded|..sent + 1] == flying + [p];
    EncodeOneMore(flying, p);
  }

  lemma {:induction false} EncodeOneMore(ps: seq<Packet>, p: Packet)
    ensures EncodeAll(ps + [p]) == EncodeAll(ps) + Encode(p)
  {
    EncodeAllAppend(ps, [p]);
    assert EncodeAll([p]) == Encode(p) + EncodeAll([]);
  }

  lemma {:induction false} Decoding(accepted: seq<Packet>, outQueue: seq<PacketMem>, rest: seq<byte>,
                                    decoded: seq<PacketMem>, mem: PacketMem)
    requires |decoded| + |outQueue| < |accepted| && Holds(mem, accepted[|decoded|])
    requires Channel(accepted, outQueue, Encode(accepted[|decoded|]) + rest, decoded)
    ensures Channel(accepted, outQueue, rest, decoded + [mem])
  {
    var d, sent := |decoded|, |accepted| - |outQueue|;
    var flying := accepted[d..sent];
    assert flying[1..] == accepted[d + 1..sent] && flying[0] == accepted[d];
    assert rest == (Encode(flying[0]) + rest)[|Encode(flying[0])|..] == EncodeAll(flying[1..]);
    assert accepted[..d + 1] == accepted[..d] + [accepted[d]];
  }

  lemma {:induction false} PoppingFrame(accepted: seq<Packet>, outQueue: seq<PacketMem>, input: seq<byte>,
                                        pipe: seq<byte>, decoded: seq<PacketMem>, scratch: PacketMem)
    requires Channel(accepted, outQueue, input + pipe, decoded)
    requires |decoded| + |outQueue| < |accepted| && Encode(accepted[|decoded|]) <= input
    ensures var n := HEADER_SIZE + |accepted[|decoded|].data|;
            && n + TAG_SIZE <= |input| && n <= PACKET_SIZE
            && Channel(accepted, outQueue, input[n + TAG_SIZE..] + pipe, decoded + [input[..n] + scratch[n..]])
  {
    var p := accepted[|decoded|];
    var n := HEADER_SIZE + |p.data|;
    assert input + pipe == Encode(p) + (input[n + TAG_SIZE..] + pipe);
    CopiedImage(p, input, scratch);
    Decoding(accepted, outQueue, input[n + TAG_SIZE..] + pipe, decoded, input[..n] + scratch[n..]);
  }

  /** Popping at the receiving end of a channel: the oldest packet on the wire, if it is there; never a data error,
      and a version error only for a packet sent with an unsupported version. */
  lemma {:induction false} Popping(accepted: seq<Packet>, outQueue: seq<PacketMem>, input: seq<byte>, pipe: seq<byte>,
                                   decoded: seq<PacketMem>, scratch: PacketMem)
    requires Channel(accepted, outQueue, input + pipe, decoded)
    ensures match Next(input)
            case NeedMore => true
            case Taken(n) =>
              && n + TAG_SIZE <= |input| && n <= PACKET_SIZE
              && Channel(accepted, outQueue, input[n + TAG_SIZE..] + pipe, decoded + [input[..n] + scratch[n..]])
            case VersionError(v) => exists i :: 0 <= i < |accepted| && accepted[i].version == v && !SupportedVersion(v)
            case DataError => false
  {
    var sent := |accepted| - |outQueue|;
    var flying := accepted[|decoded|..sent];
    NextOfFrames(input, flying);
    match Next(input)
    case Taken(n) =>
      assert accepted[|decoded|] == flying[0];
      PoppingFrame(accepted, outQueue, input, pipe, decoded, scratch);
    case VersionError(v) => assert accepted[|decoded|].version == v;
    case _ =>
  }

  /** Copying the image at the front of the input into a scratch packet delivers the packet. */
  lemma {:induction false} CopiedImage(p: Packet, input: seq<byte>, scratch: PacketMem)
    requires Encode(p) <= input
    ensures var n := HEADER_SIZE + |p.data|;
            n <= PACKET_SIZE && Holds(input[..n] + scratch[n..], p)
  {
  }

  // ----- two peers -----

  /** An endpoint, and the history of what its program sent, what it decoded and what its program took. */
  datatype Peer = Peer(e: Endpoint, accepted: seq<Packet>, decoded: seq<PacketMem>, taken: seq<PacketMem>)

  /** Two peers and the bytes travelling from a to b and from b to a; ok until some iteration fails. */
  datatype Net = Net(a: Peer, b: Peer, ab: seq<byte>, ba: seq<byte>, ok: bool, aOpen: bool, bOpen: bool)

  /** What happens at one peer: its program calls, or it iterates, reading up to `count` bytes of its pipe, while its
      program reacts to a received packet with `callback`, or it hangs up. */
  datatype Act = Program(api: Api) | Loop(count: nat, callback: seq<Api>) | HangUp

  datatype NetEvent = AtA(act: Act) | AtB(act: Act)

  function Mirror(net: Net): Net {
    Net(net.b, net.a, net.ba, net.ab, net.ok, net.bOpen, net.aOpen)
  }

  /** The number of bytes an iteration reads. */
  function Portion(limits: Limits, pipe: seq<byte>, count: nat): nat {
    Min(count, Min(limits.ioSize, |pipe|))
  }

  /** What reading the first n bytes of a pipe yields. */
  function InputOf(pipe: seq<byte>, n: nat): Input
    requires n <= |pipe|
  {
    if n == 0 then Nothing else Chunk(pipe[..n])
  }

  /** a finds the connection closed: it has hung up itself, or b has and the pipe has been read to its end. */
  predicate FindsClosed(net: Net, count: nat) {
    !net.aOpen || (!net.bOpen && net.ba == [] && count > 0)
  }

  /** What an iteration at a reads. */
  function Arriving(limits: Limits, net: Net, count: nat): Input {
    if FindsClosed(net, count) then Closed else InputOf(net.ba, Portion(limits, net.ba, count))
  }

  function ActAtA(limits: Limits, net: Net, act: Act): Net {
    var p := net.a;
    match act
    case Program(api) =>
      var f := Apply(limits, p.e, api);
      net.(a := Peer(f.e, p.accepted + f.accepted, p.decoded, p.taken + f.taken))
    case Loop(count, callback) =>
      var n := Portion(limits, net.ba, count);
      var r := Iterate(limits, p.e, Arriving(limits, net, count), callback);
      Net(Peer(r.e, p.accepted + r.accepted, p.decoded + r.decoded, p.taken + r.taken), net.b,
          net.ab + r.written, net.ba[n..], r.ok, net.aOpen, net.bOpen)
    case HangUp => net.(aOpen := false)
  }

  function NetStep(limits: Limits, net: Net, event: NetEvent): Net {
    if !net.ok then net
    else
      match event
      case AtA(act) => ActAtA(limits, net, act)
      case AtB(act) => Mirror(ActAtA(limits, Mirror(net), act))
  }

  function RunNet(limits: Limits, net: Net, events: seq<NetEvent>): Net {
    if events == [] then net
    else NetStep(limits, RunNet(limits, net, events[..|events| - 1]), events[|events| - 1])
  }

  predicate Initial(net: Net) {
    && Endpoints.Fresh(net.a.e) && Endpoints.Fresh(net.b.e)
    && net.a.accepted == net.b.accepted == [] && net.a.decoded == net.b.decoded == []
    && net.a.taken == net.b.taken == []
    && net.ab == net.ba == [] && net.ok && net.aOpen && net.bOpen
  }

  /** Both directions are channels. */
  predicate Connected(net: Net) {
    && net.a.e.output == [] && net.b.e.output == []
    && Channel(net.a.accepted, net.a.e.outQueue, net.b.e.input + net.ab, net.b.decoded)
    && Channel(net.b.accepted, net.b.e.outQueue, net.a.e.input + net.ba, net.a.decoded)
  }

  lemma {:induction false} ApplyAllAccepting(limits: Limits, e: Endpoint, apis: seq<Api>, accepted: seq<Packet>,
                                             wire: seq<byte>, decoded: seq<PacketMem>)
    requires Channel(accepted, e.outQueue, wire, decoded)
    ensures var f := ApplyAll(limits, e, apis); Channel(accepted + f.accepted, f.e.outQueue, wire, decoded)
  {
    if apis == [] {
      assert accepted + [] == accepted;
    } else {
      var k := |apis| - 1;
      ApplyAllAccepting(limits, e, apis[..k], accepted, wire, decoded);
      var front := ApplyAll(limits, e, apis[..k]);
      var last := Apply(limits, front.e, apis[k]);
      ApplyAccepting(limits, front.e, apis[k], accepted + front.accepted, wire, decoded);
      assert accepted + front.accepted + last.accepted == accepted + (front.accepted + last.accepted);
    }
  }

  lemma {:induction false} ApplyAccepting(limits: Limits, e: Endpoint, api: Api, accepted: seq<Packet>,
                                          wire: seq<byte>, decoded: seq<PacketMem>)
    requires Channel(accepted, e.outQueue, wire, decoded)
    ensures var f := Apply(limits, e, api); Channel(accepted + f.accepted, f.e.outQueue, wire, decoded)
  {
    var f := Apply(limits, e, api);
    if f.accepted == [] {
      assert accepted + [] == accepted;
    } else {
      Accepting(accepted, e.outQueue, wire, decoded, f.accepted[0]);
    }
  }

  lemma {:induction false} ReceivingKeeps(limits: Limits, net: Net, n: nat)
    requires Connected(net) && n <= |net.ba|
    requires Receive(limits, net.a.e, InputOf(net.ba, n)).ok
    ensures var r := Receive(limits, net.a.e, InputOf(net.ba, n));
            && r.e.output == net.a.e.output && r.e.outQueue == net.a.e.outQueue
            && Channel(net.b.accepted, net.b.e.outQueue, r.e.input + net.ba[n..], net.a.decoded + r.decoded)
  {
    var e, pipe := net.a.e, net.ba[n..];
    var input := if n == 0 then e.input else e.input + net.ba[..n];
    assert e.input + net.ba == input + pipe;
    DecodingKeeps(limits, e.(input := input), net.b.accepted, net.b.e.outQueue, pipe, net.a.decoded);
  }

  lemma {:induction false} DecodingKeeps(limits: Limits, e: Endpoint, accepted: seq<Packet>, outQueue: seq<PacketMem>,
                                         pipe: seq<byte>, decoded: seq<PacketMem>)
    requires Channel(accepted, outQueue, e.input + pipe, decoded) && Decode(limits, e).ok
    ensures var r := Decode(limits, e);
            && r.e.output == e.output && r.e.outQueue == e.outQueue
            && Channel(accepted, outQueue, r.e.input + pipe, decoded + r.decoded)
  {
    Popping(accepted, outQueue, e.input, pipe, decoded, e.sdp);
    if Next(e.input) == NeedMore {
      assert decoded + [] == decoded;
    }
  }

  lemma {:induction false} SendingKeeps(limits: Limits, e: Endpoint, accepted: seq<Packet>, input: seq<byte>,
                                        pipe: seq<byte>, decoded: seq<PacketMem>)
    requires Roomy(limits) && e.output == [] && Channel(accepted, e.outQueue, input + pipe, decoded)
    ensures var s := Send(limits, e);
            && s.ok && s.e.input == e.input && s.e.output == []
            && Channel(accepted, s.e.outQueue, input + (pipe + s.written), decoded)
  {
    assert forall i :: 0 <= i < |e.outQueue| ==> Holds(e.outQueue[i], accepted[|accepted| - |e.outQueue|..][i]);
    SendWritesWholeFrame(limits, e);
    if e.outQueue == [] {
      assert pipe + [] == pipe;
    } else {
      Sending(accepted, e.outQueue, input + pipe, decoded);
      var frame := FrameOf(e.outQueue[0]);
      assert input + pipe + frame == input + (pipe + frame);
    }
  }

  lemma {:induction false} ReactionKeeps(limits: Limits, r: Received, callback: seq<Api>, accepted: seq<Packet>,
                                         wire: seq<byte>, decoded: seq<PacketMem>)
    requires Channel(accepted, r.e.outQueue, wire, decoded)
    ensures var c := Reaction(limits, r, callback); Channel(accepted + c.accepted, c.e.outQueue, wire, decoded)
  {
    if r.calls {
      ApplyAllAccepting(limits, r.e, callback, accepted, wire, decoded);
    } else {
      assert accepted + [] == accepted;
    }
  }

  lemma {:induction false} LoopKeeps(limits: Limits, net: Net, count: nat, callback: seq<Api>)
    requires Roomy(limits) && Connected(net) && ActAtA(limits, net, Loop(count, callback)).ok
    ensures Connected(ActAtA(limits, net, Loop(count, callback)))
  {
    var n := Portion(limits, net.ba, count);
    var input := Arriving(limits, net, count);
    var r := Receive(limits, net.a.e, input);
    ReceivingKeeps(limits, net, n);
    ReactionKeeps(limits, r, callback, net.a.accepted, net.b.e.input + net.ab, net.b.decoded);
    var c := Reaction(limits, r, callback);
    SendingKeeps(limits, c.e, net.a.accepted + c.accepted, net.b.e.input, net.ab, net.b.decoded);
  }

  lemma {:induction false} ActKeeps(limits: Limits, net: Net, act: Act)
    requires Roomy(limits) && Connected(net) && ActAtA(limits, net, act).ok
    ensures Connected(ActAtA(limits, net, act))
  {
    match act
    case Program(api) => ApplyAccepting(limits, net.a.e, api, net.a.accepted, net.b.e.input + net.ab, net.b.decoded);
    case Loop(count, callback) => LoopKeeps(limits, net, count, callback);
    case HangUp =>
  }

  lemma {:induction false} InitiallyConnected(net: Net)
    requires Initial(net)
    ensures Connected(net)
  {
  }

  lemma {:induction false} StepKeeps(limits: Limits, net: Net, event: NetEvent)
    requires Roomy(limits) && net.ok && Connected(net) && NetStep(limits, net, event).ok
    ensures Connected(NetStep(limits, net, event))
  {
    match event
    case AtA(act) => ActKeeps(limits, net, act);
    case AtB(act) => ActKeeps(limits, Mirror(net), act);
  }

  /** End-to-end delivery: in every run of two endpoints, until some iteration fails, both directions are channels. */
  lemma {:induction false} RunsStayConnected(limits: Limits, net: Net, events: seq<NetEvent>)
    requires Roomy(limits) && Initial(net) && RunNet(limits, net, events).ok
    ensures Connected(RunNet(limits, net, events))
  {
    if events == [] {
      InitiallyConnected(net);
    } else {
      RunsStayConnected(limits, net, events[..|events| - 1]);
      StepKeeps(limits, RunNet(limits, net, events[..|events| - 1]), events[|events| - 1]);
    }
  }

  /** An iteration that gets through its receiving half succeeds. */
  lemma {:induction false} SendingNeverFails(limits: Limits, net: Net, count: nat, callback: seq<Api>)
    requires Roomy(limits) && Connected(net)
    ensures Receive(limits, net.a.e, Arriving(limits, net, count)).ok ==>
              ActAtA(limits, net, Loop(count, callback)).ok
  {
    var n := Portion(limits, net.ba, count);
    var r := Receive(limits, net.a.e, Arriving(limits, net, count));
    if r.ok {
      ReceivingKeeps(limits, net, n);
      ReactionKeeps(limits, r, callback, net.a.accepted, net.b.e.input + net.ab, net.b.decoded);
      var c := Reaction(limits, r, callback);
      SendingKeeps(limits, c.e, net.a.accepted + c.accepted, net.b.e.input, net.ab, net.b.decoded);
    }
  }

  /** The packets on the wire towards a. */
  function OnTheWire(net: Net): seq<Packet>
    requires Connected(net)
  {
    net.b.accepted[|net.a.decoded|..|net.b.accepted| - |net.b.e.outQueue|]
  }

  /** Reading n more bytes at a would reach the limit of the buffer. */
  predicate Overflows(limits: Limits, net: Net, n: nat) {
    n > 0 && |net.a.e.input| + n >= limits.bufMax
  }

  /** With n more bytes, a packet is complete but finds a's in-queue full. */
  predicate FindsQueueFull(limits: Limits, net: Net, n: nat)
    requires Connected(net)
  {
    && OnTheWire(net) != [] && SupportedVersion(OnTheWire(net)[0].version)
    && |net.a.e.input| + n >= |Encode(OnTheWire(net)[0])| && |net.a.e.inQueue| >= limits.queueSize
  }

  /** With n more bytes, the header of a packet with an unsupported version is complete. */
  predicate MeetsBadVersion(net: Net, n: nat)
    requires Connected(net)
  {
    && OnTheWire(net) != [] && !SupportedVersion(OnTheWire(net)[0].version)
    && |net.a.e.input| + n >= HEADER_SIZE + TAG_SIZE
  }

  lemma {:induction false} WhenReceivingFails(limits: Limits, net: Net, n: nat)
    requires Connected(net) && n <= |net.ba|
    ensures !Receive(limits, net.a.e, InputOf(net.ba, n)).ok <==>
            Overflows(limits, net, n) || FindsQueueFull(limits, net, n) || MeetsBadVersion(net, n)
  {
    if !Overflows(limits, net, n) {
      var received := net.a.e.input + net.ba[..n];
      assert net.a.e.input + net.ba == received + net.ba[n..];
      assert n == 0 ==> received == net.a.e.input;
      NextOfFrames(received, OnTheWire(net));
    }
  }

  /** Exactly when an iteration fails. From a connected state it never does for a corrupted stream and never while
      sending: it fails if and only if the connection is found closed, or the bytes read overflow the buffer, or
      complete a packet while the program has left its in-queue full, or complete the header of a packet with an
      unsupported version. */
  lemma {:induction false} WhenIterationsFail(limits: Limits, net: Net, count: nat, callback: seq<Api>)
    requires Roomy(limits) && Connected(net)
    ensures var n := Portion(limits, net.ba, count);
            !ActAtA(limits, net, Loop(count, callback)).ok <==>
            || FindsClosed(net, count)
            || Overflows(limits, net, n) || FindsQueueFull(limits, net, n) || MeetsBadVersion(net, n)
  {
    SendingNeverFails(limits, net, count, callback);
    WhenReceivingFails(limits, net, Portion(limits, net.ba, count));
  }

  // ----- the same run seen from the other side -----

  function MirrorEvent(e: NetEvent): NetEvent {
    match e
    case AtA(act) => AtB(act)
    case AtB(act) => AtA(act)
  }

  function MirrorEvents(events: seq<NetEvent>): seq<NetEvent> {
    seq(|events|, i requires 0 <= i < |events| => MirrorEvent(events[i]))
  }

  lemma {:induction false} MirrorRun(limits: Limits, net: Net, events: seq<NetEvent>)
    ensures RunNet(limits, Mirror(net), MirrorEvents(events)) == Mirror(RunNet(limits, net, events))
  {
    if events != [] {
      var k := |events| - 1;
      MirrorRun(limits, net, events[..k]);
      assert MirrorEvents(events)[..k] == MirrorEvents(events[..k]);
      assert Mirror(Mirror(RunNet(limits, net, events[..k]))) == RunNet(limits, net, events[..k]);
    }
  }
}
