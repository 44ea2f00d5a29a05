/** The RPC endpoint object: framer, queues and the shared scratch packet, updated in place. */
module Srpc {
  import opened Bytes
  import opened Packets
  import opened Framing
  import opened Buffers
  import opened Proto
  import opened PacketQueue
  import opened Endpoints
  import opened EndpointFacts

  /** A framer and two queues that share nothing. */
  method NewParts(limits: Limits, minBuffer: nat, minAlloc: nat)
    returns (proto: ProtoData, inQueue: Queue, outQueue: Queue)
    requires minBuffer < limits.bufMax <= TWO_TO_32 && limits.queueSize + minAlloc < 256
    ensures proto.Valid() && inQueue.Valid() && outQueue.Valid()
    ensures fresh(proto.Repr) && fresh(inQueue.Repr) && fresh(outQueue.Repr)
    ensures proto.Repr !! inQueue.Repr && proto.Repr !! outQueue.Repr && inQueue.Repr !! outQueue.Repr
    ensures proto.input.maxSize == proto.output.maxSize == limits.bufMax
    ensures proto.input.Contents() == proto.output.Contents() == []
    ensures proto.nextRrId == 0 && proto.version == VERSION_MAX
    ensures inQueue.capacity == outQueue.capacity == limits.queueSize && inQueue.contents == outQueue.contents == []
  {
    proto := new ProtoData(minBuffer, limits.bufMax);
    inQueue := new Queue(limits.queueSize, minAlloc);
    outQueue := new Queue(limits.queueSize, minAlloc);
  }

  class SrpcEndpoint {
    const limits: Limits
    const proto: ProtoData
    const sdp: Sdp
    const inQueue: Queue
    const outQueue: Queue

    ghost var Repr: set<object>

    ghost predicate Valid()
      reads this, Repr
      ensures Valid() ==> this in Repr
    {
      && this in Repr && sdp in Repr && proto in Repr && inQueue in Repr && outQueue in Repr
      && proto.Repr <= Repr && inQueue.Repr <= Repr && outQueue.Repr <= Repr
      && proto.Repr !! inQueue.Repr && proto.Repr !! outQueue.Repr && inQueue.Repr !! outQueue.Repr
      && {this, sdp} !! proto.Repr + inQueue.Repr + outQueue.Repr
      && proto.Valid() && inQueue.Valid() && outQueue.Valid()
      && inQueue.capacity == outQueue.capacity == limits.queueSize
      && proto.input.maxSize == proto.output.maxSize == limits.bufMax
      && PACKET_SIZE + limits.bufMax <= TWO_TO_32 && limits.ioSize + limits.bufMax <= TWO_TO_32
    }

    /** The endpoint as a value. */
    ghost function Model(): Endpoint
      requires Valid()
      reads this, Repr
    {
      Endpoint(proto.nextRrId, proto.version, proto.input.Contents(), proto.output.Contents(),
               inQueue.contents, outQueue.contents, sdp.mem)
    }

    constructor (limits: Limits, minBuffer: nat, minAlloc: nat)
      requires minBuffer < limits.bufMax && limits.queueSize + minAlloc < 256
      requires PACKET_SIZE + limits.bufMax <= TWO_TO_32 && limits.ioSize + limits.bufMax <= TWO_TO_32
      ensures Valid() && fresh(Repr) && this.limits == limits
      ensures Endpoints.Fresh(Model())
    {
      this.limits := limits;
      var framer, received, queued := NewParts(limits, minBuffer, minAlloc);
      var scratch := new Sdp(Zeros(PACKET_SIZE));
      proto, sdp, inQueue, outQueue := framer, scratch, received, queued;
      Repr := {this, scratch} + framer.Repr + received.Repr + queued.Repr;
    }

    /** Starts the scratch packet for a call. */
    method StampPacket(call: Api)
      requires Valid() && call.Call?
      modifies proto`nextRrId, sdp
      ensures Valid() && proto.nextRrId == NextId(old(proto.nextRrId))
      ensures sdp.mem == Image(Stamp(old(Model()), call))
    {
      proto.SdpInit(sdp);
      if call.version.Some? {
        StampVersion(RawPacket.Packet(proto.version, proto.nextRrId, 0, []), call.version.value);
        sdp.mem := sdp.mem[TAG_SIZE := call.version.value];
      }
    }

    /** Fills the scratch packet for a call. */
    method Compose(call: Api) returns (ok: bool)
      requires Valid() && call.Call?
      modifies proto`nextRrId, sdp
      ensures Valid() && proto.nextRrId == NextId(old(proto.nextRrId))
      ensures ok == DataFits(call.data)
      ensures sdp.mem == Image(if ok then CallPacket(old(Model()), call) else Stamp(old(Model()), call))
    {
      CallFields(Model(), call);
      StampPacket(call);
      ok := SetData(sdp, call.data, call.callId);
    }

    /** Queues the scratch packet for sending. */
    method QueueOut() returns (ok: bool)
      requires Valid()
      modifies Repr
      ensures Valid() && fresh(Repr - old(Repr)) && sdp.mem == old(sdp.mem)
      ensures ok == (|old(Model()).outQueue| < limits.queueSize)
      ensures Model() == old(Model()).(outQueue := old(Model()).outQueue + if ok then [sdp.mem] else [])
    {
      ok := outQueue.Push(sdp);
      Repr := Repr + outQueue.Repr;
    }

    /** Sends a request; the result is its id, or 0 if it was refused. */
    method AsyncCall(call: Api) returns (rrId: uint32, ghost accepted: seq<Packet>)
      requires Valid() && call.Call?
      modifies Repr
      ensures Valid() && fresh(Repr - old(Repr))
      ensures var effect := Apply(limits, old(Model()), call);
              Model() == effect.e && accepted == effect.accepted
      ensures rrId == if accepted == [] then 0 else accepted[0].rrId
      ensures rrId == 0 <==> accepted == []
      ensures accepted != [] ==>
                && accepted[0].version == (if call.version.Some? then call.version.value else old(proto.version))
                && accepted[0].callId == call.callId
                && accepted[0].data == if call.data.Data? then call.data.bytes else []
    {
      if !(call.minVersion == 0 || proto.version >= call.minVersion) {
        return 0, [];
      }
      var ok; ghost var p;
      CallSays(limits, Model(), call.callId, call.data, call.version, call.minVersion);
      ok, p := ComposeAndQueue(call);
      if ok {
        ReadImage(p);
        return RrIdOf(sdp.mem), [p];
      }
      return 0, [];
    }

    /** Composes and queues the packet of a call that the protocol version allows. */
    method ComposeAndQueue(call: Api) returns (ok: bool, ghost p: Packet)
      requires Valid() && call.Call? && Allowed(Model(), call.minVersion)
      modifies Repr
      ensures Valid() && fresh(Repr - old(Repr))
      ensures var effect := Apply(limits, old(Model()), call);
              Model() == effect.e && effect.accepted == if ok then [p] else []
      ensures ok ==> sdp.mem == Image(p) && p.rrId != 0
    {
      p := RawPacket.Packet(0, 0, 0, []);
      ghost var e := Model();
      ok := Compose(call);
      if ok {
        p := CallPacket(e, call);
        ok := QueueOut();
      }
    }

    /** Hands the first matching received packet to the program. */
    method GetData(rrId: uint32) returns (ghost taken: seq<PacketMem>)
      requires Valid()
      modifies Repr
      ensures Valid() && fresh(Repr - old(Repr))
      ensures var effect := Apply(limits, old(Model()), Api.GetData(rrId));
              Model() == effect.e && taken == effect.taken
    {
      var ok := inQueue.Pop(sdp, rrId);
      taken := if ok then [sdp.mem] else [];
    }

    method SetProtoVersion(v: byte)
      requires Valid()
      modifies Repr
      ensures Valid() && Repr == old(Repr)
      ensures Model() == Apply(limits, old(Model()), SetVersion(v)).e
    {
      proto.SetVersion(v);
    }

    method Perform(a: Api) returns (ghost effect: Effect)
      requires Valid()
      modifies Repr
      ensures Valid() && fresh(Repr - old(Repr))
      ensures effect == Apply(limits, old(Model()), a) && Model() == effect.e
    {
      effect := Apply(limits, Model(), a);
      match a
      case Call(_, _, _, _) => var rrId, accepted := AsyncCall(a);
      case GetData(rrId) => var taken := GetData(rrId);
      case SetVersion(v) => SetProtoVersion(v);
    }

    /** What the program does while the endpoint waits for its callback to return. */
    method PerformAll(callback: seq<Api>) returns (ghost effect: Effect)
      requires Valid()
      modifies Repr
      ensures Valid() && fresh(Repr - old(Repr))
      ensures effect == ApplyAll(limits, old(Model()), callback) && Model() == effect.e
    {
      effect := Effect(Model(), [], []);
      var i := 0;
      while i < |callback|
        invariant 0 <= i <= |callback|
        invariant Valid() && fresh(Repr - old(Repr))
        invariant effect == ApplyAll(limits, old(Model()), callback[..i]) && Model() == effect.e
      {
        ghost var last := Perform(callback[i]);
        effect := Effect(last.e, effect.accepted + last.accepted, effect.taken + last.taken);
        assert callback[..i + 1][..i] == callback[..i];
        i := i + 1;
      }
      assert callback[..i] == callback;
    }

    /** Appends received bytes to the input. */
    method Accept(bytes: seq<byte>) returns (ok: bool)
      requires Valid() && |bytes| <= limits.ioSize
      modifies Repr
      ensures Valid() && fresh(Repr - old(Repr))
      ensures ok == (|old(Model()).input| + |bytes| < limits.bufMax)
      ensures Model() == if ok then old(Model()).(input := old(Model()).input + bytes) else old(Model())
    {
      ok := proto.InAppend(bytes);
      Repr := Repr + proto.Repr;
    }

    /** Pops a packet from the input into the scratch packet. */
    method PopPacket() returns (r: ResultCode, more: bool)
      requires Valid()
      modifies Repr
      ensures Valid() && fresh(Repr - old(Repr))
      ensures var e := old(Model());
              match Next(e.input)
              case NeedMore => r == ResultFalse && Model() == e
              case Taken(n) =>
                && n + TAG_SIZE <= |e.input| && n <= PACKET_SIZE && r == ResultTrue
                && Model() == e.(input := e.input[n + TAG_SIZE..], sdp := e.input[..n] + e.sdp[n..])
                && more == (Model().input != [])
              case DataError => r == BadData && Model() == e.(input := [])
              case VersionError(v) => r == BadVersion && Model() == e.(input := [], sdp := e.sdp[TAG_SIZE := v])
    {
      r := proto.PopInSdp(sdp);
      Repr := Repr + proto.Repr;
      more := proto.input.dataSize > 0;
    }

    /** Queues the scratch packet for the program. */
    method Enqueue() returns (ok: bool)
      requires Valid()
      modifies Repr
      ensures Valid() && fresh(Repr - old(Repr))
      ensures ok == (|old(Model()).inQueue| < limits.queueSize)
      ensures Model() == old(Model()).(inQueue := old(Model()).inQueue + if ok then [old(sdp.mem)] else [])
    {
      ok := inQueue.Push(sdp);
      Repr := Repr + inQueue.Repr;
    }

    /** Decodes one packet, if there is one, into the in-queue. */
    method DecodeHalf() returns (ok: bool, calls: bool, more: bool)
      requires Valid()
      modifies Repr
      ensures Valid() && fresh(Repr - old(Repr))
      ensures var r := Decode(limits, old(Model()));
              Model() == r.e && ok == r.ok && calls == r.calls && more == r.more
    {
      var result;
      result, more := PopPacket();
      assert fresh(Repr - old(Repr));
      if result == ResultTrue {
        ok := Enqueue();
        calls, more := ok, ok && more;
      } else {
        ok, calls, more := result == ResultFalse, result == BadVersion, false;
      }
    }

    /** The receiving half of an iteration, up to the callback, and whether it is called. */
    method ReceiveHalf(input: Input) returns (ok: bool, calls: bool, more: bool)
      requires Valid() && (input.Chunk? ==> |input.bytes| <= limits.ioSize)
      modifies Repr
      ensures Valid() && fresh(Repr - old(Repr))
      ensures var r := Receive(limits, old(Model()), input);
              Model() == r.e && ok == r.ok && calls == r.calls && more == r.more
    {
      if input.Closed? {
        return false, false, false;
      }
      if input.Chunk? {
        ok := Accept(input.bytes);
        assert fresh(Repr - old(Repr));
        if !ok {
          return false, false, false;
        }
      }
      ok, calls, more := DecodeHalf();
    }

    /** Takes the oldest packet of the out-queue into the scratch packet. */
    method Dequeue() returns (ok: bool)
      requires Valid()
      modifies Repr
      ensures Valid() && Repr == old(Repr)
      ensures var e := old(Model());
              && ok == (e.outQueue != [])
              && Model() == if ok then e.(outQueue := e.outQueue[1..], sdp := e.outQueue[0]) else e
    {
      ok := outQueue.Pop(sdp, 0);
    }

    /** Appends the frame of the scratch packet to the output. */
    method FrameOut() returns (r: ResultCode)
      requires Valid()
      modifies Repr
      ensures Valid() && fresh(Repr - old(Repr))
      ensures (r, Model().output) == Appended(limits.bufMax, old(Model()).output, old(sdp.mem))
      ensures Model() == old(Model()).(output := Model().output)
    {
      r := proto.OutAppend(sdp);
      Repr := Repr + proto.Repr;
    }

    /** Writes the output, as far as one transfer goes. */
    method FlushOut() returns (written: seq<byte>)
      requires Valid()
      modifies Repr
      ensures Valid() && fresh(Repr - old(Repr))
      ensures |written| == Min(limits.ioSize, |old(Model()).output|)
      ensures old(Model()) == Model().(output := written + Model().output)
    {
      written := proto.PopOut(limits.ioSize);
      Repr := Repr + proto.Repr;
    }

    /** The sending half: the head of the out-queue is framed, and the output written. */
    method SendHalf() returns (ok: bool, written: seq<byte>)
      requires Valid()
      modifies Repr
      ensures Valid() && fresh(Repr - old(Repr))
      ensures Sent(Model(), ok, written) == Send(limits, old(Model()))
    {
      var popped := Dequeue();
      if popped {
        var result := FrameOut();
        assert fresh(Repr - old(Repr));
        if result != ResultTrue && result != ResultFalse {
          return false, [];
        }
      }
      written := FlushOut();
      ok := true;
    }

    /** One iteration: receive, let the program react to a packet or to a version error, send. */
    method Iterate(input: Input, callback: seq<Api>) returns (ok: bool, written: seq<byte>, raised: bool)
      requires Valid() && (input.Chunk? ==> |input.bytes| <= limits.ioSize)
      modifies Repr
      ensures Valid() && fresh(Repr - old(Repr))
      ensures var r := Endpoints.Iterate(limits, old(Model()), input, callback);
              Model() == r.e && ok == r.ok && written == r.written && raised == r.raised
      ensures input.Closed? ==> !ok && Model() == old(Model()) && written == [] && !raised
    {
      var calls, more;
      ok, calls, more := ReceiveHalf(input);
      if calls {
        ghost var effect := PerformAll(callback);
        assert fresh(Repr - old(Repr));
      }
      if !ok {
        return false, [], false;
      }
      ok, written := SendHalf();
      raised := ok && (proto.output.dataSize > 0 || outQueue.itemCount > 0 || more);
    }

    /** Pops a packet; the callback for it, or for its unsupported version, acts on the endpoint. */
    method PopAndReact(callback: seq<Api>) returns (r: ResultCode, ghost packet: PacketMem)
      requires Valid()
      modifies Repr
      ensures Valid() && fresh(Repr - old(Repr))
      ensures var e := old(Model());
              match Next(e.input)
              case NeedMore => r == ResultFalse && Model() == e
              case Taken(n) =>
                && n + TAG_SIZE <= |e.input| && n <= PACKET_SIZE
                && r == ResultTrue && packet == e.input[..n] + e.sdp[n..]
                && Model() == ApplyAll(limits, e.(input := e.input[n + TAG_SIZE..], sdp := packet), callback).e
              case DataError => r == BadData && Model() == e.(input := [])
              case VersionError(v) =>
                && r == BadVersion
                && Model() == ApplyAll(limits, e.(input := [], sdp := e.sdp[TAG_SIZE := v]), callback).e
    {
      var more;
      r, more := PopPacket();
      assert fresh(Repr - old(Repr));
      packet := sdp.mem;
      if r == ResultTrue || r == BadVersion {
        ghost var effect := PerformAll(callback);
      }
    }

    /** Pops packets until none is left, passing them to the callback one by one. */
    method DrainInput(callback: nat -> seq<Api>) returns (ok: bool, ghost packets: seq<PacketMem>)
      requires Valid()
      modifies Repr
      ensures Valid() && fresh(Repr - old(Repr))
      ensures var d := Drain(limits, old(Model()), callback, 0);
              Model() == d.e && ok == d.ok && packets == d.packets
    {
      ghost var all := Drain(limits, Model(), callback, 0);
      packets := [];
      var k := 0;
      while true
        invariant Valid() && fresh(Repr - old(Repr))
        invariant var later := Drain(limits, Model(), callback, k);
                  all.e == later.e && all.ok == later.ok && all.packets == packets + later.packets
        decreases proto.input.dataSize
      {
        ghost var e := Model();
        var result; ghost var packet;
        result, packet := PopAndReact(callback(k));
        assert fresh(Repr - old(Repr));
        if result != ResultTrue {
          return result == ResultFalse, packets;
        }
        DrainOne(limits, e, callback, k, packets);
        packets := packets + [packet];
        k := k + 1;
      }
    }

    /** One iteration on a device: everything received is decoded at once. */
    method IterateDevice(input: Input, callback: nat -> seq<Api>) returns (ok: bool, ghost packets: seq<PacketMem>)
      requires Valid() && (input.Chunk? ==> |input.bytes| <= limits.ioSize)
      modifies Repr
      ensures Valid() && fresh(Repr - old(Repr))
      ensures var d := Endpoints.IterateDevice(limits, old(Model()), input, callback);
              Model() == d.e && ok == d.ok && packets == d.packets
      ensures !input.Chunk? ==> ok == input.Nothing? && Model() == old(Model()) && packets == []
    {
      if input.Closed? {
        return false, [];
      }
      if input.Nothing? {
        return true, [];
      }
      var appended := Accept(input.bytes);
      assert fresh(Repr - old(Repr));
      if !appended {
        return false, [];
      }
      ok, packets := DrainInput(callback);
    }
  }
}
