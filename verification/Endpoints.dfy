/** One end of a connection as a value: what each operation of the RPC layer does to it. */
module Endpoints {
  import opened Bytes
  import opened Packets
  import opened Framing
  import opened Proto
  import opened PacketQueue

  /** Queue capacity, the size no buffer reaches, and the size of the transfer buffer of one iteration. */
  datatype Limits = Limits(queueSize: nat, bufMax: nat, ioSize: nat)

  const SERVER_LIMITS := Limits(10, 131072, 32768)

  datatype Endpoint = Endpoint(
    nextRrId: uint32,
    version: byte,
    input: seq<byte>,
    output: seq<byte>,
    inQueue: seq<PacketMem>,
    outQueue: seq<PacketMem>,
    sdp: PacketMem)

  predicate Fresh(e: Endpoint) {
    e.nextRrId == 0 && e.version == VERSION_MAX && e.input == e.output == [] && e.inQueue == e.outQueue == []
  }

  // ----- calls made by the program -----

  /** An operation of the program on its endpoint. minVersion is the protocol version the call id demands. */
  datatype Api =
    | Call(callId: uint32, data: CallData, version: Option<byte>, minVersion: byte)
    | GetData(rrId: uint32)
    | SetVersion(v: byte)

  /** The endpoint afterwards, the packets queued for sending, and the packets handed to the program. */
  datatype Effect = Effect(e: Endpoint, accepted: seq<Packet>, taken: seq<PacketMem>)

  predicate Allowed(e: Endpoint, minVersion: byte) {
    minVersion == 0 || e.version >= minVersion
  }

  predicate DataFits(data: CallData) {
    data.Size() <= MAX_DATA_SIZE && (data.NullData? ==> data.size == 0)
  }

  /** The empty packet that a call starts from: the protocol version, or the one asked for, and a new id. */
  function Stamp(e: Endpoint, call: Api): Packet
    requires call.Call?
  {
    RawPacket.Packet(if call.version.Some? then call.version.value else e.version, NextId(e.nextRrId), 0, [])
  }

  /** The packet that a call would send. */
  function CallPacket(e: Endpoint, call: Api): Packet
    requires call.Call? && DataFits(call.data)
  {
    Stamp(e, call).(callId := call.callId, data := if call.data.Data? then call.data.bytes else [])
  }

  lemma CallFields(e: Endpoint, call: Api)
    requires call.Call?
    ensures DataFits(call.data) ==>
              WithData(Image(Stamp(e, call)), call.callId, if call.data.Data? then call.data.bytes else []) ==
              Image(CallPacket(e, call))
  {
    if DataFits(call.data) {
      var p := Stamp(e, call);
      WithDataOfImage(p.version, p.rrId, call.callId, if call.data.Data? then call.data.bytes else []);
    }
  }

  function Apply(limits: Limits, e: Endpoint, a: Api): (f: Effect)
    ensures f.e.input == e.input && f.e.output == e.output
  {
    match a
    case Call(callId, data, version, minVersion) =>
      if !Allowed(e, minVersion) then Effect(e, [], [])
      else if !DataFits(data) then
        Effect(e.(nextRrId := NextId(e.nextRrId), sdp := Image(Stamp(e, a))), [], [])
      else
        var p := CallPacket(e, a);
        var e' := e.(nextRrId := p.rrId, sdp := Image(p));
        if |e.outQueue| < limits.queueSize then Effect(e'.(outQueue := e.outQueue + [Image(p)]), [p], [])
        else Effect(e', [], [])
    case GetData(rrId) =>
      var i := FirstMatch(e.inQueue, rrId);
      if i < |e.inQueue| then Effect(e.(inQueue := Without(e.inQueue, i), sdp := e.inQueue[i]), [], [e.inQueue[i]])
      else Effect(e, [], [])
    case SetVersion(v) => Effect(e.(version := if SupportedVersion(v) then v else VERSION_MAX), [], [])
  }

  function ApplyAll(limits: Limits, e: Endpoint, apis: seq<Api>): (f: Effect)
    ensures f.e.input == e.input && f.e.output == e.output
  {
    if apis == [] then Effect(e, [], [])
    else
      var front := ApplyAll(limits, e, apis[..|apis| - 1]);
      var last := Apply(limits, front.e, apis[|apis| - 1]);
      Effect(last.e, front.accepted + last.accepted, front.taken + last.taken)
  }

  // ----- one iteration -----

  /** What reading from the connection yields: it is closed, there is nothing yet, or some bytes. */
  datatype Input = Closed | Nothing | Chunk(bytes: seq<byte>)

  /** The first half of an iteration; ok is false if the iteration ends there. calls says whether the program's
      callback for a received packet, or for a version error, is called. */
  datatype Received = Received(e: Endpoint, ok: bool, decoded: seq<PacketMem>, more: bool, calls: bool)

  function Receive(limits: Limits, e: Endpoint, input: Input): Received {
    if input.Closed? then Received(e, false, [], false, false)
    else if input.Chunk? && |e.input| + |input.bytes| >= limits.bufMax then Received(e, false, [], false, false)
    else Decode(limits, if input.Chunk? then e.(input := e.input + input.bytes) else e)
  }

  function Decode(limits: Limits, e: Endpoint): Received {
    match Next(e.input)
    case NeedMore => Received(e, true, [], false, false)
    case Taken(n) =>
      PopIsSound(e.input);
      var mem := e.input[..n] + e.sdp[n..];
      var e' := e.(input := e.input[n + TAG_SIZE..], sdp := mem);
      if |e.inQueue| < limits.queueSize then
        Received(e'.(inQueue := e.inQueue + [mem]), true, [mem], e'.input != [], true)
      else Received(e', false, [], false, false)
    case DataError => Received(e.(input := []), false, [], false, false)
    case VersionError(v) => Received(e.(input := [], sdp := e.sdp[TAG_SIZE := v]), false, [], false, true)
  }

  /** What the program does in its callback, if it is called. */
  function Reaction(limits: Limits, r: Received, callback: seq<Api>): (f: Effect)
    ensures f.e.input == r.e.input && f.e.output == r.e.output
  {
    if r.calls then ApplyAll(limits, r.e, callback) else Effect(r.e, [], [])
  }

  /** The second half: the head of the out-queue is framed, and the output written as far as one transfer goes. */
  datatype Sent = Sent(e: Endpoint, ok: bool, written: seq<byte>)

  function Send(limits: Limits, e: Endpoint): Sent {
    if e.outQueue == [] then Flush(limits, e)
    else
      var e' := e.(outQueue := e.outQueue[1..], sdp := e.outQueue[0]);
      var (r, out) := Appended(limits.bufMax, e.output, e.outQueue[0]);
      if r == ResultTrue || r == ResultFalse then Flush(limits, e'.(output := out))
      else Sent(e'.(output := out), false, [])
  }

  function Flush(limits: Limits, e: Endpoint): Sent {
    var n := Min(limits.ioSize, |e.output|);
    Sent(e.(output := e.output[n..]), true, e.output[..n])
  }

  /** One iteration: its result, the bytes written, the packets decoded, the effects of the program's callback, and
      whether the endpoint asks to be iterated again at once. */
  datatype Round = Round(e: Endpoint, ok: bool, written: seq<byte>, decoded: seq<PacketMem>,
                         accepted: seq<Packet>, taken: seq<PacketMem>, raised: bool)

  function Iterate(limits: Limits, e: Endpoint, input: Input, callback: seq<Api>): Round {
    var r := Receive(limits, e, input);
    var c := Reaction(limits, r, callback);
    if !r.ok then Round(c.e, false, [], [], c.accepted, c.taken, false)
    else
      var s := Send(limits, c.e);
      Round(s.e, s.ok, s.written, r.decoded, c.accepted, c.taken,
            s.ok && (s.e.output != [] || s.e.outQueue != [] || r.more))
  }

  // ----- one iteration on a device -----

  /** The result of a device iteration, the packets it passed to the callback and the frames they came in. */
  datatype Drained = Drained(e: Endpoint, ok: bool, packets: seq<PacketMem>, frames: seq<seq<byte>>) {
    /** This, followed by what came out afterwards. */
    function Then(later: Drained): Drained {
      later.(packets := packets + later.packets, frames := frames + later.frames)
    }
  }

  /** Pops packets until none is left; callback(k) is what the program does on receiving packet k, or on finding
      that it has an unsupported version. */
  function Drain(limits: Limits, e: Endpoint, callback: nat -> seq<Api>, k: nat): Drained
    decreases |e.input|
  {
    match Next(e.input)
    case NeedMore => Drained(e, true, [], [])
    case Taken(n) =>
      PopIsSound(e.input);
      var mem := e.input[..n] + e.sdp[n..];
      var e' := ApplyAll(limits, e.(input := e.input[n + TAG_SIZE..], sdp := mem), callback(k)).e;
      Drained(e, true, [mem], [e.input[..n + TAG_SIZE]]).Then(Drain(limits, e', callback, k + 1))
    case DataError => Drained(e.(input := []), false, [], [])
    case VersionError(v) =>
      Drained(ApplyAll(limits, e.(input := [], sdp := e.sdp[TAG_SIZE := v]), callback(k)).e, false, [], [])
  }

  /** What draining does after its first packet. */
  lemma {:induction false} DrainOne(limits: Limits, e: Endpoint, callback: nat -> seq<Api>, k: nat,
                                    packets: seq<PacketMem>)
    requires Next(e.input).Taken?
    ensures var n := Next(e.input).copied;
            && n + TAG_SIZE <= |e.input| && n <= PACKET_SIZE
            && var mem := e.input[..n] + e.sdp[n..];
            var e' := ApplyAll(limits, e.(input := e.input[n + TAG_SIZE..], sdp := mem), callback(k)).e;
            var d, later := Drain(limits, e, callback, k), Drain(limits, e', callback, k + 1);
            d.e == later.e && d.ok == later.ok && packets + d.packets == packets + [mem] + later.packets
  {
    PopIsSound(e.input);
    var n := Next(e.input).copied;
    var mem := e.input[..n] + e.sdp[n..];
    var e' := ApplyAll(limits, e.(input := e.input[n + TAG_SIZE..], sdp := mem), callback(k)).e;
    assert Drain(limits, e, callback, k).packets == [mem] + Drain(limits, e', callback, k + 1).packets;
  }

  function IterateDevice(limits: Limits, e: Endpoint, input: Input, callback: nat -> seq<Api>): Drained {
    match input
    case Closed => Drained(e, false, [], [])
    case Nothing => Drained(e, true, [], [])
    case Chunk(bytes) =>
      if |e.input| + |bytes| >= limits.bufMax then Drained(e, false, [], [])
      else Drain(limits, e.(input := e.input + bytes), callback, 0)
  }
}
