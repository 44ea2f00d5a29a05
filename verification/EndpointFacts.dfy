/** What the operations of an endpoint mean, one by one: what a call sends, what a closed connection, a failure and a
    callback leave behind, what an iteration writes and when it asks for another one. */
module EndpointFacts {
  import opened Bytes
  import opened Packets
  import opened Framing
  import opened Proto
  import opened Endpoints
  import opened EndpointRuns

  // ----- operations of the program -----

  /** A call is accepted if and only if the protocol version reaches the minimum, the payload exists and fits, and
      the out-queue has room. The packet accepted carries the version that the call names, or else the endpoint's,
      the call id and the payload of the call, and goes behind those that wait; a refused call queues nothing. */
  lemma {:induction false} CallSays(limits: Limits, e: Endpoint, callId: uint32, data: CallData, version: Option<byte>,
                                    minVersion: byte)
    ensures var f := Apply(limits, e, Call(callId, data, version, minVersion));
            var missing := data.NullData? && data.size > 0;
            var size := if data.NullData? then data.size else |data.bytes|;
            && (f.accepted != [] <==>
                minVersion <= e.version && !missing && size <= 10240 && |e.outQueue| < limits.queueSize)
            && (f.accepted == [] ==> f.e.outQueue == e.outQueue)
            && (f.accepted != [] ==>
                  var p := f.accepted[0];
                  && |f.accepted| == 1 && |f.e.outQueue| == |e.outQueue| + 1 && e.outQueue <= f.e.outQueue
                  && HoldsPacket(f.e.outQueue[|e.outQueue|]) && Read(f.e.outQueue[|e.outQueue|]) == p
                  && p.version == (match version case Some(v) => v case None => e.version)
                  && p.callId == callId && p.data == (match data case Data(bytes) => bytes case NullData(_) => []))
            && f.e.version == e.version && f.e.inQueue == e.inQueue && f.taken == []
  {
    var call := Call(callId, data, version, minVersion);
    if DataFits(data) {
      ReadImage(CallPacket(e, call));
    }
  }

  /** A supported version set is the version of the calls that follow; any other sets the newest one. */
  lemma {:induction false} VersionIsUsed(limits: Limits, e: Endpoint, v: byte, callId: uint32)
    requires |e.outQueue| < limits.queueSize
    ensures var f := ApplyAll(limits, e, [SetVersion(v), Call(callId, Data([]), None, 0)]);
            |f.accepted| == 1 && f.accepted[0].version == if 1 <= v <= 28 then v else 28
  {
    var apis: seq<Api> := [SetVersion(v), Call(callId, Data([]), None, 0)];
    assert apis[..1] == [SetVersion(v)] && apis[..1][..0] == [];
    assert ApplyAll(limits, e, []) == Effect(e, [], []);
    CallSays(limits, Apply(limits, e, SetVersion(v)).e, callId, Data([]), None, 0);
  }

  /** Asking for data hands over the first packet that matches, and copies it to the scratch packet. */
  lemma {:induction false} GetDataSays(limits: Limits, e: Endpoint, rrId: uint32)
    ensures var f := Apply(limits, e, GetData(rrId));
            && f.accepted == [] && f.e.outQueue == e.outQueue && f.e.version == e.version && |f.taken| <= 1
            && (f.taken == [] <==> forall i :: 0 <= i < |e.inQueue| ==> rrId != 0 && RrIdOf(e.inQueue[i]) != rrId)
            && (f.taken == [] ==> f.e == e)
            && (f.taken != [] ==>
                  && f.e.sdp == f.taken[0]
                  && exists i :: 0 <= i < |e.inQueue| && f.taken[0] == e.inQueue[i]
                                 && (rrId == 0 ==> i == 0) && (rrId != 0 ==> RrIdOf(e.inQueue[i]) == rrId)
                                 && (forall k :: 0 <= k < i ==> RrIdOf(e.inQueue[k]) != rrId)
                                 && f.e.inQueue == e.inQueue[..i] + e.inQueue[i + 1..])
  {
  }

  // ----- a closed connection, and failures -----

  /** On a closed connection an iteration fails at once and touches nothing. */
  lemma {:induction false} ClosedEndsIteration(limits: Limits, e: Endpoint, callback: seq<Api>)
    ensures var r := Iterate(limits, e, Closed, callback);
            !r.ok && r.e == e && r.written == [] && r.decoded == [] && r.accepted == [] && r.taken == [] && !r.raised
  {
  }

  /** So does the iteration of a device; with nothing to read it succeeds and touches nothing. */
  lemma {:induction false} ClosedEndsDevice(limits: Limits, e: Endpoint, callback: nat -> seq<Api>)
    ensures IterateDevice(limits, e, Closed, callback) == Drained(e, false, [], [])
    ensures IterateDevice(limits, e, Nothing, callback) == Drained(e, true, [], [])
  {
  }

  /** What a failed iteration leaves: nothing is written or announced. Closing and an overflow change nothing; an
      error in the stream empties the input; a packet that finds the in-queue full is dropped, and only it. The
      callback is called for a version error and for nothing else. */
  lemma {:induction false} WhatFailureLeaves(limits: Limits, e: Endpoint, input: Input, callback: seq<Api>)
    requires !Receive(limits, e, input).ok
    ensures var r := Iterate(limits, e, input, callback);
            var bytes := e.input + if input.Chunk? then input.bytes else [];
            && !r.ok && r.written == [] && r.decoded == [] && !r.raised && r.e.output == e.output
            && if input.Closed? || (input.Chunk? && |bytes| >= limits.bufMax) then
                 r.e == e && r.accepted == [] && r.taken == []
               else if Next(bytes).Taken? then
                 && |e.inQueue| >= limits.queueSize && r.e.inQueue == e.inQueue && r.e.outQueue == e.outQueue
                 && r.accepted == [] && r.taken == [] && r.e.input == bytes[Next(bytes).copied + 5..]
               else if Next(bytes).VersionError? then
                 && r.e.input == []
                 && var f := ApplyAll(limits, e.(input := [], sdp := e.sdp[5 := Next(bytes).version]), callback);
                    r.e == f.e && r.accepted == f.accepted && r.taken == f.taken
               else
                 Next(bytes).DataError? && r.e == e.(input := []) && r.accepted == [] && r.taken == []
  {
    assert e.input + [] == e.input;
    PopIsSoundHere(e.input + if input.Chunk? then input.bytes else []);
  }

  /** When an iteration fails, whatever arrives: on a closed connection, for an overflow, for an error in the
      stream, and for a packet that finds the in-queue full; never while sending. */
  lemma {:induction false} FailsExactly(limits: Limits, e: Endpoint, input: Input, callback: seq<Api>)
    requires Roomy(limits) && Tidy(e)
    ensures var bytes := e.input + if input.Chunk? then input.bytes else [];
            !Iterate(limits, e, input, callback).ok <==>
            || input.Closed?
            || (input.Chunk? && |bytes| >= limits.bufMax)
            || Next(bytes).DataError? || Next(bytes).VersionError?
            || (Next(bytes).Taken? && |e.inQueue| >= limits.queueSize)
  {
    assert e.input + [] == e.input;
    ReceiveFailsExactly(limits, e, input);
    SendingSucceeds(limits, e, input, callback);
  }

  lemma {:induction false} ReceiveFailsExactly(limits: Limits, e: Endpoint, input: Input)
    ensures var bytes := if input.Chunk? then e.input + input.bytes else e.input;
            !Receive(limits, e, input).ok <==>
            || input.Closed?
            || (input.Chunk? && |bytes| >= limits.bufMax)
            || Next(bytes).DataError? || Next(bytes).VersionError?
            || (Next(bytes).Taken? && |e.inQueue| >= limits.queueSize)
  {
  }

  lemma {:induction false} SendingSucceeds(limits: Limits, e: Endpoint, input: Input, callback: seq<Api>)
    requires Roomy(limits) && Tidy(e)
    ensures Iterate(limits, e, input, callback).ok == Receive(limits, e, input).ok
  {
    var r := Receive(limits, e, input);
    ReceiveLeavesQueue(limits, e, input);
    ApplyAllKeepsTidy(limits, r.e, callback);
    SendWritesWholeFrame(limits, Reaction(limits, r, callback).e);
  }

  lemma {:induction false} PopIsSoundHere(buf: seq<byte>)
    ensures Next(buf).Taken? ==> Next(buf).copied + TAG_SIZE <= |buf|
  {
    if Next(buf).Taken? {
      PopIsSound(buf);
    }
  }

  // ----- what an iteration sends and announces -----

  /** An iteration that succeeds writes one whole frame if it has a packet to send: the one that has waited longest,
      or, if none waited, the first that the program sent in its callback. */
  lemma {:induction false} IterationWrites(limits: Limits, e: Endpoint, input: Input, callback: seq<Api>)
    requires Roomy(limits) && Tidy(e) && Iterate(limits, e, input, callback).ok
    ensures var r := Iterate(limits, e, input, callback);
            if e.outQueue != [] then HoldsPacket(e.outQueue[0]) && r.written == Encode(Read(e.outQueue[0]))
            else if r.accepted != [] then r.written == Encode(r.accepted[0])
            else r.written == []
  {
    var r := Receive(limits, e, input);
    var c := Reaction(limits, r, callback);
    ReceiveLeavesQueue(limits, e, input);
    ApplyAllKeepsTidy(limits, r.e, callback);
    ApplyAllQueues(limits, r.e, callback);
    SendsFirst(limits, e.outQueue, c);
  }

  lemma {:induction false} ReceiveLeavesQueue(limits: Limits, e: Endpoint, input: Input)
    ensures Receive(limits, e, input).e.outQueue == e.outQueue && Receive(limits, e, input).e.output == e.output
  {
  }

  lemma {:induction false} SendsFirst(limits: Limits, before: seq<PacketMem>, c: Effect)
    requires Roomy(limits) && Tidy(c.e) && Queued(before, c.accepted, c.e.outQueue)
    ensures Send(limits, c.e).written ==
            if before != [] then (assert before[0] == c.e.outQueue[0]; Encode(Read(before[0])))
            else if c.accepted != [] then Encode(c.accepted[0])
            else []
  {
    SendWritesWholeFrame(limits, c.e);
    if c.e.outQueue != [] {
      EncodeRead(c.e.outQueue[0]);
    }
  }

  /** q is what waited, followed by the images of the packets accepted. */
  predicate Queued(before: seq<PacketMem>, accepted: seq<Packet>, q: seq<PacketMem>) {
    && |q| == |before| + |accepted| && before <= q
    && forall i :: |before| <= i < |q| ==> HoldsPacket(q[i]) && Read(q[i]) == accepted[i - |before|]
  }

  lemma {:induction false} QueuedThen(q0: seq<PacketMem>, ps: seq<Packet>, q1: seq<PacketMem>, more: seq<Packet>,
                                      q2: seq<PacketMem>)
    requires Queued(q0, ps, q1) && Queued(q1, more, q2)
    ensures Queued(q0, ps + more, q2)
  {
    forall i | |q0| <= i < |q2| ensures HoldsPacket(q2[i]) && Read(q2[i]) == (ps + more)[i - |q0|] {
      assert i < |q1| ==> q2[i] == q1[i];
    }
  }

  /** Calls queue their packets behind those that wait, in order. */
  lemma {:induction false} ApplyAllQueues(limits: Limits, e: Endpoint, apis: seq<Api>)
    ensures var f := ApplyAll(limits, e, apis); Queued(e.outQueue, f.accepted, f.e.outQueue)
  {
    if apis != [] {
      var k := |apis| - 1;
      var front := ApplyAll(limits, e, apis[..k]);
      var last := Apply(limits, front.e, apis[k]);
      ApplyAllQueues(limits, e, apis[..k]);
      ApplyQueues(limits, front.e, apis[k]);
      QueuedThen(e.outQueue, front.accepted, front.e.outQueue, last.accepted, last.e.outQueue);
    }
  }

  lemma {:induction false} ApplyQueues(limits: Limits, e: Endpoint, api: Api)
    ensures var f := Apply(limits, e, api); Queued(e.outQueue, f.accepted, f.e.outQueue)
  {
    if api.Call? {
      CallSays(limits, e, api.callId, api.data, api.version, api.minVersion);
    }
  }

  /** An iteration asks to be iterated again exactly if it succeeded and something is left to do at once: a packet
      to send, or, behind a packet it decoded, more bytes. A part of a frame alone raises nothing. */
  lemma {:induction false} RaisedExactly(limits: Limits, e: Endpoint, input: Input, callback: seq<Api>)
    requires Roomy(limits) && Tidy(e)
    ensures var r := Iterate(limits, e, input, callback);
            r.raised <==> r.ok && (r.e.outQueue != [] || (r.decoded != [] && r.e.input != []))
  {
    IterateKeepsTidy(limits, e, input, callback);
  }

  /** Framing a packet: it is appended with its closing tag, or the code says what happened instead: too large, and
      nothing appended; no room for the image, and nothing appended; no room for the tag, and the image left without
      it. */
  lemma {:induction false} FramedOrReported(maxSize: nat, out: seq<byte>, mem: PacketMem)
    ensures var (r, out') := Appended(maxSize, out, mem);
            var n := (18 + U32At(mem, 14)) % 0x1_0000_0000;
            && (n > 10258 ==> r == DataTooLarge && out' == out)
            && (n <= 10258 && |out| + n >= maxSize ==> r == ResultFalse && out' == out)
            && (n <= 10258 && |out| + n < maxSize <= |out| + n + 5 ==> r == BufferOverflow && out' == out + mem[..n])
            && (n <= 10258 && |out| + n + 5 < maxSize ==>
                  r == ResultTrue && out' == out + (mem[..n] + [83, 85, 80, 76, 65]))
  {
  }

  /** Sending: the head of the out-queue leaves it; if its frame is too large or has no room for the tag, the
      iteration fails and writes nothing, else it writes the output, as far as one transfer goes, and keeps the
      rest. */
  lemma {:induction false} SendSays(limits: Limits, e: Endpoint)
    ensures var s := Send(limits, e);
            var (r, out) := if e.outQueue == [] then (ResultTrue, e.output)
                            else Appended(limits.bufMax, e.output, e.outQueue[0]);
            && (s.ok <==> r != DataTooLarge && r != BufferOverflow)
            && s.e.outQueue == (if e.outQueue == [] then [] else e.outQueue[1..])
            && s.written + s.e.output == out
            && |s.written| == (if s.ok then Min(|out|, limits.ioSize) else 0)
            && s.e.input == e.input && s.e.inQueue == e.inQueue
            && s.e.nextRrId == e.nextRrId && s.e.version == e.version
  {
  }

  // ----- the callbacks of a device -----

  /** The two endpoints agree in all that operations of the program depend on and act on. */
  predicate SameProgramState(e: Endpoint, e': Endpoint) {
    && e.nextRrId == e'.nextRrId && e.version == e'.version && e.inQueue == e'.inQueue && e.outQueue == e'.outQueue
  }

  lemma {:induction false} SameEffects(limits: Limits, e: Endpoint, e': Endpoint, apis: seq<Api>)
    requires SameProgramState(e, e')
    ensures SameProgramState(ApplyAll(limits, e, apis).e, ApplyAll(limits, e', apis).e)
  {
    if apis != [] {
      SameEffects(limits, e, e', apis[..|apis| - 1]);
    }
  }

  /** The endpoint after the callbacks k to k + n - 1, one after the other. */
  function AfterCallbacks(limits: Limits, e: Endpoint, callback: nat -> seq<Api>, k: nat, n: nat): Endpoint
    decreases n
  {
    if n == 0 then e else AfterCallbacks(limits, ApplyAll(limits, e, callback(k)).e, callback, k + 1, n - 1)
  }

  lemma {:induction false} SameAfterCallbacks(limits: Limits, e: Endpoint, e': Endpoint,
                                              callback: nat -> seq<Api>, k: nat, n: nat)
    requires SameProgramState(e, e')
    ensures SameProgramState(AfterCallbacks(limits, e, callback, k, n), AfterCallbacks(limits, e', callback, k, n))
    decreases n
  {
    if n > 0 {
      SameEffects(limits, e, e', callback(k));
      SameAfterCallbacks(limits, ApplyAll(limits, e, callback(k)).e, ApplyAll(limits, e', callback(k)).e, callback,
                         k + 1, n - 1);
    }
  }

  lemma {:induction false} FirstCallback(limits: Limits, e: Endpoint, popped: Endpoint,
                                         callback: nat -> seq<Api>, k: nat, n: nat, end: Endpoint)
    requires SameProgramState(popped, e)
    requires SameProgramState(end, AfterCallbacks(limits, ApplyAll(limits, popped, callback(k)).e, callback, k + 1, n))
    ensures SameProgramState(end, AfterCallbacks(limits, e, callback, k, n + 1))
  {
    SameEffects(limits, popped, e, callback(k));
    SameAfterCallbacks(limits, ApplyAll(limits, popped, callback(k)).e, ApplyAll(limits, e, callback(k)).e, callback,
                       k + 1, n);
  }

  /** How often a drain of the bytes calls the callback: once for each packet, in order, and once more for a version
      error. */
  function CallbackCount(bytes: seq<byte>): nat {
    var d := DecodeAll(bytes);
    |d.frames| + if d.end.VersionError? then 1 else 0
  }

  lemma {:induction false} CallbackCountFirst(bytes: seq<byte>)
    requires Next(bytes).Taken?
    ensures Next(bytes).copied + TAG_SIZE <= |bytes|
    ensures CallbackCount(bytes) == 1 + CallbackCount(bytes[Next(bytes).copied + TAG_SIZE..])
  {
    PopIsSound(bytes);
  }

  /** The endpoint after popping a packet into the scratch packet. */
  function AfterPop(e: Endpoint): (e': Endpoint)
    requires Next(e.input).Taken?
    ensures |e'.input| < |e.input| && SameProgramState(e', e)
  {
    PopIsSound(e.input);
    var n := Next(e.input).copied;
    e.(input := e.input[n + TAG_SIZE..], sdp := e.input[..n] + e.sdp[n..])
  }

  lemma {:induction false} DrainFirst(limits: Limits, e: Endpoint, callback: nat -> seq<Api>, k: nat)
    requires Next(e.input).Taken?
    ensures var e' := ApplyAll(limits, AfterPop(e), callback(k)).e;
            && Drain(limits, e, callback, k).e == Drain(limits, e', callback, k + 1).e
            && CallbackCount(e.input) == CallbackCount(e'.input) + 1
            && |e'.input| < |e.input|
  {
    CallbackCountFirst(e.input);
    DrainOne(limits, e, callback, k, []);
  }

  lemma {:induction false} DrainLast(limits: Limits, e: Endpoint, callback: nat -> seq<Api>, k: nat)
    requires !Next(e.input).Taken?
    ensures SameProgramState(Drain(limits, e, callback, k).e,
                             AfterCallbacks(limits, e, callback, k, CallbackCount(e.input)))
  {
    if Next(e.input).VersionError? {
      var failed := e.(input := [], sdp := e.sdp[TAG_SIZE := Next(e.input).version]);
      FirstCallback(limits, e, failed, callback, k, 0, ApplyAll(limits, failed, callback(k)).e);
      assert CallbackCount(e.input) == 1;
    } else {
      assert CallbackCount(e.input) == 0;
    }
  }

  /** Draining calls the callback for every packet, in order, and for a version error, and does nothing else to the
      queues, the ids and the version. */
  lemma {:induction false} DrainCallsBack(limits: Limits, e: Endpoint, callback: nat -> seq<Api>, k: nat)
    ensures SameProgramState(Drain(limits, e, callback, k).e,
                             AfterCallbacks(limits, e, callback, k, CallbackCount(e.input)))
    decreases |e.input|
  {
    if Next(e.input).Taken? {
      DrainFirst(limits, e, callback, k);
      var e' := ApplyAll(limits, AfterPop(e), callback(k)).e;
      DrainCallsBack(limits, e', callback, k + 1);
      FirstCallback(limits, e, AfterPop(e), callback, k, CallbackCount(e'.input), Drain(limits, e, callback, k).e);
    } else {
      DrainLast(limits, e, callback, k);
    }
  }
}
