/** What every run of one endpoint keeps, whatever bytes it receives and whatever the program does. */
module EndpointRuns {
  import opened Bytes
  import opened Packets
  import opened Framing
  import opened Proto
  import opened Endpoints

  /** A maximal frame fits the output buffer and one transfer. */
  predicate Roomy(limits: Limits) {
    MAX_FRAME < limits.bufMax && MAX_FRAME <= limits.ioSize
  }

  /** The wire frame of the packet that mem holds. */
  function FrameOf(mem: PacketMem): seq<byte>
    requires HoldsPacket(mem)
  {
    mem[..HEADER_SIZE + DataSizeOf(mem)] + TAG
  }

  /** The output is empty between operations, and whatever waits in the out-queue can be sent. */
  predicate Tidy(e: Endpoint) {
    && e.output == []
    && forall i :: 0 <= i < |e.outQueue| ==> HoldsPacket(e.outQueue[i])
  }

  datatype Event = Program(api: Api) | Iteration(input: Input, callback: seq<Api>)

  function Happen(limits: Limits, e: Endpoint, event: Event): Endpoint {
    match event
    case Program(api) => Apply(limits, e, api).e
    case Iteration(input, callback) => Iterate(limits, e, input, callback).e
  }

  function RunAll(limits: Limits, e: Endpoint, events: seq<Event>): Endpoint {
    if events == [] then e
    else Happen(limits, RunAll(limits, e, events[..|events| - 1]), events[|events| - 1])
  }

  lemma {:induction false} ApplyAllKeepsTidy(limits: Limits, e: Endpoint, apis: seq<Api>)
    requires Tidy(e)
    ensures Tidy(ApplyAll(limits, e, apis).e)
  {
    if apis != [] {
      var front := ApplyAll(limits, e, apis[..|apis| - 1]).e;
      ApplyAllKeepsTidy(limits, e, apis[..|apis| - 1]);
      ApplyKeepsTidy(limits, front, apis[|apis| - 1]);
    }
  }

  lemma ApplyKeepsTidy(limits: Limits, e: Endpoint, api: Api)
    requires Tidy(e)
    ensures Tidy(Apply(limits, e, api).e)
  {
  }

  /** With a maximal frame's room, sending takes the head of the out-queue off and writes its whole frame: neither
      append overflows, no packet is dropped or cut short, and the output is empty again. */
  lemma SendWritesWholeFrame(limits: Limits, e: Endpoint)
    requires Roomy(limits) && Tidy(e)
    ensures var s := Send(limits, e);
            && s.ok && Tidy(s.e)
            && (if e.outQueue == [] then s.e == e && s.written == []
                else
                  && s.e == e.(outQueue := e.outQueue[1..], sdp := e.outQueue[0])
                  && s.written == FrameOf(e.outQueue[0]) && |s.written| <= MAX_FRAME
                  && Appended(limits.bufMax, e.output, e.outQueue[0]) == (ResultTrue, s.written))
  {
    if e.outQueue != [] {
      var n := HEADER_SIZE + DataSizeOf(e.outQueue[0]);
      assert [] + e.outQueue[0][..n] + TAG == FrameOf(e.outQueue[0]);
    }
  }

  lemma IterateKeepsTidy(limits: Limits, e: Endpoint, input: Input, callback: seq<Api>)
    requires Roomy(limits) && Tidy(e)
    ensures Tidy(Iterate(limits, e, input, callback).e)
  {
    var r := Receive(limits, e, input);
    ApplyAllKeepsTidy(limits, r.e, callback);
    SendWritesWholeFrame(limits, Reaction(limits, r, callback).e);
  }

  /** The output never backs up, in any run on any input. */
  lemma {:induction false} OutputNeverBacksUp(limits: Limits, e: Endpoint, events: seq<Event>)
    requires Roomy(limits) && Tidy(e)
    ensures Tidy(RunAll(limits, e, events))
  {
    if events != [] {
      var front := RunAll(limits, e, events[..|events| - 1]);
      OutputNeverBacksUp(limits, e, events[..|events| - 1]);
      match events[|events| - 1]
      case Program(api) => ApplyKeepsTidy(limits, front, api);
      case Iteration(input, callback) => IterateKeepsTidy(limits, front, input, callback);
    }
  }

  /** An iteration that succeeds without asking to be iterated again leaves nothing to do: both the out-queue and the
      output are empty, and the bytes received hold no further packet and no error. */
  lemma NothingStranded(limits: Limits, e: Endpoint, input: Input, callback: seq<Api>)
    requires var r := Iterate(limits, e, input, callback); r.ok && !r.raised
    ensures var e' := Iterate(limits, e, input, callback).e;
            e'.outQueue == [] && e'.output == [] && Next(e'.input) == NeedMore
  {
  }

  // ----- the iteration of a device -----

  /** Consecutive device iterations, until one fails; callback(k)(i) reacts to packet i of iteration k. */
  function DeviceRun(limits: Limits, e: Endpoint, inputs: seq<Input>, callback: nat -> nat -> seq<Api>): Drained {
    if inputs == [] then Drained(e, true, [], [])
    else
      var k := |inputs| - 1;
      var front := DeviceRun(limits, e, inputs[..k], callback);
      if front.ok then front.Then(IterateDevice(limits, front.e, inputs[k], callback(k))) else front
  }

  function AllBytes(inputs: seq<Input>): seq<byte> {
    if inputs == [] then []
    else
      var last := inputs[|inputs| - 1];
      AllBytes(inputs[..|inputs| - 1]) + if last.Chunk? then last.bytes else []
  }

  /** A maximal frame, less one byte, and one transfer together stay below the buffer limit. */
  predicate DeviceRoomy(limits: Limits) {
    MAX_FRAME - 1 + limits.ioSize < limits.bufMax
  }

  /** The packets passed to the callback begin with the images in the frames they came in. */
  predicate Carried(packets: seq<PacketMem>, frames: seq<seq<byte>>) {
    && |packets| == |frames|
    && forall i :: 0 <= i < |frames| ==>
         TAG_SIZE <= |frames[i]| <= MAX_FRAME
         && packets[i][..|frames[i]| - TAG_SIZE] == frames[i][..|frames[i]| - TAG_SIZE]
  }

  /** fed has been cut into d's frames; the tail needs more bytes if d is ok, and is an error otherwise. */
  predicate Leaves(fed: seq<byte>, d: Drained, tail: seq<byte>) {
    && Cuts(fed, d.frames, tail)
    && if d.ok then tail == d.e.input && Next(tail) == NeedMore else Next(tail) != NeedMore && !Next(tail).Taken?
  }

  ghost predicate Accounts(fed: seq<byte>, d: Drained) {
    Carried(d.packets, d.frames) && exists tail :: Leaves(fed, d, tail)
  }

  lemma {:induction false} DrainAccounts(limits: Limits, e: Endpoint, callback: nat -> seq<Api>, k: nat)
    ensures Accounts(e.input, Drain(limits, e, callback, k))
    decreases |e.input|
  {
    var d := Drain(limits, e, callback, k);
    match Next(e.input)
    case Taken(n) =>
      PopIsSound(e.input);
      var frame, mem := e.input[..n + TAG_SIZE], e.input[..n] + e.sdp[n..];
      var e' := ApplyAll(limits, e.(input := e.input[n + TAG_SIZE..], sdp := mem), callback(k)).e;
      DrainAccounts(limits, e', callback, k + 1);
      assert mem[..n] == frame[..n];
      FirstAccounts(e.input, Drained(e', true, [mem], [frame]), Drain(limits, e', callback, k + 1));
    case _ => assert Leaves(e.input, d, e.input);
  }

  lemma {:induction false} FirstAccounts(fed: seq<byte>, first: Drained, later: Drained)
    requires |first.frames| == 1 && Carried(first.packets, first.frames)
    requires Next(fed) == Taken(|first.frames[0]| - TAG_SIZE) && first.frames[0] <= fed
    requires Accounts(fed[|first.frames[0]|..], later)
    ensures Accounts(fed, first.Then(later))
  {
    var tail :| Leaves(fed[|first.frames[0]|..], later, tail);
    var all := first.Then(later);
    assert all.frames[0] == first.frames[0] && all.frames[1..] == later.frames;
    assert Leaves(fed, all, tail);
    CarriedAppend(first, later);
  }

  lemma {:induction false} CarriedAppend(d: Drained, later: Drained)
    requires Carried(d.packets, d.frames) && Carried(later.packets, later.frames)
    ensures Carried(d.packets + later.packets, d.frames + later.frames)
  {
  }

  lemma {:induction false} CutsFirst(fed: seq<byte>, frame: seq<byte>, later: seq<seq<byte>>, tail: seq<byte>)
    requires TAG_SIZE <= |frame| && Next(fed) == Taken(|frame| - TAG_SIZE) && frame <= fed
    requires Cuts(fed[|frame|..], later, tail)
    ensures Cuts(fed, [frame] + later, tail)
  {
  }

  lemma {:induction false} CutsAppend(fed: seq<byte>, frames: seq<seq<byte>>, mid: seq<byte>,
                                      later: seq<seq<byte>>, tail: seq<byte>)
    requires Cuts(fed, frames, mid) && Cuts(mid, later, tail)
    ensures Cuts(fed, frames + later, tail)
    decreases |frames|
  {
    if frames == [] {
      assert frames + later == later;
    } else {
      var frame, frames' := frames[0], frames[1..];
      assert frames + later == [frame] + (frames' + later);
      CutsAppend(fed[|frame|..], frames', mid, later, tail);
      CutsFirst(fed, frame, frames' + later, tail);
    }
  }

  /** More bytes, after everything so far is accounted for. */
  lemma {:induction false} MoreAccounts(fed: seq<byte>, d: Drained, chunk: seq<byte>, later: Drained)
    requires Accounts(fed, d)
    requires d.ok ==> Accounts(d.e.input + chunk, later)
    ensures Accounts(fed + chunk, if d.ok then d.Then(later) else d)
  {
    var mid :| Leaves(fed, d, mid);
    CutsMore(fed, d.frames, mid, chunk);
    if d.ok {
      var tail :| Leaves(mid + chunk, later, tail);
      CutsAppend(fed + chunk, d.frames, mid + chunk, later.frames, tail);
      assert Leaves(fed + chunk, d.Then(later), tail);
      CarriedAppend(d, later);
    } else {
      NextIsFinal(mid, chunk);
      assert Leaves(fed + chunk, d, mid + chunk);
    }
  }

  /** Every read yields nothing or at most one transfer of bytes. */
  predicate Portions(limits: Limits, inputs: seq<Input>) {
    forall i :: 0 <= i < |inputs| ==>
      inputs[i].Nothing? || (inputs[i].Chunk? && |inputs[i].bytes| <= limits.ioSize)
  }

  lemma {:induction false} DeviceRunAccounts(limits: Limits, e: Endpoint, inputs: seq<Input>,
                                             callback: nat -> nat -> seq<Api>)
    requires DeviceRoomy(limits) && e.input == [] && Portions(limits, inputs)
    ensures Accounts(AllBytes(inputs), DeviceRun(limits, e, inputs, callback))
  {
    if inputs == [] {
      assert Leaves([], DeviceRun(limits, e, inputs, callback), []);
    } else {
      var k := |inputs| - 1;
      var front := DeviceRun(limits, e, inputs[..k], callback);
      DeviceRunAccounts(limits, e, inputs[..k], callback);
      var chunk := if inputs[k].Chunk? then inputs[k].bytes else [];
      if front.ok {
        IterationAccounts(limits, front.e, inputs[k], chunk, callback(k));
      }
      MoreAccounts(AllBytes(inputs[..k]), front, chunk, IterateDevice(limits, front.e, inputs[k], callback(k)));
    }
  }

  lemma IterationAccounts(limits: Limits, e: Endpoint, input: Input, chunk: seq<byte>, callback: nat -> seq<Api>)
    requires DeviceRoomy(limits) && |chunk| <= limits.ioSize
    requires input == (if input.Chunk? then Chunk(chunk) else Nothing)
    requires Next(e.input) == NeedMore && (input.Nothing? ==> chunk == [])
    ensures Accounts(e.input + chunk, IterateDevice(limits, e, input, callback))
  {
    NeedMoreIsShort(e.input);
    if input.Chunk? {
      DrainAccounts(limits, e.(input := e.input + chunk), callback, 0);
    } else {
      assert e.input + [] == e.input;
      assert Leaves(e.input, Drained(e, true, [], []), e.input);
    }
  }

  /** The device loop, on any bytes in any portions, with any reactions of the program: it never overflows the
      buffer, passes on exactly the packets that the reference decoder finds in the whole stream, in order, keeps
      less than one frame buffered, and fails if and only if the stream holds an error. */
  lemma {:induction false} DeviceDecodesEverything(limits: Limits, e: Endpoint, inputs: seq<Input>,
                                                   callback: nat -> nat -> seq<Api>)
    requires DeviceRoomy(limits) && e.input == [] && Portions(limits, inputs)
    ensures var d, whole := DeviceRun(limits, e, inputs, callback), DecodeAll(AllBytes(inputs));
            && d.frames == whole.frames && Carried(d.packets, d.frames)
            && (d.ok <==> whole.end == NeedMore)
            && (d.ok ==> d.e.input == whole.rest && |d.e.input| < MAX_FRAME)
  {
    DeviceRunAccounts(limits, e, inputs, callback);
    var d, fed := DeviceRun(limits, e, inputs, callback), AllBytes(inputs);
    var tail :| Leaves(fed, d, tail);
    CutsDecode(fed, d.frames, tail);
    assert d.frames + [] == d.frames;
    if d.ok {
      NeedMoreIsShort(tail);
    }
  }
}
