/** Cutting frames out of a byte stream: what one pop decides, and what every run of appends and pops decodes. */
module Framing {
  import opened Bytes
  import opened Packets

  datatype Verdict =
    | NeedMore
    | Taken(copied: nat)
    | DataError
    | VersionError(version: byte)

  /** The number of bytes that precede the closing tag, as the 32-bit sum in the code computes it. */
  function ImageSize(buf: seq<byte>): uint32
    requires HEADER_SIZE <= |buf|
  {
    Add32(HEADER_SIZE, DataSizeOf(buf))
  }

  /** What popping a packet decides about the bytes received so far. */
  function Next(buf: seq<byte>): Verdict {
    if |buf| < TAG_SIZE then NeedMore
    else if buf[..TAG_SIZE] != TAG then DataError
    else if |buf| < HEADER_SIZE + TAG_SIZE then NeedMore
    else if !SupportedVersion(VersionOf(buf)) then VersionError(VersionOf(buf))
    else
      var n := ImageSize(buf);
      if n > PACKET_SIZE then DataError
      else if n + TAG_SIZE > |buf| then NeedMore
      else if buf[n..n + TAG_SIZE] != TAG then DataError
      else Taken(n)
  }

  /** A verdict other than NeedMore is final: later bytes cannot change it. */
  lemma NextIsFinal(buf: seq<byte>, more: seq<byte>)
    requires Next(buf) != NeedMore
    ensures Next(buf + more) == Next(buf)
  {
    var all := buf + more;
    assert all[..TAG_SIZE] == buf[..TAG_SIZE];
    if |buf| >= HEADER_SIZE + TAG_SIZE {
      assert DataSizeOf(all) == DataSizeOf(buf);
      var n := ImageSize(buf);
      if n + TAG_SIZE <= |buf| {
        assert all[n..n + TAG_SIZE] == buf[n..n + TAG_SIZE];
      }
    }
  }

  /** A buffer that does not yet hold a frame is shorter than one maximal frame. */
  lemma NeedMoreIsShort(buf: seq<byte>)
    requires Next(buf) == NeedMore
    ensures |buf| < MAX_FRAME
  {
  }

  // ----- one pop -----

  /** The length field at which the 32-bit sum in the size guard wraps around. */
  predicate LengthFits(buf: seq<byte>)
    requires HEADER_SIZE <= |buf|
  {
    DataSizeOf(buf) < TWO_TO_32 - HEADER_SIZE
  }

  /** Decoder soundness, with its exact condition: a pop that succeeds consumes a whole frame, and re-encoding the
      packet it returns gives back the very bytes consumed, if and only if the length field does not wrap the sum. */
  lemma {:induction false} PopIsSound(buf: seq<byte>)
    requires Next(buf).Taken?
    ensures var n := Next(buf).copied;
            && TAG_SIZE <= n + TAG_SIZE <= |buf|
            && (LengthFits(buf) <==> n + TAG_SIZE == HEADER_SIZE + DataSizeOf(buf) + TAG_SIZE)
            && (LengthFits(buf) <==>
                HoldsPacket(buf) && SupportedVersion(Read(buf).version) && Encode(Read(buf)) == buf[..n + TAG_SIZE])
  {
    SumFits(DataSizeOf(buf));
    if LengthFits(buf) {
      FrameIsSound(buf, Next(buf).copied);
    }
  }

  lemma SumFits(dataSize: uint32)
    ensures Add32(HEADER_SIZE, dataSize) == HEADER_SIZE + dataSize <==> dataSize < TWO_TO_32 - HEADER_SIZE
    ensures dataSize >= TWO_TO_32 - HEADER_SIZE ==> dataSize > MAX_DATA_SIZE
  {
  }

  /** Between two tags stands the frame of the packet read there. */
  lemma {:induction false} FrameIsSound(buf: seq<byte>, n: nat)
    requires HEADER_SIZE <= n <= PACKET_SIZE && n + TAG_SIZE <= |buf| && n == HEADER_SIZE + DataSizeOf(buf)
    requires buf[..TAG_SIZE] == TAG == buf[n..n + TAG_SIZE]
    ensures HoldsPacket(buf) && Encode(Read(buf)) == buf[..n + TAG_SIZE]
  {
    EncodeRead(buf);
    assert buf[..n] + TAG == buf[..n + TAG_SIZE];
  }

  /** The condition is needed: with a data_size of 2^32 - 18 the sum is 0, the opening tag passes for the closing
      one, and a pop reports success after consuming five bytes. */
  lemma WrappedLengthIsTaken(version: byte, rrId: uint32, callId: uint32, tail: seq<byte>)
    requires SupportedVersion(version) && |tail| >= TAG_SIZE
    ensures var buf := TAG + [version] + Le32(rrId) + Le32(callId) + Le32(TWO_TO_32 - HEADER_SIZE) + tail;
            Next(buf) == Taken(0) && !LengthFits(buf)
  {
  }

  /** In front of any other bytes, a frame is taken whole if its version is supported. */
  lemma {:induction false} NextOfEncode(p: Packet, rest: seq<byte>)
    ensures Next(Encode(p) + rest) ==
            if SupportedVersion(p.version) then Taken(HEADER_SIZE + |p.data|) else VersionError(p.version)
  {
    HeaderOfEncode(p, rest);
    assert ImageSize(Encode(p) + rest) == HEADER_SIZE + |p.data|;
  }

  lemma {:induction false} FrameIsRecognised(p: Packet, rest: seq<byte>)
    requires SupportedVersion(p.version)
    ensures var buf := Encode(p) + rest; Next(buf).Taken? && LengthFits(buf) && Read(buf) == p
  {
    NextOfEncode(p, rest);
    HeaderOfEncode(p, rest);
    ReadEncode(p, rest);
  }

  lemma {:induction false} RecognisedIsFrame(buf: seq<byte>)
    requires Next(buf).Taken? && LengthFits(buf)
    ensures SupportedVersion(Read(buf).version) && Encode(Read(buf)) <= buf
  {
    PopIsSound(buf);
  }

  /** Pops recognise exactly the frames of packets of a supported version. */
  lemma {:induction false} PopRecognisesFrames(buf: seq<byte>, p: Packet)
    ensures (Next(buf).Taken? && LengthFits(buf) && Read(buf) == p)
       <==> (SupportedVersion(p.version) && Encode(p) <= buf)
  {
    if Next(buf).Taken? && LengthFits(buf) {
      RecognisedIsFrame(buf);
    }
    if SupportedVersion(p.version) && Encode(p) <= buf {
      var rest := buf[|Encode(p)|..];
      assert buf == Encode(p) + rest;
      FrameIsRecognised(p, rest);
    }
  }

  /** On any prefix of a stream of frames, whatever their versions, a pop takes the first frame once it is there,
      waits for it before that, and reports a version error only for an unsupported version. */
  lemma {:induction false} NextOfFrames(buf: seq<byte>, ps: seq<Packet>)
    requires buf <= EncodeAll(ps)
    ensures match Next(buf)
            case NeedMore =>
              ps == [] || |buf| < if SupportedVersion(ps[0].version) then |Encode(ps[0])| else HEADER_SIZE + TAG_SIZE
            case Taken(n) =>
              ps != [] && SupportedVersion(ps[0].version)
              && n + TAG_SIZE == |Encode(ps[0])| <= |buf| && buf[..n + TAG_SIZE] == Encode(ps[0])
            case VersionError(v) =>
              ps != [] && ps[0].version == v && !SupportedVersion(v) && HEADER_SIZE + TAG_SIZE <= |buf|
            case DataError => false
  {
    if ps != [] {
      var frame, stream := Encode(ps[0]), EncodeAll(ps);
      NextOfEncode(ps[0], EncodeAll(ps[1..]));
      if Next(buf) == NeedMore {
        if |buf| >= |frame| {
          assert buf == frame + buf[|frame|..];
          NextOfEncode(ps[0], buf[|frame|..]);
        } else if |buf| >= HEADER_SIZE + TAG_SIZE {
          HeaderOfEncode(ps[0], EncodeAll(ps[1..]));
          assert VersionOf(buf) == VersionOf(stream);
        }
      } else {
        NextIsFinal(buf, stream[|buf|..]);
        assert buf + stream[|buf|..] == stream;
        if Next(buf).Taken? {
          PopIsSound(buf);
        }
      }
    }
  }

  // ----- runs of appends and pops -----

  /** One step on the input buffer: received bytes are appended, or a packet is popped. */
  datatype Feed = Append(chunk: seq<byte>) | TryPop

  datatype Status = Running | Overflowed | Failed(error: Verdict)

  /** The buffer, the frames cut out of it so far (tags included), and whether it is still in step. */
  datatype Decoder = Decoder(buf: seq<byte>, frames: seq<seq<byte>>, status: Status)

  const START := Decoder([], [], Running)

  function Step(bufMax: nat, d: Decoder, f: Feed): Decoder {
    if d.status != Running then d
    else
      match f
      case Append(chunk) =>
        if |d.buf| + |chunk| >= bufMax then d.(status := Overflowed) else d.(buf := d.buf + chunk)
      case TryPop =>
        match Next(d.buf)
        case NeedMore => d
        case Taken(n) => d.(buf := d.buf[n + TAG_SIZE..], frames := d.frames + [d.buf[..n + TAG_SIZE]])
        case error => d.(buf := [], status := Failed(error))
  }

  function Run(bufMax: nat, d: Decoder, fs: seq<Feed>): Decoder {
    if fs == [] then d else Step(bufMax, Run(bufMax, d, fs[..|fs| - 1]), fs[|fs| - 1])
  }

  /** All the bytes a schedule feeds, in order. */
  function Fed(fs: seq<Feed>): seq<byte> {
    if fs == [] then []
    else
      var f := fs[|fs| - 1];
      Fed(fs[..|fs| - 1]) + (if f.Append? then f.chunk else [])
  }

  datatype Decoding = Decoding(frames: seq<seq<byte>>, rest: seq<byte>, end: Verdict)

  /** The reference decoder: the whole stream at once, until it needs more bytes or meets an error. */
  function DecodeAll(stream: seq<byte>): Decoding
    decreases |stream|
  {
    match Next(stream)
    case Taken(n) =>
      var d := DecodeAll(stream[n + TAG_SIZE..]);
      d.(frames := [stream[..n + TAG_SIZE]] + d.frames)
    case end => Decoding([], stream, end)
  }

  /** Decoding stream after the frames in front of it. */
  function Resume(frames: seq<seq<byte>>, stream: seq<byte>): Decoding {
    var d := DecodeAll(stream);
    d.(frames := frames + d.frames)
  }

  /** Popping repeatedly cuts fed into frames and leaves tail. */
  predicate Cuts(fed: seq<byte>, frames: seq<seq<byte>>, tail: seq<byte>)
    decreases |frames|
  {
    if frames == [] then fed == tail
    else
      && TAG_SIZE <= |frames[0]| && Next(fed) == Taken(|frames[0]| - TAG_SIZE)
      && frames[0] <= fed
      && Cuts(fed[|frames[0]|..], frames[1..], tail)
  }

  lemma {:induction false} CutsMore(fed: seq<byte>, frames: seq<seq<byte>>, tail: seq<byte>, more: seq<byte>)
    requires Cuts(fed, frames, tail)
    ensures Cuts(fed + more, frames, tail + more)
    decreases |frames|
  {
    if frames != [] {
      NextIsFinal(fed, more);
      CutsMore(fed[|frames[0]|..], frames[1..], tail, more);
      assert (fed + more)[|frames[0]|..] == fed[|frames[0]|..] + more;
    }
  }

  lemma {:induction false} CutsOne(fed: seq<byte>, frames: seq<seq<byte>>, tail: seq<byte>, n: nat)
    requires Cuts(fed, frames, tail) && Next(tail) == Taken(n)
    ensures n + TAG_SIZE <= |tail|
    ensures Cuts(fed, frames + [tail[..n + TAG_SIZE]], tail[n + TAG_SIZE..])
    decreases |frames|
  {
    PopIsSound(tail);
    var last := [tail[..n + TAG_SIZE]];
    if frames == [] {
      assert frames + last == last;
    } else {
      CutsOne(fed[|frames[0]|..], frames[1..], tail, n);
      assert (frames + last)[1..] == frames[1..] + last;
    }
  }

  lemma {:induction false} CutsFlatten(fed: seq<byte>, frames: seq<seq<byte>>, tail: seq<byte>)
    requires Cuts(fed, frames, tail)
    ensures fed == Flatten(frames) + tail
    decreases |frames|
  {
    if frames != [] {
      CutsFlatten(fed[|frames[0]|..], frames[1..], tail);
      assert fed == frames[0] + fed[|frames[0]|..];
    }
  }

  lemma {:induction false} DecodeFirst(fed: seq<byte>, frame: seq<byte>)
    requires TAG_SIZE <= |frame| && Next(fed) == Taken(|frame| - TAG_SIZE) && frame <= fed
    ensures DecodeAll(fed) == Resume([frame], fed[|frame|..])
  {
    assert fed[..|frame|] == frame;
  }

  lemma {:induction false} ResumeTwice(a: seq<seq<byte>>, b: seq<seq<byte>>, d: Decoding)
    ensures d.(frames := a + (b + d.frames)) == d.(frames := (a + b) + d.frames)
  {
  }

  lemma {:induction false} CutsDecode(fed: seq<byte>, frames: seq<seq<byte>>, tail: seq<byte>)
    requires Cuts(fed, frames, tail)
    ensures DecodeAll(fed) == Resume(frames, tail)
    decreases |frames|
  {
    var d := DecodeAll(tail);
    if frames == [] {
      assert [] + d.frames == d.frames;
    } else {
      DecodeFirst(fed, frames[0]);
      CutsDecode(fed[|frames[0]|..], frames[1..], tail);
      ResumeTwice([frames[0]], frames[1..], d);
      assert [frames[0]] + frames[1..] == frames;
    }
  }

  /** What a decoder state says about the bytes fed so far: popping cuts them into the frames already returned and
      the bytes still buffered or, after an error, bytes on which that error is the verdict. */
  ghost predicate InStep(d: Decoder, fed: seq<byte>) {
    match d.status
    case Running => Cuts(fed, d.frames, d.buf)
    case Failed(error) =>
      && d.buf == [] && error != NeedMore && !error.Taken?
      && exists tail :: Cuts(fed, d.frames, tail) && Next(tail) == error
    case Overflowed => true
  }

  lemma {:induction false} PopStaysInStep(bufMax: nat, d: Decoder, fed: seq<byte>)
    requires InStep(d, fed)
    ensures InStep(Step(bufMax, d, TryPop), fed)
  {
    if d.status == Running && Next(d.buf).Taken? {
      CutsOne(fed, d.frames, d.buf, Next(d.buf).copied);
    }
  }

  lemma {:induction false} AppendStaysInStep(bufMax: nat, d: Decoder, fed: seq<byte>, chunk: seq<byte>)
    requires InStep(d, fed)
    ensures InStep(Step(bufMax, d, Append(chunk)), fed + chunk)
  {
    if d.status == Running {
      CutsMore(fed, d.frames, d.buf, chunk);
    } else if d.status.Failed? {
      var tail :| Cuts(fed, d.frames, tail) && Next(tail) == d.status.error;
      CutsMore(fed, d.frames, tail, chunk);
      NextIsFinal(tail, chunk);
    }
  }

  /** Chunking independence, as an invariant of every run: however the bytes are split and however appends and pops
      interleave, the frames cut out are those a decoder would cut from the whole stream at once. */
  lemma {:induction false} RunsStayInStep(bufMax: nat, fs: seq<Feed>)
    ensures InStep(Run(bufMax, START, fs), Fed(fs))
  {
    if fs != [] {
      var front, f := fs[..|fs| - 1], fs[|fs| - 1];
      RunsStayInStep(bufMax, front);
      match f
      case Append(chunk) => AppendStaysInStep(bufMax, Run(bufMax, START, front), Fed(front), chunk);
      case TryPop =>
        PopStaysInStep(bufMax, Run(bufMax, START, front), Fed(front));
        assert Fed(fs) == Fed(front);
    }
  }

  /** Nothing more can be popped from d. */
  predicate Drained(d: Decoder) {
    d.status.Failed? || (d.status == Running && Next(d.buf) == NeedMore)
  }

  /** A drained run returns exactly what the reference decoder finds in the whole stream, and ends as it does; the
      frames returned and the bytes still buffered account for every byte fed. */
  lemma {:induction false} DrainedRun(bufMax: nat, fs: seq<Feed>)
    requires Drained(Run(bufMax, START, fs))
    ensures var d, whole := Run(bufMax, START, fs), DecodeAll(Fed(fs));
            && d.frames == whole.frames
            && Fed(fs) == Flatten(d.frames) + whole.rest
            && d == if whole.end == NeedMore then Decoder(whole.rest, whole.frames, Running)
                    else Decoder([], whole.frames, Failed(whole.end))
  {
    RunsStayInStep(bufMax, fs);
    var d, fed := Run(bufMax, START, fs), Fed(fs);
    if d.status.Failed? {
      var tail :| Cuts(fed, d.frames, tail) && Next(tail) == d.status.error;
      CutsFlatten(fed, d.frames, tail);
      CutsDecode(fed, d.frames, tail);
    } else {
      CutsFlatten(fed, d.frames, d.buf);
      CutsDecode(fed, d.frames, d.buf);
    }
  }

  /** Two drained runs over the same bytes, split and scheduled differently, end in the same state. */
  lemma {:induction false} ChunkingIsIrrelevant(bufMax1: nat, fs1: seq<Feed>, bufMax2: nat, fs2: seq<Feed>)
    requires Fed(fs1) == Fed(fs2)
    requires Drained(Run(bufMax1, START, fs1)) && Drained(Run(bufMax2, START, fs2))
    ensures Run(bufMax1, START, fs1) == Run(bufMax2, START, fs2)
  {
    DrainedRun(bufMax1, fs1);
    DrainedRun(bufMax2, fs2);
  }

  function FramesOf(ps: seq<Packet>): seq<seq<byte>> {
    seq(|ps|, i requires 0 <= i < |ps| => Encode(ps[i]))
  }

  predicate AllSupported(ps: seq<Packet>) {
    forall i :: 0 <= i < |ps| ==> SupportedVersion(ps[i].version)
  }

  /** d has cut the first frames of ps out of the bytes fed, and buffers the part of the stream that follows them. */
  predicate Follows(d: Decoder, fed: seq<byte>, ps: seq<Packet>) {
    && d.status == Running
    && |d.frames| <= |ps| && d.frames == FramesOf(ps[..|d.frames|])
    && fed == EncodeAll(ps[..|d.frames|]) + d.buf
    && d.buf <= EncodeAll(ps[|d.frames|..])
  }

  lemma {:induction false} SplitFrames(ps: seq<Packet>, k: nat)
    requires k <= |ps|
    ensures EncodeAll(ps) == EncodeAll(ps[..k]) + EncodeAll(ps[k..])
  {
    EncodeAllAppend(ps[..k], ps[k..]);
    assert ps[..k] + ps[k..] == ps;
  }

  lemma {:induction false} OneFrameMore(ps: seq<Packet>, k: nat)
    requires k < |ps|
    ensures EncodeAll(ps[..k + 1]) == EncodeAll(ps[..k]) + Encode(ps[k])
    ensures FramesOf(ps[..k + 1]) == FramesOf(ps[..k]) + [Encode(ps[k])]
  {
    assert ps[..k + 1] == ps[..k] + [ps[k]];
    EncodeAllAppend(ps[..k], [ps[k]]);
    assert EncodeAll([ps[k]]) == Encode(ps[k]) + EncodeAll([]);
  }

  lemma {:induction false} FrameFollows(d: Decoder, fed: seq<byte>, ps: seq<Packet>, buf: seq<byte>)
    requires Follows(d, fed, ps) && |d.frames| < |ps| && d.buf == Encode(ps[|d.frames|]) + buf
    ensures Follows(Decoder(buf, d.frames + [Encode(ps[|d.frames|])], Running), fed, ps)
  {
    var k := |d.frames|;
    OneFrameMore(ps, k);
    assert ps[k..][1..] == ps[k + 1..];
    PrefixCancel(Encode(ps[k]), buf, EncodeAll(ps[k + 1..]));
  }

  lemma {:induction false} PopFollows(bufMax: nat, d: Decoder, fed: seq<byte>, ps: seq<Packet>)
    requires Follows(d, fed, ps) && AllSupported(ps)
    ensures Follows(Step(bufMax, d, TryPop), fed, ps)
    ensures Next(d.buf) == NeedMore && fed == EncodeAll(ps) ==> |d.frames| == |ps| && d.buf == []
  {
    var k, rest := |d.frames|, ps[|d.frames|..];
    SplitFrames(ps, k);
    NextOfFrames(d.buf, rest);
    match Next(d.buf)
    case NeedMore =>
      assert rest != [] ==> rest[0] == ps[k] && |d.buf| < |Encode(ps[k])|;
      if fed == EncodeAll(ps) {
        assert d.buf == EncodeAll(rest);
      }
    case Taken(n) =>
      assert d.buf == Encode(ps[k]) + d.buf[n + TAG_SIZE..];
      FrameFollows(d, fed, ps, d.buf[n + TAG_SIZE..]);
    case VersionError(v) =>
  }

  lemma {:induction false} AppendFollows(d: Decoder, fed: seq<byte>, ps: seq<Packet>, chunk: seq<byte>)
    requires Follows(d, fed, ps) && fed + chunk <= EncodeAll(ps)
    ensures Follows(d.(buf := d.buf + chunk), fed + chunk, ps)
  {
    var done := EncodeAll(ps[..|d.frames|]);
    SplitFrames(ps, |d.frames|);
    assert fed + chunk == done + (d.buf + chunk);
    PrefixCancel(done, d.buf + chunk, EncodeAll(ps[|d.frames|..]));
  }

  /** The round trip on streams: the frames of any packets of supported versions, fed in any chunks with any
      interleaving of pops that does not overflow, come back one by one, in order and unchanged; the buffer is
      always exactly the part of the stream received and not yet decoded; and once the whole stream is fed and
      nothing more can be popped, every packet has come back. */
  lemma {:induction false} PacketStreamsDecode(bufMax: nat, fs: seq<Feed>, ps: seq<Packet>)
    requires Fed(fs) <= EncodeAll(ps) && AllSupported(ps)
    requires Run(bufMax, START, fs).status != Overflowed
    ensures Follows(Run(bufMax, START, fs), Fed(fs), ps)
    ensures Drained(Run(bufMax, START, fs)) && Fed(fs) == EncodeAll(ps) ==>
              Run(bufMax, START, fs) == Decoder([], FramesOf(ps), Running)
  {
    var d := Run(bufMax, START, fs);
    if fs == [] {
      assert ps[0..] == ps;
    } else {
      var front, f := fs[..|fs| - 1], fs[|fs| - 1];
      PacketStreamsDecode(bufMax, front, ps);
      var d0 := Run(bufMax, START, front);
      match f
      case TryPop => PopFollows(bufMax, d0, Fed(front), ps);
      case Append(chunk) => AppendFollows(d0, Fed(front), ps, chunk);
    }
    PopFollows(bufMax, d, Fed(fs), ps);
    if |d.frames| == |ps| {
      assert ps[..|d.frames|] == ps;
    }
  }

  // ----- decoder soundness over whole streams -----

  /** No length field among the frames that popping cuts off the stream wraps the sum. */
  predicate NoWrap(stream: seq<byte>)
    decreases |stream|
  {
    match Next(stream)
    case Taken(n) => LengthFits(stream) && NoWrap(stream[n + TAG_SIZE..])
    case _ => true
  }

  /** fed is the encodings of packets of supported versions, whose frames are frames, and then tail. */
  ghost predicate ArePackets(fed: seq<byte>, frames: seq<seq<byte>>, tail: seq<byte>) {
    exists ps :: AllSupported(ps) && frames == FramesOf(ps) && fed == EncodeAll(ps) + tail
  }

  lemma {:induction false} PrependPacket(p: Packet, rest: seq<Packet>)
    ensures FramesOf([p] + rest) == [Encode(p)] + FramesOf(rest)
    ensures EncodeAll([p] + rest) == Encode(p) + EncodeAll(rest)
  {
  }

  lemma Rejoin(s: seq<byte>, first: seq<byte>, mid: seq<byte>, last: seq<byte>)
    requires first <= s
    ensures s[|first|..] == mid + last <==> s == (first + mid) + last
  {
    if s[|first|..] == mid + last {
      assert s == first + s[|first|..];
    }
  }

  lemma {:induction false} FirstIsPacket(fed: seq<byte>, frame: seq<byte>)
    requires TAG_SIZE <= |frame| && Next(fed) == Taken(|frame| - TAG_SIZE) && frame <= fed
    ensures if LengthFits(fed) then SupportedVersion(Read(fed).version) && frame == Encode(Read(fed))
            else |frame| < HEADER_SIZE + TAG_SIZE
  {
    PopIsSound(fed);
    assert fed[..|frame|] == frame;
  }

  /** What it takes for ps to be the packets of fed, in terms of the first one and the others. */
  lemma {:induction false} PeelPacket(p: Packet, rest: seq<Packet>, fed: seq<byte>, frames: seq<seq<byte>>,
                                      tail: seq<byte>)
    requires frames != [] && frames[0] <= fed
    ensures frames == FramesOf([p] + rest) && fed == EncodeAll([p] + rest) + tail <==>
            frames[0] == Encode(p) && frames[1..] == FramesOf(rest) && fed[|frames[0]|..] == EncodeAll(rest) + tail
  {
    PrependPacket(p, rest);
    assert frames == [frames[0]] + frames[1..];
    assert ([Encode(p)] + FramesOf(rest))[1..] == FramesOf(rest);
    Rejoin(fed, frames[0], EncodeAll(rest), tail);
  }

  lemma {:induction false} SupportedParts(p: Packet, rest: seq<Packet>)
    ensures AllSupported([p] + rest) <==> SupportedVersion(p.version) && AllSupported(rest)
  {
    var ps := [p] + rest;
    if AllSupported(ps) {
      assert ps[0] == p && forall i :: 0 <= i < |rest| ==> ps[i + 1] == rest[i];
    }
  }

  lemma {:induction false} FewerPackets(fed: seq<byte>, frames: seq<seq<byte>>, tail: seq<byte>)
    requires frames != [] && frames[0] <= fed && ArePackets(fed, frames, tail)
    ensures |frames[0]| >= HEADER_SIZE + TAG_SIZE && ArePackets(fed[|frames[0]|..], frames[1..], tail)
  {
    var ps :| AllSupported(ps) && frames == FramesOf(ps) && fed == EncodeAll(ps) + tail;
    assert ps == [ps[0]] + ps[1..];
    PeelPacket(ps[0], ps[1..], fed, frames, tail);
    SupportedParts(ps[0], ps[1..]);
  }

  lemma {:induction false} MorePackets(p: Packet, fed: seq<byte>, frames: seq<seq<byte>>, tail: seq<byte>)
    requires frames != [] && frames[0] <= fed && SupportedVersion(p.version) && frames[0] == Encode(p)
    requires ArePackets(fed[|frames[0]|..], frames[1..], tail)
    ensures ArePackets(fed, frames, tail)
  {
    var ps :| AllSupported(ps) && frames[1..] == FramesOf(ps) && fed[|frames[0]|..] == EncodeAll(ps) + tail;
    PeelPacket(p, ps, fed, frames, tail);
    SupportedParts(p, ps);
  }

  lemma {:induction false} FirstDoesNotWrap(fed: seq<byte>, frame: seq<byte>)
    requires TAG_SIZE <= |frame| <= |fed| && Next(fed) == Taken(|frame| - TAG_SIZE)
    ensures NoWrap(fed) <==> LengthFits(fed) && NoWrap(fed[|frame|..])
  {
  }

  /** One frame: what follows it, and whether its length field wraps, decide. */
  lemma {:induction false} FrameDecides(fed: seq<byte>, frames: seq<seq<byte>>, tail: seq<byte>)
    requires frames != [] && TAG_SIZE <= |frames[0]| && Next(fed) == Taken(|frames[0]| - TAG_SIZE) && frames[0] <= fed
    ensures ArePackets(fed, frames, tail) <==> LengthFits(fed) && ArePackets(fed[|frames[0]|..], frames[1..], tail)
  {
    FirstIsPacket(fed, frames[0]);
    if ArePackets(fed, frames, tail) {
      FewerPackets(fed, frames, tail);
    } else if LengthFits(fed) && ArePackets(fed[|frames[0]|..], frames[1..], tail) {
      MorePackets(Read(fed), fed, frames, tail);
    }
  }

  /** Bytes cut into frames and a tail are the encodings of packets, and then the tail, exactly if no length field
      wraps. */
  lemma {:induction false} CutFramesArePackets(fed: seq<byte>, frames: seq<seq<byte>>, tail: seq<byte>)
    requires Cuts(fed, frames, tail)
    ensures ArePackets(fed, frames, tail) && NoWrap(tail) <==> NoWrap(fed)
    decreases |frames|
  {
    if frames == [] {
      var none: seq<Packet> := [];
      assert AllSupported(none) && frames == FramesOf(none) && fed == EncodeAll(none) + tail;
    } else {
      FrameDecides(fed, frames, tail);
      FirstDoesNotWrap(fed, frames[0]);
      CutFramesArePackets(fed[|frames[0]|..], frames[1..], tail);
    }
  }

  /** Decoder soundness over whole runs, with its exact condition on the input. What a drained run returned and left
      over is the input, as encodings of packets of supported versions and a rest, if and only if no length field
      wraps; so it is at any moment before, as far as the input has been decoded. */
  lemma {:induction false} RunsReturnPackets(bufMax: nat, fs: seq<Feed>)
    ensures var d, fed := Run(bufMax, START, fs), Fed(fs);
            && (d.status == Running ==> (ArePackets(fed, d.frames, d.buf) && NoWrap(d.buf) <==> NoWrap(fed)))
            && (Drained(d) ==> (ArePackets(fed, d.frames, DecodeAll(fed).rest) <==> NoWrap(fed)))
  {
    RunsStayInStep(bufMax, fs);
    var d, fed := Run(bufMax, START, fs), Fed(fs);
    if d.status == Running {
      CutFramesArePackets(fed, d.frames, d.buf);
      CutsDecode(fed, d.frames, d.buf);
    } else if d.status.Failed? {
      var tail :| Cuts(fed, d.frames, tail) && Next(tail) == d.status.error;
      CutFramesArePackets(fed, d.frames, tail);
      CutsDecode(fed, d.frames, tail);
    }
  }
}
