/** The framer of one connection: input and output buffers, request ids and the protocol version. */
module Proto {
  import opened Bytes
  import opened Packets
  import opened Framing
  import opened Buffers

  datatype ResultCode = ResultTrue | ResultFalse | BufferOverflow | DataTooLarge | BadData | BadVersion

  /** The data argument of a call: a null pointer with a size, or a block of bytes. */
  datatype CallData = NullData(size: nat) | Data(bytes: seq<byte>) {
    function Size(): nat {
      if NullData? then size else |bytes|
    }
  }

  /** Room for one packet. */
  class Sdp {
    var mem: PacketMem

    constructor (mem: PacketMem)
      ensures this.mem == mem
    {
      this.mem := mem;
    }
  }

  /** The request id issued after id n: 32-bit increment, skipping 0. */
  function NextId(n: uint32): (r: uint32)
    ensures r != 0
  {
    var next := Add32(n, 1);
    if next == 0 then 1 else next
  }

  /** The image of a packet in zeroed memory. */
  function Image(p: Packet): (m: PacketMem)
    ensures m[..HEADER_SIZE + |p.data|] == Encode(p)[..HEADER_SIZE + |p.data|]
  {
    TAG + [p.version] + Le32(p.rrId) + Le32(p.callId) + Le32(|p.data|) + p.data + Zeros(MAX_DATA_SIZE - |p.data|)
  }

  lemma ReadImage(p: Packet)
    ensures HoldsPacket(Image(p)) && Read(Image(p)) == p
  {
  }

  lemma {:induction false} ImageIsZeroBehind(p: Packet)
    ensures forall i :: HEADER_SIZE + |p.data| <= i < PACKET_SIZE ==> Image(p)[i] == 0
  {
    ZerosAreZero(MAX_DATA_SIZE - |p.data|);
  }

  class ProtoData {
    var nextRrId: uint32
    var version: byte
    var beginTag: bool
    const input: ByteBuffer
    const output: ByteBuffer

    ghost var Repr: set<object>

    ghost predicate Valid()
      reads this, Repr
      ensures Valid() ==> this in Repr
    {
      && this in Repr && input in Repr && output in Repr
      && Repr == {this, input, output, input.block, output.block}
      && input.Valid() && output.Valid()
      && input != output && input.block != output.block
      && SupportedVersion(version)
      && (beginTag ==> TAG <= input.Contents())
    }

    constructor (minSize: nat, maxSize: nat)
      requires minSize < maxSize <= TWO_TO_32
      ensures Valid() && fresh(Repr)
      ensures input.maxSize == output.maxSize == maxSize
      ensures input.Contents() == output.Contents() == [] && nextRrId == 0 && version == VERSION_MAX
    {
      input := new ByteBuffer(minSize, maxSize);
      output := new ByteBuffer(minSize, maxSize);
      nextRrId, version, beginTag := 0, VERSION_MAX, false;
      new;
      Repr := {this, input, output, input.block, output.block};
    }

    /** Appends the frame of sdp to the output: its image, then the closing tag. */
    method OutAppend(sdp: Sdp) returns (r: ResultCode)
      requires Valid() && |output.Contents()| + PACKET_SIZE < TWO_TO_32 && output.maxSize + TAG_SIZE <= TWO_TO_32
      modifies this`Repr, output, output.block
      ensures Valid() && fresh(Repr - old(Repr))
      ensures var (r', out') := Appended(output.maxSize, old(output.Contents()), sdp.mem);
              r == r' && output.Contents() == out'
    {
      var imageSize := Add32(HEADER_SIZE, DataSizeOf(sdp.mem));
      if imageSize > PACKET_SIZE {
        return DataTooLarge;
      }
      var ok := output.Append(sdp.mem[..imageSize]);
      Repr := {this, input, output, input.block, output.block};
      if ok {
        ok := output.Append(TAG);
        Repr := {this, input, output, input.block, output.block};
        return if ok then ResultTrue else BufferOverflow;
      }
      return ResultFalse;
    }

    /** Takes up to n bytes from the front of the output. */
    method PopOut(n: nat) returns (bytes: seq<byte>)
      requires Valid()
      modifies this`Repr, output, output.block
      ensures Valid() && fresh(Repr - old(Repr))
      ensures |bytes| == Min(n, |old(output.Contents())|)
      ensures old(output.Contents()) == bytes + output.Contents()
    {
      if output.dataSize <= 0 || n == 0 {
        return [];
      }
      var count := n;
      if output.dataSize < count {
        count := output.dataSize;
      }
      bytes := output.block[..count];
      output.DropFront(count);
      Repr := {this, input, output, input.block, output.block};
    }

    method InAppend(chunk: seq<byte>) returns (ok: bool)
      requires Valid() && |input.Contents()| + |chunk| < TWO_TO_32
      modifies this`Repr, input, input.block
      ensures Valid() && fresh(Repr - old(Repr))
      ensures ok <==> |old(input.Contents())| + |chunk| < input.maxSize
      ensures input.Contents() == old(input.Contents()) + (if ok then chunk else [])
    {
      ok := input.Append(chunk);
      Repr := {this, input, output, input.block, output.block};
    }

    method ShrinkIn(size: nat)
      requires Valid()
      modifies this`beginTag, this`Repr, input, input.block
      ensures Valid() && fresh(Repr - old(Repr))
      ensures !beginTag
      ensures input.Contents() == old(input.Contents())[Min(size, |old(input.Contents())|)..]
    {
      beginTag := false;
      var n := size;
      if n > input.dataSize {
        n := input.dataSize;
      }
      input.DropFront(n);
      Repr := {this, input, output, input.block, output.block};
    }

    /** Cuts the next packet out of the input, in place. */
    method PopInSdp(sdp: Sdp) returns (r: ResultCode)
      requires Valid()
      modifies this`beginTag, this`Repr, input, input.block, sdp
      ensures Valid() && fresh(Repr - old(Repr))
      ensures r != ResultTrue && r != ResultFalse ==> input.Contents() == [] && !beginTag
      ensures var buf := old(input.Contents());
              match Next(buf)
              case NeedMore => r == ResultFalse && input.Contents() == buf && sdp.mem == old(sdp.mem)
              case Taken(n) =>
                && n + TAG_SIZE <= |buf| && n <= PACKET_SIZE
                && r == ResultTrue && input.Contents() == buf[n + TAG_SIZE..] && sdp.mem == buf[..n] + old(sdp.mem)[n..]
              case DataError => r == BadData && input.Contents() == [] && sdp.mem == old(sdp.mem)
              case VersionError(v) =>
                r == BadVersion && input.Contents() == [] && sdp.mem == old(sdp.mem)[TAG_SIZE := v]
    {
      var buf := input.Contents();
      if !beginTag && input.dataSize >= TAG_SIZE {
        if buf[..TAG_SIZE] == TAG {
          beginTag := true;
        } else {
          ShrinkIn(input.dataSize);
          return BadData;
        }
      }
      if beginTag {
        // beginTag promises five bytes, so this subtraction cannot go below zero
        assert input.dataSize - TAG_SIZE >= 0;
        if input.dataSize - TAG_SIZE >= HEADER_SIZE {
          if VersionOf(buf) > VERSION_MAX || VersionOf(buf) < VERSION_MIN {
            sdp.mem := sdp.mem[TAG_SIZE := VersionOf(buf)];
            ShrinkIn(input.dataSize);
            return BadVersion;
          }
          var n := ImageSize(buf);
          if n > PACKET_SIZE {
            ShrinkIn(input.dataSize);
            return BadData;
          }
          if n + TAG_SIZE > input.dataSize {
            return ResultFalse;
          }
          // the guard on the block size never decides: the tag lies within the bytes in use
          assert n < input.size;
          if n >= input.size || buf[n..n + TAG_SIZE] != TAG {
            ShrinkIn(input.dataSize);
            return BadData;
          }
          sdp.mem := buf[..n] + sdp.mem[n..];
          ShrinkIn(n + TAG_SIZE);
          return ResultTrue;
        }
      }
      return ResultFalse;
    }

    method SetVersion(v: byte)
      requires Valid()
      modifies this`version
      ensures Valid() && version == if SupportedVersion(v) then v else VERSION_MAX
    {
      if v >= VERSION_MIN && v <= VERSION_MAX {
        version := v;
      } else {
        version := VERSION_MAX;
      }
    }

    /** Clears sdp and stamps it with the tag, a new request id and the protocol version. */
    method SdpInit(sdp: Sdp)
      requires Valid()
      modifies this`nextRrId, sdp
      ensures Valid() && nextRrId == NextId(old(nextRrId))
      ensures sdp.mem == Image(RawPacket.Packet(version, nextRrId, 0, []))
    {
      nextRrId := Add32(nextRrId, 1);
      if nextRrId == 0 {
        nextRrId := Add32(nextRrId, 1);
      }
      var m := Zeros(PACKET_SIZE);
      m := TAG + m[TAG_SIZE..];
      m := m[..6] + Le32(nextRrId) + m[10..];
      sdp.mem := m[TAG_SIZE := version];
      StampedImage(version, nextRrId);
    }
  }

  /** The output after appending the frame of mem, and the result code. */
  function Appended(maxSize: nat, out: seq<byte>, mem: PacketMem): (ResultCode, seq<byte>) {
    var n := Add32(HEADER_SIZE, DataSizeOf(mem));
    if n > PACKET_SIZE then (DataTooLarge, out)
    else if |out| + n >= maxSize then (ResultFalse, out)
    else if |out| + n + TAG_SIZE >= maxSize then (BufferOverflow, out + mem[..n])
    else (ResultTrue, out + mem[..n] + TAG)
  }

  /** Writing tag, id and version into zeroed memory gives the image of an empty packet. */
  lemma StampedImage(version: byte, rrId: uint32)
    ensures var m := TAG + Zeros(PACKET_SIZE)[TAG_SIZE..];
            (m[..6] + Le32(rrId) + m[10..])[TAG_SIZE := version] == Image(RawPacket.Packet(version, rrId, 0, []))
  {
    assert Le32(0) == [0, 0, 0, 0];
  }

  lemma StampVersion(p: Packet, version: byte)
    ensures Image(p)[TAG_SIZE := version] == Image(p.(version := version))
  {
  }

  /** The packet in mem with another payload and call id; tag, version and request id stay, and so do the bytes behind
      the payload. */
  function WithData(mem: PacketMem, callId: uint32, data: seq<byte>): (m: PacketMem)
    requires |data| <= MAX_DATA_SIZE
    ensures m[..10] == mem[..10] && m[HEADER_SIZE + |data|..] == mem[HEADER_SIZE + |data|..]
    ensures CallIdOf(m) == callId && DataSizeOf(m) == |data| && m[HEADER_SIZE..HEADER_SIZE + |data|] == data
  {
    var m := mem[..10] + Le32(callId) + Le32(|data|) + data + mem[HEADER_SIZE + |data|..];
    assert m[10..14] == Le32(callId) && m[14..18] == Le32(|data|);
    U32AtOfLe32(m, 10, callId);
    U32AtOfLe32(m, 14, |data|);
    m
  }

  /** Overwriting payload, data_size and call_id of a packet, in that order. */
  lemma FieldWrites(mem: PacketMem, callId: uint32, data: seq<byte>)
    requires |data| <= MAX_DATA_SIZE
    ensures var n, m0: seq<byte> := |data|, mem;
            var m1 := m0[..HEADER_SIZE] + data + m0[HEADER_SIZE + n..];
            var m2 := m1[..14] + Le32(n) + m1[18..];
            && (n == 0 ==> m1 == m0)
            && m2[..10] + Le32(callId) + m2[14..] == WithData(mem, callId, data)
  {
    var n, m0: seq<byte> := |data|, mem;
    var m1 := m0[..HEADER_SIZE] + data + m0[HEADER_SIZE + n..];
    var m2 := m1[..14] + Le32(n) + m1[18..];
    assert m2[14..] == Le32(n) + data + m0[HEADER_SIZE + n..];
  }

  /** On a freshly stamped packet the fields written give the image of a packet with that payload. */
  lemma WithDataOfImage(version: byte, rrId: uint32, callId: uint32, data: seq<byte>)
    requires |data| <= MAX_DATA_SIZE
    ensures WithData(Image(RawPacket.Packet(version, rrId, 0, [])), callId, data) ==
            Image(RawPacket.Packet(version, rrId, callId, data))
  {
    var m0: seq<byte> := Image(RawPacket.Packet(version, rrId, 0, []));
    assert m0[..10] == TAG + [version] + Le32(rrId);
    assert m0[HEADER_SIZE + |data|..] == Zeros(MAX_DATA_SIZE - |data|);
  }

  /** Stores the payload and the call id, unless the payload is too large or missing. */
  method SetData(sdp: Sdp, data: CallData, callId: uint32) returns (ok: bool)
    modifies sdp
    ensures ok <==> data.Size() <= MAX_DATA_SIZE && (data.NullData? ==> data.size == 0)
    ensures sdp.mem == if ok then WithData(old(sdp.mem), callId, if data.Data? then data.bytes else [])
                       else old(sdp.mem)
  {
    if data.Size() > MAX_DATA_SIZE || (data.Size() > 0 && data.NullData?) {
      return false;
    }
    var n := data.Size();
    FieldWrites(sdp.mem, callId, if data.Data? then data.bytes else []);
    if n > 0 {
      sdp.mem := sdp.mem[..HEADER_SIZE] + data.bytes + sdp.mem[HEADER_SIZE + n..];
    }
    sdp.mem := sdp.mem[..14] + Le32(n) + sdp.mem[18..];
    sdp.mem := sdp.mem[..10] + Le32(callId) + sdp.mem[14..];
    return true;
  }

  // ----- the framer is the decoder -----

  /** The framer buffers what the decoder d does. */
  ghost predicate Agrees(proto: ProtoData, d: Decoder)
    requires proto.Valid()
    reads proto, proto.Repr
  {
    proto.input.Contents() == d.buf
  }

  /** One append or pop on the framer is one step of the decoder. */
  method Follow(proto: ProtoData, sdp: Sdp, f: Feed, ghost d: Decoder) returns (running: bool, ghost d': Decoder)
    requires proto.Valid() && sdp !in proto.Repr && d.status == Running && Agrees(proto, d)
    requires f.Append? ==> |f.chunk| + proto.input.maxSize <= TWO_TO_32
    modifies proto.Repr, sdp
    ensures proto.Valid() && fresh(proto.Repr - old(proto.Repr)) && sdp !in proto.Repr
    ensures d' == Step(proto.input.maxSize, d, f) && Agrees(proto, d') && (running <==> d'.status == Running)
  {
    d' := Step(proto.input.maxSize, d, f);
    match f
    case Append(chunk) =>
      running := proto.InAppend(chunk);
    case TryPop =>
      var r := proto.PopInSdp(sdp);
      running := r == ResultTrue || r == ResultFalse;
  }

  /** Any schedule of appends and pops on a new framer, until one of them fails, is a run of the decoder. */
  method FollowAll(proto: ProtoData, sdp: Sdp, fs: seq<Feed>) returns (running: bool, ghost d: Decoder)
    requires proto.Valid() && sdp !in proto.Repr && proto.input.Contents() == []
    requires forall i :: 0 <= i < |fs| && fs[i].Append? ==> |fs[i].chunk| + proto.input.maxSize <= TWO_TO_32
    modifies proto.Repr, sdp
    ensures proto.Valid() && fresh(proto.Repr - old(proto.Repr)) && sdp !in proto.Repr
    ensures d == Run(proto.input.maxSize, START, fs) && Agrees(proto, d) && (running <==> d.status == Running)
    decreases |fs|
  {
    running, d := true, START;
    if fs != [] {
      var k := |fs| - 1;
      running, d := FollowAll(proto, sdp, fs[..k]);
      if running {
        running, d := Follow(proto, sdp, fs[k], d);
      }
    }
  }
}
