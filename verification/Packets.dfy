/** The packet of the SUPLA protocol: its memory image, its fields and its wire frame. */
module Packets {
  import opened Bytes

  const TAG_SIZE := 5
  const HEADER_SIZE := 18
  const MAX_DATA_SIZE := 10240
  const PACKET_SIZE := HEADER_SIZE + MAX_DATA_SIZE
  const MAX_FRAME := PACKET_SIZE + TAG_SIZE
  const VERSION_MIN: byte := 1
  const VERSION_MAX: byte := 28

  /** The five letters "SUPLA" that open and close every frame. */
  const TAG: seq<byte> := [83, 85, 80, 76, 65]

  /** The memory of one TSuplaDataPacket: tag, version, rr_id, call_id, data_size, data. */
  type PacketMem = m: seq<byte> | |m| == PACKET_SIZE witness Zeros(PACKET_SIZE)

  // The header fields of a packed structure that starts at m[0].

  function VersionOf(m: seq<byte>): byte
    requires HEADER_SIZE <= |m|
  {
    m[TAG_SIZE]
  }

  function RrIdOf(m: seq<byte>): uint32
    requires HEADER_SIZE <= |m|
  {
    U32At(m, 6)
  }

  function CallIdOf(m: seq<byte>): uint32
    requires HEADER_SIZE <= |m|
  {
    U32At(m, 10)
  }

  function DataSizeOf(m: seq<byte>): uint32
    requires HEADER_SIZE <= |m|
  {
    U32At(m, 14)
  }

  predicate SupportedVersion(v: byte) {
    VERSION_MIN <= v <= VERSION_MAX
  }

  datatype RawPacket = Packet(version: byte, rrId: uint32, callId: uint32, data: seq<byte>)

  /** What a packet says, apart from how it lies in memory. */
  type Packet = p: RawPacket | |p.data| <= MAX_DATA_SIZE witness RawPacket.Packet(0, 0, 0, [])

  /** The wire frame of a packet: header, payload, closing tag. */
  function Encode(p: Packet): (f: seq<byte>)
    ensures |f| == HEADER_SIZE + |p.data| + TAG_SIZE
  {
    TAG + [p.version] + Le32(p.rrId) + Le32(p.callId) + Le32(|p.data|) + p.data + TAG
  }

  function EncodeAll(ps: seq<Packet>): seq<byte> {
    if ps == [] then [] else Encode(ps[0]) + EncodeAll(ps[1..])
  }

  /** The packet whose image starts at m[0]. */
  function Read(m: seq<byte>): Packet
    requires HEADER_SIZE <= |m| && DataSizeOf(m) <= MAX_DATA_SIZE
    requires HEADER_SIZE + DataSizeOf(m) <= |m|
  {
    RawPacket.Packet(VersionOf(m), RrIdOf(m), CallIdOf(m), m[HEADER_SIZE..HEADER_SIZE + DataSizeOf(m)])
  }

  /** m[0..] begins with the image of a packet that respects the size limit. */
  predicate HoldsPacket(m: seq<byte>) {
    && HEADER_SIZE <= |m|
    && m[..TAG_SIZE] == TAG
    && DataSizeOf(m) <= MAX_DATA_SIZE
    && HEADER_SIZE + DataSizeOf(m) <= |m|
  }

  /** The fields of an encoded packet, read in place in front of any other bytes. */
  lemma HeaderOfEncode(p: Packet, rest: seq<byte>)
    ensures var m := Encode(p) + rest;
            && m[..TAG_SIZE] == TAG
            && VersionOf(m) == p.version
            && RrIdOf(m) == p.rrId && CallIdOf(m) == p.callId && DataSizeOf(m) == |p.data|
            && m[HEADER_SIZE..HEADER_SIZE + |p.data|] == p.data
            && m[HEADER_SIZE + |p.data|..HEADER_SIZE + |p.data| + TAG_SIZE] == TAG
  {
  }

  /** A frame, byte by byte. */
  lemma FrameExample()
    ensures Encode(RawPacket.Packet(28, 0x04030201, 300, [7, 8])) ==
            [83, 85, 80, 76, 65, 28, 1, 2, 3, 4, 44, 1, 0, 0, 2, 0, 0, 0, 7, 8, 83, 85, 80, 76, 65]
    ensures TAG_SIZE == 5 && HEADER_SIZE == 18 && PACKET_SIZE == 10258 && MAX_FRAME == 10263
  {
  }

  /** Reading an encoded packet gives the packet back, whatever follows it. */
  lemma ReadEncode(p: Packet, rest: seq<byte>)
    ensures HoldsPacket(Encode(p) + rest) && Read(Encode(p) + rest) == p
  {
  }

  /** Encoding the packet read from memory gives that memory back, payload and no more. */
  lemma EncodeRead(m: seq<byte>)
    requires HoldsPacket(m)
    ensures Encode(Read(m)) == m[..HEADER_SIZE + DataSizeOf(m)] + TAG
  {
    var n := HEADER_SIZE + DataSizeOf(m);
    Le32OfU32At(m, 6);
    Le32OfU32At(m, 10);
    Le32OfU32At(m, 14);
    assert m[..n] == m[..5] + [m[5]] + m[6..10] + m[10..14] + m[14..18] + m[18..n];
  }

  /** Encoding determines the packet. */
  lemma EncodeInjective(p: Packet, q: Packet)
    requires Encode(p) == Encode(q)
    ensures p == q
  {
    ReadEncode(p, []);
    ReadEncode(q, []);
    assert Encode(p) + [] == Encode(q) + [];
  }

  lemma {:induction false} EncodeAllAppend(ps: seq<Packet>, qs: seq<Packet>)
    ensures EncodeAll(ps + qs) == EncodeAll(ps) + EncodeAll(qs)
  {
    if ps == [] {
      assert ps + qs == qs;
    } else {
      assert (ps + qs)[0] == ps[0] && (ps + qs)[1..] == ps[1..] + qs;
      EncodeAllAppend(ps[1..], qs);
    }
  }
}
