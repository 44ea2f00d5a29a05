/** Packs as calls: a pack is encoded into the payload of a call, and rebuilt from the packet that arrives. */
module PackCalls {
  import opened Bytes
  import opened Packets
  import opened Proto
  import opened Endpoints
  import opened Srpc
  import opened Packs
  import opened Delivery

  /** The call that carries the first `count` items of a pack. */
  function PackCall(l: Layout, pack: Pack, count: nat, callId: uint32, minVersion: byte): Api
    requires l.Valid() && ValidPack(l, pack) && count <= |pack.items| && count <= l.maxCount
  {
    Call(callId, Data(EncodePack(l, Pack(pack.header, pack.items[..count]))), None, minVersion)
  }

  /** Sends the first `count` items of a pack; nothing happens if the count is out of range. */
  method SendPack(endpoint: SrpcEndpoint, l: Layout, pack: Pack, count: int, callId: uint32, minVersion: byte)
    returns (rrId: uint32, ghost accepted: seq<Packet>)
    requires endpoint.Valid() && l.Valid() && ValidPack(l, pack) && count <= |pack.items|
    modifies endpoint.Repr
    ensures endpoint.Valid() && fresh(endpoint.Repr - old(endpoint.Repr))
    ensures if 1 <= count <= l.maxCount then
              var effect := Apply(endpoint.limits, old(endpoint.Model()), PackCall(l, pack, count, callId, minVersion));
              endpoint.Model() == effect.e && accepted == effect.accepted
            else endpoint.Model() == old(endpoint.Model()) && accepted == []
    ensures rrId == 0 <==> accepted == []
  {
    var wire := SetPack(l, pack, count);
    if wire.None? {
      return 0, [];
    }
    rrId, accepted := endpoint.AsyncCall(Call(callId, Data(wire.value), None, minVersion));
  }

  /** Rebuilds a pack from the payload of the packet in sdp, which counts as used up then. */
  method TakePack(sdp: Sdp, l: Layout) returns (pack: Option<Pack>)
    requires l.Valid() && l.packSize <= MAX_DATA_SIZE
    modifies sdp
    ensures pack == if DataSizeOf(old(sdp.mem)) > MAX_DATA_SIZE then None
                    else DecodePack(l, old(sdp.mem)[HEADER_SIZE..HEADER_SIZE + DataSizeOf(old(sdp.mem))])
    ensures sdp.mem == if pack.Some? then old(sdp.mem)[..14] + Le32(0) + old(sdp.mem)[HEADER_SIZE..] else old(sdp.mem)
  {
    var size := DataSizeOf(sdp.mem);
    if size > l.packSize {
      return None;
    }
    pack := GetPack(l, sdp.mem[HEADER_SIZE..HEADER_SIZE + size]);
    if pack.Some? {
      sdp.mem := sdp.mem[..14] + Le32(0) + sdp.mem[HEADER_SIZE..];
    }
  }

  /** For the pack types of the program, sending is refused only for the protocol version or a full out-queue, never
      for the size of the pack. */
  lemma {:induction false} PackCallIsAccepted(limits: Limits, e: Endpoint, l: Layout, pack: Pack, count: nat,
                                              callId: uint32, minVersion: byte)
    requires l in LAYOUTS && ValidPack(l, pack) && count <= |pack.items| && count <= l.maxCount
    ensures l.Valid()
    ensures Apply(limits, e, PackCall(l, pack, count, callId, minVersion)).accepted != [] <==>
            minVersion <= e.version && |e.outQueue| < limits.queueSize
  {
    PacksAreNeverRefused(l, Pack(pack.header, pack.items[..count]));
  }

  /** From end to end: wherever the packet of an accepted pack arrives, the pack rebuilt from it has the header with
      the count adjusted, and in order the items whose caption size is in range, zeroed behind their captions. */
  lemma {:induction false} PackArrives(limits: Limits, e: Endpoint, l: Layout, pack: Pack, callId: uint32,
                                       minVersion: byte, mem: PacketMem)
    requires l in LAYOUTS && ValidPack(l, pack) && |pack.items| <= l.maxCount
    requires var accepted := Apply(limits, e, PackCall(l, pack, |pack.items|, callId, minVersion)).accepted;
             accepted != [] && Holds(mem, accepted[0])
    ensures HoldsPacket(mem) && Read(mem).callId == callId && Read(mem).version == e.version
    ensures var ws := Kept(l, pack.items);
            DecodePack(l, Read(mem).data) == Some(Pack(WithCount(l, pack.header, |ws|), AllPadded(l, ws)))
  {
    assert pack.items[..|pack.items|] == pack.items;
    PackRoundTrip(l, pack);
  }
}
