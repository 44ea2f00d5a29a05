/** Packs: a header with a count, followed by items whose caption is cut to its real size on the wire. */
module Packs {
  import opened Bytes
  import opened Packets
  import opened Proto

  /** The layout of a pack structure of packSize bytes: a header with the item count at countAt, then maxCount items
      of itemSize bytes, each ending in a caption of captionMax bytes with the caption's size, captionWidth bytes
      wide, right before it. */
  datatype Layout = Layout(packSize: nat, headerSize: nat, countAt: nat,
                           itemSize: nat, captionMax: nat, captionWidth: nat, maxCount: nat) {
    predicate Valid() {
      && countAt + 4 <= headerSize <= packSize < 0x8000_0000
      && captionWidth in {2, 4} && captionWidth + captionMax <= itemSize < 0x8000_0000
      && maxCount < 0x8000_0000
    }

    /** The parts make up the structure. */
    predicate Consistent() {
      Valid() && packSize == headerSize + itemSize * maxCount
    }

    function ItemHeader(): int {
      itemSize - captionMax
    }
  }

  /** A pack in memory: its header, and its item structures. */
  datatype Pack = Pack(header: seq<byte>, items: seq<seq<byte>>)

  predicate ValidPack(l: Layout, pack: Pack) {
    |pack.header| == l.headerSize && forall i :: 0 <= i < |pack.items| ==> |pack.items[i]| == l.itemSize
  }

  function U16At(m: seq<byte>, at: nat): nat
    requires at + 2 <= |m|
  {
    m[at] as int + 256 * m[at + 1] as int
  }

  /** The caption size stored in an item that starts at m[at]. */
  function CaptionSize(l: Layout, m: seq<byte>, at: nat): uint32
    requires l.Valid() && at + l.ItemHeader() <= |m|
  {
    var field := at + l.ItemHeader() - l.captionWidth;
    if l.captionWidth == 2 then U16At(m, field) else U32At(m, field)
  }

  function CountOf(l: Layout, m: seq<byte>): uint32
    requires l.Valid() && l.headerSize <= |m|
  {
    U32At(m, l.countAt)
  }

  function WithCount(l: Layout, header: seq<byte>, n: uint32): seq<byte>
    requires l.Valid() && |header| == l.headerSize
  {
    header[..l.countAt] + Le32(n) + header[l.countAt + 4..]
  }

  // ----- the wire form -----

  /** The bytes of one item on the wire: its header and as much caption as its size says, at most captionMax. */
  predicate WireItem(l: Layout, w: seq<byte>)
    requires l.Valid()
  {
    l.ItemHeader() <= |w| && CaptionSize(l, w, 0) <= l.captionMax && |w| == l.ItemHeader() + CaptionSize(l, w, 0)
  }

  predicate WireItems(l: Layout, ws: seq<seq<byte>>)
    requires l.Valid()
  {
    forall i :: 0 <= i < |ws| ==> WireItem(l, ws[i])
  }

  /** The wire forms of those items whose caption size is in range, in order. */
  function Kept(l: Layout, items: seq<seq<byte>>): (ws: seq<seq<byte>>)
    requires l.Valid() && forall i :: 0 <= i < |items| ==> |items[i]| == l.itemSize
    ensures |ws| <= |items| && WireItems(l, ws)
  {
    if items == [] then []
    else
      var front, item := Kept(l, items[..|items| - 1]), items[|items| - 1];
      var size := CaptionSize(l, item, 0);
      if size <= l.captionMax then front + [item[..l.ItemHeader() + size]] else front
  }

  function EncodePack(l: Layout, pack: Pack): seq<byte>
    requires l.Valid() && ValidPack(l, pack) && |pack.items| < TWO_TO_32
  {
    var ws := Kept(l, pack.items);
    WithCount(l, pack.header, |ws|) + Flatten(ws)
  }

  /** The item structure for a wire item: the rest of the caption is zero. */
  function Padded(l: Layout, w: seq<byte>): seq<byte> {
    w + Zeros(Max(0, l.itemSize - |w|))
  }

  function AllPadded(l: Layout, ws: seq<seq<byte>>): (items: seq<seq<byte>>)
    ensures |items| == |ws|
  {
    seq(|ws|, i requires 0 <= i < |ws| => Padded(l, ws[i]))
  }

  // ----- properties -----

  /** f stands in data at offset. */
  predicate LiesAt(data: seq<byte>, offset: nat, f: seq<byte>) {
    offset + |f| <= |data| && data[offset..offset + |f|] == f
  }

  lemma {:induction false} LieOneAfterTheOther(data: seq<byte>, offset: nat, f: seq<byte>, g: seq<byte>)
    ensures LiesAt(data, offset, f + g) <==> LiesAt(data, offset, f) && LiesAt(data, offset + |f|, g)
  {
    if offset + |f| + |g| <= |data| {
      var both := data[offset..offset + |f| + |g|];
      assert both == data[offset..offset + |f|] + data[offset + |f|..offset + |f| + |g|];
      assert LiesAt(data, offset, f + g) ==> both[..|f|] == f && both[|f|..] == g;
    }
  }

  lemma {:induction false} CaptionSizeInPlace(l: Layout, data: seq<byte>, offset: nat, w: seq<byte>)
    requires l.Valid() && LiesAt(data, offset, w) && l.ItemHeader() <= |w|
    ensures CaptionSize(l, data, offset) == CaptionSize(l, w, 0)
  {
  }

  /** The item at offset is complete and its caption size is in range. */
  predicate ItemAt(l: Layout, data: seq<byte>, offset: nat)
    requires l.Valid()
  {
    && offset + l.ItemHeader() <= |data|
    && CaptionSize(l, data, offset) <= l.captionMax
    && offset + l.ItemHeader() + CaptionSize(l, data, offset) <= |data|
  }

  /** The bytes of the item at offset. */
  function Item(l: Layout, data: seq<byte>, offset: nat): (w: seq<byte>)
    requires l.Valid() && ItemAt(l, data, offset)
    ensures WireItem(l, w) && LiesAt(data, offset, w)
  {
    var w := data[offset..offset + l.ItemHeader() + CaptionSize(l, data, offset)];
    CaptionSizeInPlace(l, data, offset, w);
    w
  }

  lemma {:induction false} FlattenOne(ws: seq<seq<byte>>, w: seq<byte>)
    ensures Flatten(ws + [w]) == Flatten(ws) + w
  {
    FlattenAppend(ws, [w]);
    assert Flatten([w]) == w + Flatten([]);
  }

  /** Cuts k wire items off the data behind the header. */
  function Parse(l: Layout, data: seq<byte>, k: nat): (r: Option<seq<seq<byte>>>)
    requires l.Valid()
    ensures r.Some? ==> |r.value| == k && WireItems(l, r.value)
  {
    if k == 0 then Some([]) else ParseNext(l, data, Parse(l, data, k - 1))
  }

  /** Cuts off one more item behind those cut off so far. */
  function ParseNext(l: Layout, data: seq<byte>, front: Option<seq<seq<byte>>>): Option<seq<seq<byte>>>
    requires l.Valid()
  {
    if front.None? || !ItemAt(l, data, l.headerSize + |Flatten(front.value)|) then None
    else Some(front.value + [Item(l, data, l.headerSize + |Flatten(front.value)|)])
  }

  lemma {:induction false} LastItem(l: Layout, data: seq<byte>, k: nat) returns (front: seq<seq<byte>>, w: seq<byte>)
    requires l.Valid() && k > 0 && Parse(l, data, k).Some?
    ensures Parse(l, data, k - 1) == Some(front) && Parse(l, data, k) == Some(front + [w])
    ensures LiesAt(data, l.headerSize + |Flatten(front)|, w)
  {
    front := Parse(l, data, k - 1).value;
    w := Item(l, data, l.headerSize + |Flatten(front)|);
  }

  /** Parsing yields well-formed items that lie one after the other behind the header. */
  lemma {:induction false} ParseIsSound(l: Layout, data: seq<byte>, k: nat)
    requires l.Valid() && l.headerSize <= |data| && Parse(l, data, k).Some?
    ensures LiesAt(data, l.headerSize, Flatten(Parse(l, data, k).value))
  {
    if k > 0 {
      var front, w := LastItem(l, data, k);
      ParseIsSound(l, data, k - 1);
      FlattenOne(front, w);
      LieOneAfterTheOther(data, l.headerSize, Flatten(front), w);
    }
  }

  lemma {:induction false} NextItem(l: Layout, data: seq<byte>, front: seq<seq<byte>>, w: seq<byte>)
    requires l.Valid() && WireItem(l, w) && LiesAt(data, l.headerSize + |Flatten(front)|, w)
    ensures ParseNext(l, data, Some(front)) == Some(front + [w])
  {
  }

  lemma {:induction false} ParseUnfolds(l: Layout, data: seq<byte>, k: nat)
    requires l.Valid()
    ensures Parse(l, data, k + 1) == ParseNext(l, data, Parse(l, data, k))
  {
  }

  /** One more item: where it lies, parsing finds it. */
  lemma {:induction false} ParseOneMore(l: Layout, data: seq<byte>, front: seq<seq<byte>>, w: seq<byte>)
    requires l.Valid() && Parse(l, data, |front|) == Some(front)
    requires WireItem(l, w) && LiesAt(data, l.headerSize + |Flatten(front)|, w)
    ensures Parse(l, data, |front| + 1) == Some(front + [w])
    ensures |Flatten(front + [w])| == |Flatten(front)| + |w|
  {
    FlattenOne(front, w);
    NextItem(l, data, front, w);
    ParseUnfolds(l, data, |front|);
  }

  /** Parsing has cut off the items ws, up to offset. */
  predicate ParsedTo(l: Layout, data: seq<byte>, ws: seq<seq<byte>>, offset: nat)
    requires l.Valid()
  {
    offset == l.headerSize + |Flatten(ws)| <= |data| && Parse(l, data, |ws|) == Some(ws)
  }

  lemma {:induction false} ParseItem(l: Layout, data: seq<byte>, ws: seq<seq<byte>>, offset: nat)
    requires l.Valid() && ParsedTo(l, data, ws, offset) && ItemAt(l, data, offset)
    ensures var next := offset + l.ItemHeader() + CaptionSize(l, data, offset);
            ParsedTo(l, data, ws + [data[offset..next]], next) && next - offset <= l.itemSize
  {
    ParseOneMore(l, data, ws, Item(l, data, offset));
  }

  /** Well-formed items that lie one after the other behind the header are found, whatever follows them. */
  lemma {:induction false} ParseFinds(l: Layout, data: seq<byte>, ws: seq<seq<byte>>)
    requires l.Valid() && l.headerSize <= |data| && WireItems(l, ws) && LiesAt(data, l.headerSize, Flatten(ws))
    ensures Parse(l, data, |ws|) == Some(ws)
  {
    if ws != [] {
      var front, w := ws[..|ws| - 1], ws[|ws| - 1];
      assert ws == front + [w];
      FlattenOne(front, w);
      LieOneAfterTheOther(data, l.headerSize, Flatten(front), w);
      ParseFinds(l, data, front);
      ParseOneMore(l, data, front, w);
    }
  }

  lemma {:induction false} NoneStays(l: Layout, data: seq<byte>, j: nat, k: nat)
    requires l.Valid() && j <= k && Parse(l, data, j) == None
    ensures Parse(l, data, k) == None
  {
    if j < k {
      NoneStays(l, data, j, k - 1);
    }
  }

  /** Where an item is malformed, no longer list of items is found. */
  lemma {:induction false} ParseStops(l: Layout, data: seq<byte>, ws: seq<seq<byte>>, k: nat)
    requires l.Valid() && |ws| < k
    requires Parse(l, data, |ws|) == Some(ws) && !ItemAt(l, data, l.headerSize + |Flatten(ws)|)
    ensures Parse(l, data, k) == None
  {
    var next := |ws| + 1;
    assert Parse(l, data, next) == ParseNext(l, data, Parse(l, data, next - 1));
    NoneStays(l, data, next, k);
  }

  /** What receiving a pack yields: nothing if it is malformed. */
  function DecodePack(l: Layout, data: seq<byte>): Option<Pack>
    requires l.Valid()
  {
    if !(l.headerSize <= |data| <= l.packSize && 0 <= Signed(CountOf(l, data)) <= l.maxCount) then None
    else
      match Parse(l, data, CountOf(l, data))
      case None => None
      case Some(ws) => Some(Pack(data[..l.headerSize], AllPadded(l, ws)))
  }

  /** The decoder is exact: it accepts data if and only if their size lies between the header's and the structure's,
      the declared count is between 0 and the maximum, and that many well-formed items follow the header. */
  lemma {:induction false} DecoderIsExact(l: Layout, data: seq<byte>)
    requires l.Valid()
    ensures DecodePack(l, data).Some? <==>
            && l.headerSize <= |data| <= l.packSize
            && 0 <= Signed(CountOf(l, data)) <= l.maxCount
            && exists ws :: |ws| == CountOf(l, data) && WireItems(l, ws) && LiesAt(data, l.headerSize, Flatten(ws))
  {
    if l.headerSize <= |data| <= l.packSize && 0 <= Signed(CountOf(l, data)) <= l.maxCount {
      if DecodePack(l, data).Some? {
        ParseIsSound(l, data, CountOf(l, data));
      }
      forall ws | |ws| == CountOf(l, data) && WireItems(l, ws) && LiesAt(data, l.headerSize, Flatten(ws))
        ensures DecodePack(l, data).Some?
      {
        ParseFinds(l, data, ws);
      }
    }
  }

  lemma {:induction false} WireSize(l: Layout, ws: seq<seq<byte>>)
    requires l.Valid() && WireItems(l, ws)
    ensures |Flatten(ws)| <= l.itemSize * |ws|
  {
    if ws != [] {
      WireSize(l, ws[1..]);
      TimesNext(l.itemSize, |ws| - 1);
      assert |ws[1..]| == |ws| - 1 && |Flatten(ws)| == |ws[0]| + |Flatten(ws[1..])|;
    }
  }

  lemma {:induction false} TimesNext(a: nat, n: nat)
    ensures a * (n + 1) == a + a * n
  {
  }

  lemma {:induction false} CountInHeader(l: Layout, header: seq<byte>, n: uint32, rest: seq<byte>)
    requires l.Valid() && |header| == l.headerSize
    ensures CountOf(l, WithCount(l, header, n) + rest) == n
    ensures (WithCount(l, header, n) + rest)[..l.headerSize] == WithCount(l, header, n)
    ensures LiesAt(WithCount(l, header, n) + rest, l.headerSize, rest)
  {
  }

  lemma {:induction false} EncodedSize(l: Layout, pack: Pack)
    requires l.Consistent() && ValidPack(l, pack) && |pack.items| <= l.maxCount
    ensures l.headerSize <= |EncodePack(l, pack)| <= l.packSize
  {
    var ws := Kept(l, pack.items);
    WireSize(l, ws);
    Times(l.itemSize, |ws|, l.maxCount);
  }

  lemma {:induction false} Times(a: nat, b: nat, c: nat)
    requires b <= c
    ensures a * b <= a * c
  {
  }

  /** The round trip: the encoding never exceeds the structure's size, and decoding it gives back the header with the
      count adjusted, and in order exactly the items whose caption size is in range, zeroed behind their captions. */
  lemma {:induction false} PackRoundTrip(l: Layout, pack: Pack)
    requires l.Consistent() && ValidPack(l, pack) && |pack.items| <= l.maxCount
    ensures |EncodePack(l, pack)| <= l.packSize
    ensures var ws := Kept(l, pack.items);
            DecodePack(l, EncodePack(l, pack)) == Some(Pack(WithCount(l, pack.header, |ws|), AllPadded(l, ws)))
  {
    var ws, data := Kept(l, pack.items), EncodePack(l, pack);
    EncodedSize(l, pack);
    CountInHeader(l, pack.header, |ws|, Flatten(ws));
    ParseFinds(l, data, ws);
  }

  /** The pack structures the program sends. */
  const LOCATIONS := Layout(8208, 8, 0, 410, 401, 4, 20)
  const CHANNELS := Layout(8708, 8, 0, 435, 401, 4, 20)
  const CHANNELS_B := Layout(8888, 8, 0, 444, 401, 4, 20)
  const CHANNELS_C := Layout(9208, 8, 0, 460, 401, 4, 20)
  const CHANNELS_D := Layout(9228, 8, 0, 461, 401, 4, 20)
  const CHANNELS_E := Layout(9388, 8, 0, 469, 401, 4, 20)
  const CHANNEL_GROUPS := Layout(8528, 8, 0, 426, 401, 4, 20)
  const CHANNEL_GROUPS_B := Layout(8608, 8, 0, 430, 401, 4, 20)
  const SCENES := Layout(8408, 8, 0, 420, 401, 2, 20)
  const SCENE_STATES := Layout(4408, 8, 0, 220, 201, 2, 20)

  const LAYOUTS := {LOCATIONS, CHANNELS, CHANNELS_B, CHANNELS_C, CHANNELS_D, CHANNELS_E, CHANNEL_GROUPS,
                    CHANNEL_GROUPS_B, SCENES, SCENE_STATES}

  /** No pack of these types is ever too large for a packet. */
  lemma {:induction false} PacksAreNeverRefused(l: Layout, pack: Pack)
    requires l in LAYOUTS && ValidPack(l, pack) && |pack.items| <= l.maxCount
    ensures l.Consistent() && |EncodePack(l, pack)| <= MAX_DATA_SIZE
  {
    PackRoundTrip(l, pack);
  }

  // ----- the program's loops -----

  /** Copies the header and the kept items of a pack; n is the number of items kept. */
  method CopyKept(l: Layout, pack: Pack) returns (buffer: seq<byte>, n: nat)
    requires l.Valid() && ValidPack(l, pack)
    ensures n == |Kept(l, pack.items)|
    ensures buffer == pack.header + Flatten(Kept(l, pack.items))
  {
    buffer := pack.header;
    var offset, size, a := l.headerSize, l.headerSize, 0;
    n := 0;
    while a < |pack.items|
      invariant 0 <= a <= |pack.items|
      invariant n == |Kept(l, pack.items[..a])| && |buffer| == offset == size
      invariant buffer == pack.header + Flatten(Kept(l, pack.items[..a]))
    {
      KeptOneMore(l, pack.items, a, pack.header);
      var item := pack.items[a];
      if CaptionSize(l, item, 0) <= l.captionMax {
        size := size + l.ItemHeader() + CaptionSize(l, item, 0);
        buffer := buffer + item[..size - offset];
        offset := size;
        n := n + 1;
      }
      a := a + 1;
    }
    assert pack.items[..a] == pack.items;
  }

  /** Builds the wire form of the first `count` items; nothing if the count is out of range. */
  method SetPack(l: Layout, pack: Pack, count: int) returns (wire: Option<seq<byte>>)
    requires l.Valid() && ValidPack(l, pack) && count <= |pack.items|
    ensures wire == if 1 <= count <= l.maxCount then Some(EncodePack(l, Pack(pack.header, pack.items[..count])))
                    else None
  {
    if count < 1 || count > l.maxCount {
      return None;
    }
    var used := Pack(pack.header, pack.items[..count]);
    var buffer, n := CopyKept(l, used);
    CountWritten(l, pack.header, n, Flatten(Kept(l, used.items)));
    buffer := buffer[..l.countAt] + Le32(n) + buffer[l.countAt + 4..];
    return Some(buffer);
  }

  lemma {:induction false} CountWritten(l: Layout, header: seq<byte>, n: uint32, rest: seq<byte>)
    requires l.Valid() && |header| == l.headerSize
    ensures (header + rest)[..l.countAt] + Le32(n) + (header + rest)[l.countAt + 4..] == WithCount(l, header, n) + rest
  {
  }

  /** What one more item adds to the wire form. */
  lemma {:induction false} KeptOneMore(l: Layout, items: seq<seq<byte>>, a: nat, header: seq<byte>)
    requires l.Valid() && a < |items| && forall i :: 0 <= i < |items| ==> |items[i]| == l.itemSize
    ensures var ws, size := Kept(l, items[..a]), CaptionSize(l, items[a], 0);
            if size <= l.captionMax then
              && |Kept(l, items[..a + 1])| == |ws| + 1
              && header + Flatten(Kept(l, items[..a + 1])) == header + Flatten(ws) + items[a][..l.ItemHeader() + size]
            else Kept(l, items[..a + 1]) == ws
  {
    assert items[..a + 1][..a] == items[..a];
    FlattenOne(Kept(l, items[..a]), items[a][..Min(l.itemSize, l.ItemHeader() + CaptionSize(l, items[a], 0))]);
  }

  /** The first items hold what was read, the others are still zero. */
  predicate Stored(l: Layout, items: seq<seq<byte>>, ws: seq<seq<byte>>) {
    && |ws| <= |items|
    && (forall i :: 0 <= i < |ws| ==> items[i] == Padded(l, ws[i]))
    && (forall i :: |ws| <= i < |items| ==> items[i] == Zeros(l.itemSize))
  }

  lemma {:induction false} StoreOne(l: Layout, items: seq<seq<byte>>, ws: seq<seq<byte>>, w: seq<byte>)
    requires Stored(l, items, ws) && |ws| < |items| && |w| <= l.itemSize
    ensures |items[|ws|]| >= |w|
    ensures Stored(l, items[|ws| := w + items[|ws|][|w|..]], ws + [w])
  {
  }

  /** Copies the item w into slot a; the structure's bytes behind it stay. */
  method StoreItem(l: Layout, items: array<seq<byte>>, a: nat, w: seq<byte>, ghost ws: seq<seq<byte>>)
    requires Stored(l, items[..], ws) && a == |ws| < items.Length && |w| <= l.itemSize
    modifies items
    ensures Stored(l, items[..], ws + [w])
  {
    StoreOne(l, items[..], ws, w);
    ghost var before := items[..];
    items[a] := w + items[a][|w|..];
    assert items[..] == before[a := w + before[a][|w|..]];
  }

  /** The items ws have been read, up to offset. */
  predicate ReadSoFar(l: Layout, data: seq<byte>, items: seq<seq<byte>>, ws: seq<seq<byte>>, offset: nat)
    requires l.Valid()
  {
    ParsedTo(l, data, ws, offset) && Stored(l, items, ws)
  }

  /** The program's tests, the size read as a signed number, find out whether there is an item. */
  lemma {:induction false} GuardFindsItem(l: Layout, data: seq<byte>, offset: nat)
    requires l.Valid() && offset + l.ItemHeader() <= |data|
    ensures var size := CaptionSize(l, data, offset);
            ItemAt(l, data, offset) <==>
            0 <= Signed(size) <= l.captionMax && |data| - offset >= l.ItemHeader() + size
  {
  }

  /** Reads the item at offset into slot a, if it is well-formed. */
  method ReadItem(l: Layout, data: seq<byte>, items: array<seq<byte>>, a: nat, offset: nat, ghost ws: seq<seq<byte>>)
    returns (taken: bool, next: nat, ghost ws': seq<seq<byte>>)
    requires l.Valid() && ReadSoFar(l, data, items[..], ws, offset) && a == |ws| < items.Length
    requires |data| - offset >= l.ItemHeader()
    modifies items
    ensures ReadSoFar(l, data, items[..], ws', next)
    ensures taken <==> ItemAt(l, data, offset)
    ensures if taken then |ws'| == |ws| + 1 else ws' == ws && next == offset
  {
    var size := CaptionSize(l, data, offset);
    taken := Signed(size) >= 0 && Signed(size) <= l.captionMax && |data| - offset >= l.ItemHeader() + size;
    GuardFindsItem(l, data, offset);
    next, ws' := offset, ws;
    if taken {
      next := offset + l.ItemHeader() + size;
      ParseItem(l, data, ws, offset);
      StoreItem(l, items, a, data[offset..next], ws);
      ws' := ws + [data[offset..next]];
    }
  }

  /** Reads items into `items` until one is malformed; returns how many were read, and as a witness their wire form. */
  method ReadItems(l: Layout, data: seq<byte>, items: array<seq<byte>>) returns (got: nat, ghost ws: seq<seq<byte>>)
    requires l.Valid() && l.headerSize <= |data|
    requires Stored(l, items[..], [])
    modifies items
    ensures got == |ws| && Stored(l, items[..], ws)
    ensures Parse(l, data, items.Length) == if got == items.Length then Some(ws) else None
  {
    var offset, a := l.headerSize, 0;
    got, ws := 0, [];
    while a < items.Length
      invariant 0 <= got <= a <= items.Length && got == |ws|
      invariant ReadSoFar(l, data, items[..], ws, offset)
      invariant got < a ==> |data| - offset < l.ItemHeader()
    {
      if |data| - offset >= l.ItemHeader() {
        var taken;
        taken, offset, ws := ReadItem(l, data, items, a, offset, ws);
        if !taken {
          break;
        }
        got := got + 1;
      }
      a := a + 1;
    }
    if got < items.Length {
      ParseStops(l, data, ws, items.Length);
    }
  }

  /** Rebuilds a pack from received data, item by item; nothing if the data are malformed. */
  method GetPack(l: Layout, data: seq<byte>) returns (pack: Option<Pack>)
    requires l.Valid()
    ensures pack == DecodePack(l, data)
  {
    if |data| < l.headerSize || |data| > l.packSize {
      return None;
    }
    var count := Signed(CountOf(l, data));
    if count < 0 || count > l.maxCount {
      return None;
    }
    var items := new seq<byte>[count](_ => Zeros(l.itemSize));
    var got; ghost var ws;
    got, ws := ReadItems(l, data, items);
    if count == got {
      assert items[..] == AllPadded(l, ws);
      return Some(Pack(data[..l.headerSize], items[..]));
    }
    return None;
  }
}
