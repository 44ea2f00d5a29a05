/** What the parts of the pack codec mean: where a caption's size stands, which items are kept, how an item is
    filled up, and what a decoded pack has to do with the data it came from. */
module PackFacts {
  import opened Bytes
  import opened Packs

  /** The size of a caption stands right before it, least significant byte first, in two or four bytes. */
  lemma {:induction false} CaptionSizeStands(l: Layout, front: seq<byte>, n: nat, caption: seq<byte>)
    requires l.Valid() && |front| + l.captionWidth + l.captionMax == l.itemSize
    requires if l.captionWidth == 2 then n < 65536 else n < TWO_TO_32
    ensures var field: seq<byte> := if l.captionWidth == 2 then [n % 256, n / 256]
                                    else [n % 256, n / 256 % 256, n / 65536 % 256, n / 16777216];
            CaptionSize(l, front + field + caption, 0) == n
  {
    if l.captionWidth == 4 {
      var m := front + Le32(n) + caption;
      assert m[|front|..|front| + 4] == Le32(n);
      U32AtOfLe32(m, |front|, n);
      QuotientsOfBytes(n);
      assert front + [n % 256, n / 256 % 256, n / 65536 % 256, n / 16777216] + caption == m;
    }
  }

  lemma QuotientsOfBytes(n: uint32)
    ensures n / 65536 % 256 == n / 256 / 256 % 256 && n / 16777216 == n / 256 / 256 / 256 < 256
  {
  }

  /** Exactly the items whose caption size does not exceed the maximum are kept, in order, each cut behind its
      caption; `at` lists where they stood. */
  lemma {:induction false} KeptIsExact(l: Layout, items: seq<seq<byte>>) returns (at: seq<nat>)
    requires l.Valid() && forall i :: 0 <= i < |items| ==> |items[i]| == l.itemSize
    ensures |at| == |Kept(l, items)|
    ensures forall j :: 0 <= j < |at| ==>
              && at[j] < |items| && CaptionSize(l, items[at[j]], 0) <= l.captionMax
              && Kept(l, items)[j] == items[at[j]][..l.itemSize - l.captionMax + CaptionSize(l, items[at[j]], 0)]
    ensures forall j, k :: 0 <= j < k < |at| ==> at[j] < at[k]
    ensures forall i :: 0 <= i < |items| && CaptionSize(l, items[i], 0) <= l.captionMax ==> i in at
  {
    at := [];
    if items != [] {
      var k := |items| - 1;
      at := KeptIsExact(l, items[..k]);
      if CaptionSize(l, items[k], 0) <= l.captionMax {
        at := at + [k];
      }
    }
  }

  /** An item rebuilt is what was received, then zeros up to its full size. */
  lemma {:induction false} PaddedIsZeroBehind(l: Layout, w: seq<byte>)
    requires |w| <= l.itemSize
    ensures var item := Padded(l, w);
            |item| == l.itemSize && w <= item && forall i :: |w| <= i < |item| ==> item[i] == 0
  {
    ZerosAreZero(l.itemSize - |w|);
  }

  lemma {:induction false} CutBack(l: Layout, w: seq<byte>)
    requires l.Valid() && WireItem(l, w)
    ensures |Padded(l, w)| == l.itemSize && CaptionSize(l, Padded(l, w), 0) == CaptionSize(l, w, 0) <= l.captionMax
    ensures Padded(l, w)[..l.ItemHeader() + CaptionSize(l, w, 0)] == w
  {
    PaddedIsZeroBehind(l, w);
    assert Padded(l, w)[0..|w|] == w;
    CaptionSizeInPlace(l, Padded(l, w), 0, w);
  }

  lemma {:induction false} KeptOfPadded(l: Layout, ws: seq<seq<byte>>)
    requires l.Valid() && WireItems(l, ws)
    ensures forall i :: 0 <= i < |ws| ==> |AllPadded(l, ws)[i]| == l.itemSize
    ensures Kept(l, AllPadded(l, ws)) == ws
  {
    forall i | 0 <= i < |ws| ensures |AllPadded(l, ws)[i]| == l.itemSize {
      CutBack(l, ws[i]);
    }
    if ws != [] {
      var k := |ws| - 1;
      KeptOfPadded(l, ws[..k]);
      CutBack(l, ws[k]);
      assert AllPadded(l, ws)[..k] == AllPadded(l, ws[..k]);
      assert ws == ws[..k] + [ws[k]];
    }
  }

  lemma {:induction false} DecodedIs(l: Layout, data: seq<byte>) returns (ws: seq<seq<byte>>)
    requires l.Valid() && DecodePack(l, data).Some?
    ensures |data| >= l.headerSize && |ws| == U32At(data, l.countAt) <= l.maxCount && WireItems(l, ws)
    ensures DecodePack(l, data) == Some(Pack(data[..l.headerSize], AllPadded(l, ws)))
    ensures LiesAt(data, l.headerSize, Flatten(ws))
  {
    var count := CountOf(l, data);
    ws := Parse(l, data, count).value;
    ParseIsSound(l, data, count);
  }

  lemma {:induction false} FrontAndRest(data: seq<byte>, n: nat, f: seq<byte>)
    requires n <= |data| && LiesAt(data, n, f)
    ensures data[..n] + f <= data
  {
    assert data[..n + |f|] == data[..n] + data[n..n + |f|];
  }

  lemma {:induction false} EncodesBack(l: Layout, header: seq<byte>, ws: seq<seq<byte>>)
    requires l.Valid() && WireItems(l, ws) && |header| == l.headerSize && |ws| == CountOf(l, header)
    ensures ValidPack(l, Pack(header, AllPadded(l, ws)))
    ensures EncodePack(l, Pack(header, AllPadded(l, ws))) == header + Flatten(ws)
  {
    KeptOfPadded(l, ws);
    assert header[..l.headerSize] == header;
    HeaderKeepsCount(l, header);
  }

  /** The other round trip: on any data that decode, encoding the pack decoded gives back the data, up to the bytes
      behind the last item. */
  lemma {:induction false} PackReencodes(l: Layout, data: seq<byte>)
    requires l.Valid() && DecodePack(l, data).Some?
    ensures var pack := DecodePack(l, data).value;
            && ValidPack(l, pack) && |data| >= l.headerSize && |pack.items| == U32At(data, l.countAt) <= l.maxCount
            && pack.header == data[..l.headerSize] && EncodePack(l, pack) <= data
  {
    var ws := DecodedIs(l, data);
    EncodesBack(l, data[..l.headerSize], ws);
    FrontAndRest(data, l.headerSize, Flatten(ws));
  }

  lemma {:induction false} HeaderKeepsCount(l: Layout, data: seq<byte>)
    requires l.Valid() && l.headerSize <= |data|
    ensures WithCount(l, data[..l.headerSize], CountOf(l, data)) == data[..l.headerSize]
  {
    Le32OfU32At(data, l.countAt);
  }
}
