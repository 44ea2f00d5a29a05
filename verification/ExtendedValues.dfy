/** Extended channel values, and several of them packed into one. */
module ExtendedValues {
  import opened Bytes

  const VALUE_SIZE := 1024
  const EV_HEADER := 5
  const EV_NONE: byte := 0
  const EV_MULTI_VALUE: byte := 100

  /** An extended value in memory: its type, the size of its value, and room for the value. */
  datatype RawEv = Ev(kind: byte, size: uint32, value: seq<byte>)

  type Ev = e: RawEv | |e.value| == VALUE_SIZE witness RawEv.Ev(0, 0, Zeros(VALUE_SIZE))

  /** The memory of an extended value. */
  function Memory(e: Ev): (m: seq<byte>)
    ensures |m| == EV_HEADER + VALUE_SIZE
  {
    [e.kind] + Le32(e.size) + e.value
  }

  /** The header of an extended value and as much of the value as its size says. */
  function Wire(e: Ev): (w: seq<byte>)
    requires e.size <= VALUE_SIZE
    ensures |w| == EV_HEADER + e.size && w == Memory(e)[..EV_HEADER + e.size]
  {
    [e.kind] + Le32(e.size) + e.value[..e.size]
  }

  /** What adding a value does: dest afterwards, and whether it was added; or, where 32-bit sums of sizes wrap around,
      copying beyond the structure. */
  datatype Addition = Done(ok: bool, dest: Ev) | OutOfBounds

  /** Adding src to dest. */
  function Add(dest: Ev, src: Ev): Addition {
    if src.kind == EV_NONE || src.size == 0 then Done(false, dest)
    else if dest.kind == EV_NONE then Done(true, src)
    else if dest.kind == EV_MULTI_VALUE then AddToMulti(dest, src)
    else
      var prev := Add32(EV_HEADER, dest.size);
      if Add32(prev, Add32(EV_HEADER, src.size)) > VALUE_SIZE then Done(false, dest)
      else if prev > VALUE_SIZE then OutOfBounds
      else AddToMulti(RawEv.Ev(EV_MULTI_VALUE, prev, Memory(dest)[..prev] + dest.value[prev..]), src)
  }

  function AddToMulti(dest: Ev, src: Ev): Addition {
    var n := Add32(EV_HEADER, src.size);
    if Add32(dest.size, n) > VALUE_SIZE then Done(false, dest)
    else if dest.size + n > VALUE_SIZE then OutOfBounds
    else
      var end := dest.size + n;
      Done(true, RawEv.Ev(EV_MULTI_VALUE, end, dest.value[..dest.size] + Memory(src)[..n] + dest.value[end..]))
  }

  /** How an extended value lies in memory: the type, the size, least significant byte first, and the value. */
  lemma {:induction false} MemorySays(e: Ev)
    ensures var m := Memory(e);
            && |m| == 1029 && m[0] == e.kind && m[5..] == e.value
            && m[1] as int + 256 * m[2] as int + 65536 * m[3] as int + 16777216 * m[4] as int == e.size
  {
    Le32IsLittleEndian(e.size);
  }

  /** A value without type or size is refused; a value added to one without type replaces it, whatever its size. */
  lemma {:induction false} AddToNothing(dest: Ev, src: Ev)
    ensures src.kind == 0 || src.size == 0 ==> Add(dest, src) == Done(false, dest)
    ensures src.kind != 0 && src.size != 0 && dest.kind == 0 ==> Add(dest, src) == Done(true, src)
  {
  }

  /** Sizes that fit the structures keep every addition within them. */
  lemma AddStaysInBounds(dest: Ev, src: Ev)
    requires dest.size <= VALUE_SIZE && src.size <= VALUE_SIZE
    ensures Add(dest, src).Done?
    ensures Add(dest, src).dest.size <= VALUE_SIZE
  {
  }

  lemma {:induction false} SmallSum(a: uint32, b: uint32)
    requires a + b < TWO_TO_32
    ensures Add32(a, b) == a + b
  {
  }

  /** Adding to a chain, and to a single value, with sizes that fit. */
  lemma {:induction false} AddToMultiFits(dest: Ev, src: Ev)
    requires dest.size <= VALUE_SIZE && src.size <= VALUE_SIZE
    ensures var end := dest.size + EV_HEADER + src.size;
            AddToMulti(dest, src) ==
            if end > VALUE_SIZE then Done(false, dest)
            else Done(true, RawEv.Ev(EV_MULTI_VALUE, end, dest.value[..dest.size] + Wire(src) + dest.value[end..]))
  {
    SmallSum(EV_HEADER, src.size);
    SmallSum(dest.size, EV_HEADER + src.size);
  }

  lemma {:induction false} AddToSingleFits(dest: Ev, src: Ev)
    requires dest.size <= VALUE_SIZE && src.size <= VALUE_SIZE && src.kind != EV_NONE && src.size != 0
    requires dest.kind != EV_NONE && dest.kind != EV_MULTI_VALUE
    ensures var prev := EV_HEADER + dest.size;
            Add(dest, src) ==
            if prev + EV_HEADER + src.size > VALUE_SIZE then Done(false, dest)
            else AddToMulti(RawEv.Ev(EV_MULTI_VALUE, prev, Wire(dest) + dest.value[prev..]), src)
  {
    SmallSum(EV_HEADER, dest.size);
    SmallSum(EV_HEADER, src.size);
    SmallSum(EV_HEADER + dest.size, EV_HEADER + src.size);
  }

  /** The object that callers pass to be filled. */
  class ExtendedValue {
    var kind: byte
    var size: uint32
    var value: seq<byte>

    ghost predicate Valid()
      reads this
    {
      |value| == VALUE_SIZE
    }

    function Image(): Ev
      requires Valid()
      reads this
    {
      RawEv.Ev(kind, size, value)
    }

    constructor (e: Ev)
      ensures Valid() && Image() == e
    {
      kind, size, value := e.kind, e.size, e.value;
    }

    /** Adds src: the first value is stored as it is; from the second on the values are chained. */
    method ValueAdd(src: ExtendedValue) returns (ok: bool)
      requires Valid() && src.Valid() && src != this && Add(Image(), src.Image()).Done?
      modifies this
      ensures Valid() && Done(ok, Image()) == Add(old(Image()), src.Image())
      decreases kind != EV_MULTI_VALUE
    {
      if src.kind == EV_NONE || src.size == 0 {
        return false;
      }
      if kind == EV_NONE {
        kind, size, value := src.kind, src.size, src.value;
        return true;
      }
      var srcSize := Add32(EV_HEADER, src.size);
      if kind == EV_MULTI_VALUE {
        if Add32(size, srcSize) > VALUE_SIZE {
          return false;
        }
        value := value[..size] + Memory(src.Image())[..srcSize] + value[size + srcSize..];
        size := size + srcSize;
        return true;
      }
      var prevSize := Add32(EV_HEADER, size);
      if Add32(prevSize, srcSize) > VALUE_SIZE {
        return false;
      }
      var prev := Image();
      kind, size := EV_MULTI_VALUE, prevSize;
      value := Memory(prev)[..prevSize] + value[prevSize..];
      ok := ValueAdd(src);
    }

    /** Copies the entry at offset of a chain here; what stands behind the copied bytes stays. */
    method CopyEntry(chain: seq<byte>, offset: nat)
      requires Valid() && |chain| == VALUE_SIZE && EntryAt(chain, offset).Entry?
      modifies this
      ensures Valid()
      ensures var entry := EntryAt(chain, offset);
              && |entry.bytes| <= VALUE_SIZE
              && Image() == RawEv.Ev(entry.kind, entry.size, entry.bytes + old(value)[|entry.bytes|..])
    {
      var n := EntrySize(chain, offset);
      kind, size := chain[offset], n;
      value := chain[offset + EV_HEADER..offset + EV_HEADER + n] + value[n..];
    }

    /** Copies value number `index` to dest; what dest holds behind the copied bytes stays. */
    method ValueGet(index: nat, dest: ExtendedValue) returns (ok: bool)
      requires Valid() && dest.Valid() && dest != this && Get(Image(), index) != Outside
      modifies dest
      ensures dest.Valid()
      ensures match Get(Image(), index)
              case Nothing => !ok && dest.Image() == old(dest.Image())
              case Whole => ok && dest.Image() == Image()
              case Entry(k, n, bytes) =>
                && ok && |bytes| <= VALUE_SIZE
                && dest.Image() == RawEv.Ev(k, n, bytes + old(dest.value)[|bytes|..])
    {
      if kind == EV_NONE {
        return false;
      }
      if kind == EV_MULTI_VALUE {
        var end := size;
        if end > VALUE_SIZE {
          end := VALUE_SIZE;
        }
        end := (end - EV_HEADER) % TWO_TO_32;
        var offset, n := 0, 0;
        ghost var target := Seek(value, end, 0, index);
        while offset < end
          invariant 0 <= offset < TWO_TO_32 && n <= index
          invariant dest.Valid() && dest.Image() == old(dest.Image())
          invariant target == Seek(value, end, offset, index - n)
          decreases index - n
        {
          SeekHere(value, end, offset, index - n);
          if value[offset] == EV_NONE {
            return false;
          }
          var entrySize := EntrySize(value, offset);
          if entrySize == 0 || Add32(Add32(entrySize, offset), EV_HEADER) > VALUE_SIZE {
            return false;
          }
          if n == index {
            dest.CopyEntry(value, offset);
            return true;
          }
          offset := Add32(offset, Add32(EV_HEADER, entrySize));
          n := n + 1;
        }
      }
      if index == 0 {
        dest.kind, dest.size, dest.value := kind, size, value;
        return true;
      }
      return false;
    }
  }

  // ----- what a chain of additions holds -----

  /** A value that may be added: neither empty nor itself a chain. */
  predicate Proper(e: Ev) {
    e.kind != EV_NONE && e.kind != EV_MULTI_VALUE && 1 <= e.size <= VALUE_SIZE
  }

  predicate AllProper(vs: seq<Ev>) {
    forall i :: 0 <= i < |vs| ==> Proper(vs[i])
  }

  /** The room that values take in a chain, headers included. */
  function Total(vs: seq<Ev>): nat {
    if vs == [] then 0 else EV_HEADER + vs[0].size + Total(vs[1..])
  }

  lemma {:induction false} TotalAppend(vs: seq<Ev>, v: Ev)
    ensures Total(vs + [v]) == Total(vs) + EV_HEADER + v.size
  {
    if vs == [] {
      assert vs + [v] == [v];
    } else {
      TotalAppend(vs[1..], v);
      assert (vs + [v])[1..] == vs[1..] + [v];
    }
  }

  /** The wire forms of vs lie one after the other in value, from offset on. */
  predicate Chained(value: seq<byte>, offset: nat, vs: seq<Ev>)
    requires AllProper(vs)
    decreases |vs|
  {
    vs == [] ||
    var end := offset + EV_HEADER + vs[0].size;
    end <= |value| && value[offset..end] == Wire(vs[0]) && Chained(value, end, vs[1..])
  }

  lemma {:induction false} ChainFirst(value: seq<byte>, offset: nat, v: Ev, vs: seq<Ev>)
    requires Proper(v) && AllProper(vs) && offset + EV_HEADER + v.size <= |value|
    requires value[offset..offset + EV_HEADER + v.size] == Wire(v)
    requires Chained(value, offset + EV_HEADER + v.size, vs)
    ensures AllProper([v] + vs) && Chained(value, offset, [v] + vs)
  {
  }

  lemma {:induction false} ChainOneMore(value: seq<byte>, value': seq<byte>, offset: nat, vs: seq<Ev>, v: Ev)
    requires AllProper(vs) && Proper(v) && Chained(value, offset, vs)
    requires var end := offset + Total(vs);
             end + EV_HEADER + v.size <= |value'| && end <= |value|
             && value'[..end] == value[..end] && value'[end..end + EV_HEADER + v.size] == Wire(v)
    ensures AllProper(vs + [v]) && Chained(value', offset, vs + [v])
    decreases |vs|
  {
    if vs == [] {
      ChainFirst(value', offset, v, []);
      assert vs + [v] == [v] + [];
    } else {
      var first, later := vs[0], vs[1..];
      var next, end := offset + EV_HEADER + first.size, offset + Total(vs);
      ChainOneMore(value, value', next, later, v);
      SliceOfSlice(value, 0, end, offset, next);
      SliceOfSlice(value', 0, end, offset, next);
      ChainFirst(value', offset, first, later + [v]);
      assert vs + [v] == [first] + (later + [v]);
    }
  }

  /** e holds the values vs. */
  predicate Holds(e: Ev, vs: seq<Ev>)
    requires AllProper(vs)
  {
    if vs == [] then e.kind == EV_NONE && e.size == 0
    else if |vs| == 1 then e == vs[0]
    else e.kind == EV_MULTI_VALUE && e.size == Total(vs) <= VALUE_SIZE && Chained(e.value, 0, vs)
  }

  /** Adding to a chain: it succeeds exactly if the value is the first one or all of them fit with their headers; then
      the chain holds it too, and otherwise it is unchanged, even when a single value would have been turned into a
      chain first. */
  lemma {:induction false} AddExtends(e: Ev, vs: seq<Ev>, v: Ev)
    requires AllProper(vs) && Proper(v) && Holds(e, vs)
    ensures AllProper(vs + [v])
    ensures Add(e, v).Done?
    ensures var Done(ok, e') := Add(e, v);
            && (ok <==> vs == [] || Total(vs + [v]) <= VALUE_SIZE)
            && (if ok then Holds(e', vs + [v]) else e' == e)
  {
    TotalAppend(vs, v);
    if |vs| == 1 {
      assert vs == [e];
      AddToSingleFits(e, v);
      var prev := EV_HEADER + e.size;
      if prev + EV_HEADER + v.size <= VALUE_SIZE {
        var multi := RawEv.Ev(EV_MULTI_VALUE, prev, Wire(e) + e.value[prev..]);
        assert multi.value[0..prev] == Wire(e);
        assert Chained(multi.value, prev, []) && Chained(multi.value, 0, [e]);
        AddToChain(multi, vs, v);
        assert Add(multi, v) == AddToMulti(multi, v);
      }
    } else if |vs| >= 2 {
      AddToChain(e, vs, v);
    }
  }

  lemma {:induction false} AddToChain(e: Ev, vs: seq<Ev>, v: Ev)
    requires AllProper(vs) && Proper(v) && vs != []
    requires e.kind == EV_MULTI_VALUE && e.size == Total(vs) <= VALUE_SIZE && Chained(e.value, 0, vs)
    ensures Add(e, v).Done?
    ensures var Done(ok, e') := Add(e, v);
            && (ok <==> Total(vs + [v]) <= VALUE_SIZE)
            && (if ok then Holds(e', vs + [v]) else e' == e)
  {
    TotalAppend(vs, v);
    AddToMultiFits(e, v);
    var end := Total(vs) + EV_HEADER + v.size;
    if end <= VALUE_SIZE {
      var value' := e.value[..e.size] + Wire(v) + e.value[end..];
      assert value'[..e.size] == e.value[..e.size] && value'[e.size..end] == Wire(v);
      ChainOneMore(e.value, value', 0, vs, v);
    }
  }

  /** Adding the values one after the other to an empty value; none if some addition fails. */
  function AddAll(vs: seq<Ev>): Option<Ev> {
    if vs == [] then Some(RawEv.Ev(EV_NONE, 0, Zeros(VALUE_SIZE)))
    else AddTo(AddAll(vs[..|vs| - 1]), vs[|vs| - 1])
  }

  function AddTo(front: Option<Ev>, v: Ev): Option<Ev> {
    if front.None? then None
    else
      match Add(front.value, v)
      case Done(ok, e) => if ok then Some(e) else None
      case OutOfBounds => None
  }

  lemma {:induction false} AddToHolds(front: Option<Ev>, vs: seq<Ev>, v: Ev)
    requires AllProper(vs) && Proper(v) && (front.Some? ==> Holds(front.value, vs))
    ensures AllProper(vs + [v])
    ensures AddTo(front, v).Some? ==> Holds(AddTo(front, v).value, vs + [v])
  {
    if front.Some? {
      AddExtends(front.value, vs, v);
    }
  }

  lemma {:induction false} AddAllHolds(vs: seq<Ev>)
    requires AllProper(vs)
    ensures AddAll(vs).Some? ==> Holds(AddAll(vs).value, vs)
  {
    if vs != [] {
      var front, last := vs[..|vs| - 1], vs[|vs| - 1];
      AddAllHolds(front);
      AddToHolds(AddAll(front), front, last);
      assert front + [last] == vs;
    }
  }

  // ----- reading a value back -----

  datatype Position = At(offset: nat) | Broken | End | Beyond

  function EntrySize(value: seq<byte>, offset: nat): uint32
    requires offset + EV_HEADER <= |value|
  {
    U32At(value, offset + 1)
  }

  /** Walks k entries on from offset; size is where the walk ends. All sums are 32 bits wide, so a corrupt chain can
      lead beyond the structure. */
  function Seek(value: seq<byte>, size: uint32, offset: uint32, k: nat): Position
    requires |value| == VALUE_SIZE
    decreases k
  {
    if offset >= size then End
    else if offset < VALUE_SIZE && value[offset] == EV_NONE then Broken
    else if offset + EV_HEADER > VALUE_SIZE then Beyond
    else
      var n := EntrySize(value, offset);
      if n == 0 || Add32(Add32(n, offset), EV_HEADER) > VALUE_SIZE then Broken
      else if k > 0 then Seek(value, size, Add32(offset, Add32(EV_HEADER, n)), k - 1)
      else if offset + EV_HEADER + n > VALUE_SIZE then Beyond
      else At(offset)
  }

  /** One stop of the walk. */
  lemma {:induction false} SeekHere(value: seq<byte>, size: uint32, offset: uint32, k: nat)
    requires |value| == VALUE_SIZE && offset < size
    ensures Seek(value, size, offset, k) ==
            if offset < VALUE_SIZE && value[offset] == EV_NONE then Broken
            else if offset + EV_HEADER > VALUE_SIZE then Beyond
            else
              var n := EntrySize(value, offset);
              if n == 0 || Add32(Add32(n, offset), EV_HEADER) > VALUE_SIZE then Broken
              else if k > 0 then Seek(value, size, Add32(offset, Add32(EV_HEADER, n)), k - 1)
              else if offset + EV_HEADER + n > VALUE_SIZE then Beyond else At(offset)
  {
  }

  /** A stop at an entry that lies within the structure. */
  lemma {:induction false} SeekFits(value: seq<byte>, size: uint32, offset: uint32, k: nat)
    requires |value| == VALUE_SIZE && offset < size && offset + EV_HEADER <= VALUE_SIZE && value[offset] != EV_NONE
    requires 1 <= EntrySize(value, offset) && offset + EV_HEADER + EntrySize(value, offset) <= VALUE_SIZE
    ensures Seek(value, size, offset, k) ==
            if k == 0 then At(offset) else Seek(value, size, offset + EV_HEADER + EntrySize(value, offset), k - 1)
  {
    var n := EntrySize(value, offset);
    SeekHere(value, size, offset, k);
    SmallSum(n, offset);
    SmallSum(n + offset, EV_HEADER);
    SmallSum(EV_HEADER, n);
    SmallSum(offset, EV_HEADER + n);
  }

  /** What reading value number `index` yields: nothing, the whole value, an entry of a chain, or bytes from
      outside. */
  datatype Reading = Nothing | Whole | Entry(kind: byte, size: uint32, bytes: seq<byte>) | Outside

  /** Reading what is not a chain of added values: nothing from a value without type; any other single value as
      number 0, and so a chain too short for an entry; and nothing from a chain whose first entry has no type, no
      size, or no room. */
  lemma {:induction false} GetSays(e: Ev, index: nat)
    ensures e.kind == 0 ==> Get(e, index) == Nothing
    ensures (e.kind != 0 && e.kind != 100) || (e.kind == 100 && e.size == 5) ==>
              Get(e, index) == if index == 0 then Whole else Nothing
    ensures e.kind == 100 && e.size > 5
            && (e.value[0] == 0 || U32At(e.value, 1) == 0 || 1019 < U32At(e.value, 1) < 0xFFFF_FFFB) ==>
              Get(e, index) == Nothing
  {
    if e.kind == 100 && e.size > 5 {
      FirstEntryStops(e.value, (Min(e.size, VALUE_SIZE) - EV_HEADER) % TWO_TO_32, index);
    }
  }

  lemma {:induction false} FirstEntryStops(value: seq<byte>, size: uint32, k: nat)
    requires |value| == VALUE_SIZE && size > 0
    ensures value[0] == 0 || U32At(value, 1) == 0 || 1019 < U32At(value, 1) < 0xFFFF_FFFB ==>
              Seek(value, size, 0, k) == Broken
  {
    SeekHere(value, size, 0, k);
  }

  /** How a value of a chain is read. */
  function AsEntry(v: Ev): Reading
    requires v.size <= VALUE_SIZE
  {
    Entry(v.kind, v.size, v.value[..v.size])
  }

  function Get(e: Ev, index: nat): Reading {
    if e.kind == EV_NONE then Nothing
    else
      var size := (Min(e.size, VALUE_SIZE) - EV_HEADER) % TWO_TO_32;
      var p := if e.kind == EV_MULTI_VALUE then Seek(e.value, size, 0, index) else End;
      match p
      case At(offset) => EntryAt(e.value, offset)
      case Broken => Nothing
      case End => if index == 0 then Whole else Nothing
      case Beyond => Outside
  }

  function EntryAt(value: seq<byte>, offset: nat): Reading {
    if offset + EV_HEADER <= |value| && offset + EV_HEADER + EntrySize(value, offset) <= |value| then
      var n := EntrySize(value, offset);
      Entry(value[offset], n, value[offset + EV_HEADER..offset + EV_HEADER + n])
    else Nothing
  }

  /** The fields of an entry, read in place. */
  lemma {:induction false} EntryOfWire(value: seq<byte>, offset: nat, v: Ev)
    requires Proper(v) && offset + EV_HEADER + v.size <= |value|
    requires value[offset..offset + EV_HEADER + v.size] == Wire(v)
    ensures value[offset] == v.kind && EntrySize(value, offset) == v.size
    ensures EntryAt(value, offset) == AsEntry(v)
  {
    var end := offset + EV_HEADER + v.size;
    var here := value[offset..end];
    assert here[0] == v.kind && here[1..5] == Le32(v.size) && here[EV_HEADER..|here|] == v.value[..v.size];
    SliceOfSlice(value, offset, end, 1, 5);
    SliceOfSlice(value, offset, end, EV_HEADER, |here|);
    U32AtOfLe32(value, offset + 1, v.size);
  }

  /** From offset on value holds entries that read as vs. */
  predicate Entries(value: seq<byte>, offset: nat, vs: seq<Ev>)
    requires AllProper(vs)
    decreases |vs|
  {
    vs == [] ||
    (offset + EV_HEADER + vs[0].size <= |value| && EntryAt(value, offset) == AsEntry(vs[0])
     && Entries(value, offset + EV_HEADER + vs[0].size, vs[1..]))
  }

  lemma {:induction false} ChainIsEntries(value: seq<byte>, offset: nat, vs: seq<Ev>)
    requires AllProper(vs) && Chained(value, offset, vs)
    ensures Entries(value, offset, vs)
    decreases |vs|
  {
    if vs != [] {
      EntryOfWire(value, offset, vs[0]);
      ChainIsEntries(value, offset + EV_HEADER + vs[0].size, vs[1..]);
    }
  }

  /** p is where the k-th value of vs stands, or the end. */
  predicate Finds(value: seq<byte>, p: Position, vs: seq<Ev>, k: nat)
    requires AllProper(vs)
  {
    if k >= |vs| then p == End else p.At? && EntryAt(value, p.offset) == AsEntry(vs[k])
  }

  lemma {:induction false} FindsLater(value: seq<byte>, p: Position, vs: seq<Ev>, k: nat)
    requires AllProper(vs) && vs != [] && k > 0 && Finds(value, p, vs[1..], k - 1)
    ensures Finds(value, p, vs, k)
  {
  }

  /** Walking k entries on reaches the k-th value, or the end. */
  lemma {:induction false} SeekFinds(value: seq<byte>, offset: nat, size: nat, vs: seq<Ev>, k: nat)
    requires |value| == VALUE_SIZE && AllProper(vs) && Entries(value, offset, vs)
    requires size + EV_HEADER == offset + Total(vs) <= VALUE_SIZE
    ensures Finds(value, Seek(value, size, offset, k), vs, k)
    decreases |vs|
  {
    if vs != [] {
      SeekFits(value, size, offset, k);
      if k > 0 {
        var next := offset + EV_HEADER + vs[0].size;
        SeekFinds(value, next, size, vs[1..], k - 1);
        FindsLater(value, Seek(value, size, next, k - 1), vs, k);
      }
    }
  }

  /** Reading value i of e gives the i-th of vs, with its type, size and bytes, or nothing past the end. */
  predicate ReadsBack(e: Ev, vs: seq<Ev>, i: nat)
    requires AllProper(vs)
  {
    if i >= |vs| then Get(e, i) == Nothing
    else if |vs| == 1 then Get(e, i) == Whole && e == vs[i]
    else Get(e, i) == AsEntry(vs[i])
  }

  /** The round trip: reading value i of a chain gives the i-th value added, with its type, size and bytes; reading
      past the end gives nothing. */
  lemma {:induction false} GetReturnsAdded(e: Ev, vs: seq<Ev>, i: nat)
    requires AllProper(vs) && Holds(e, vs)
    ensures ReadsBack(e, vs, i)
  {
    if |vs| >= 2 {
      assert (Min(e.size, VALUE_SIZE) - EV_HEADER) % TWO_TO_32 == e.size - EV_HEADER;
      ChainIsEntries(e.value, 0, vs);
      SeekFinds(e.value, 0, e.size - EV_HEADER, vs, i);
    }
  }

  /** A list of values can be added one by one exactly if it has at most one value or fits the room with its headers;
      then every value can be read back. */
  lemma {:induction false} ChainHoldsWhatFits(vs: seq<Ev>, i: nat)
    requires AllProper(vs)
    ensures AddAll(vs).Some? <==> |vs| <= 1 || Total(vs) <= VALUE_SIZE
    ensures AddAll(vs).Some? ==> ReadsBack(AddAll(vs).value, vs, i)
  {
    if vs != [] {
      var front, last := vs[..|vs| - 1], vs[|vs| - 1];
      assert front + [last] == vs;
      ChainHoldsWhatFits(front, i);
      AddAllHolds(front);
      TotalAppend(front, last);
      if AddAll(front).Some? {
        AddExtends(AddAll(front).value, front, last);
      }
    }
    AddAllHolds(vs);
    if AddAll(vs).Some? {
      GetReturnsAdded(AddAll(vs).value, vs, i);
    }
  }
}
