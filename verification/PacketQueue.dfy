/** The fixed-slot packet queue, which recycles the storage of the packets it has released. */
module PacketQueue {
  import opened Bytes
  import opened Packets
  import opened Proto

  /** The position of the first packet with request id rrId (any packet if rrId is 0), or the length. */
  function FirstMatch(q: seq<PacketMem>, rrId: uint32): (i: nat)
    ensures i <= |q|
    ensures i < |q| ==> rrId == 0 || RrIdOf(q[i]) == rrId
    ensures forall k :: 0 <= k < i ==> rrId != 0 && RrIdOf(q[k]) != rrId
  {
    if q == [] then 0
    else if rrId == 0 || RrIdOf(q[0]) == rrId then 0
    else 1 + FirstMatch(q[1..], rrId)
  }

  /** q without its i-th packet; q itself if there is none. */
  function Without(q: seq<PacketMem>, i: nat): (r: seq<PacketMem>)
    ensures i < |q| ==> |r| == |q| - 1 && forall k :: 0 <= k < |r| ==> r[k] == q[if k < i then k else k + 1]
  {
    if i < |q| then q[..i] + q[i + 1..] else q
  }

  // ----- rows of slots -----

  /** The packet storage held in a row of slots. */
  ghost function StorageOf(s: seq<Sdp?>): set<Sdp> {
    set i | 0 <= i < |s| && s[i] != null :: s[i]
  }

  /** No storage stands in two slots. */
  ghost predicate Distinct(s: seq<Sdp?>) {
    forall i, j :: 0 <= i < j < |s| && s[i] != null ==> s[i] != s[j]
  }

  /** Filling an empty slot with new storage, or leaving a slot as it is. */
  lemma Fill(s: seq<Sdp?>, i: nat, x: Sdp)
    requires i < |s| && Distinct(s) && (s[i] == x || (s[i] == null && x !in StorageOf(s)))
    ensures Distinct(s[i := x])
    ensures StorageOf(s[i := x]) == StorageOf(s) + {x}
  {
    var t := s[i := x];
    assert t[i] == x;
    assert forall k :: 0 <= k < |s| && k != i ==> t[k] == s[k];
    forall y | y in StorageOf(s) ensures y in StorageOf(t) {
      var k :| 0 <= k < |s| && s[k] == y;
      assert t[k] == y;
    }
  }

  /** Slots a + 1..n moved down by one, and slot a's storage, kept or dropped, put behind them. */
  function Rotate(s: seq<Sdp?>, a: nat, n: nat, spare: Sdp?): (t: seq<Sdp?>)
    requires a < n <= |s|
    ensures |t| == |s|
    ensures forall k :: 0 <= k < |s| ==> t[k] == if a <= k < n - 1 then s[k + 1] else if k == n - 1 then spare else s[k]
  {
    s[..a] + s[a + 1..n] + [spare] + s[n..]
  }

  lemma RotateKeepsStorage(s: seq<Sdp?>, a: nat, n: nat, spare: Sdp?)
    requires a < n <= |s| && Distinct(s) && s[a] != null && (spare == s[a] || spare == null)
    ensures Distinct(Rotate(s, a, n, spare))
    ensures StorageOf(Rotate(s, a, n, spare)) == if spare == null then StorageOf(s) - {s[a]} else StorageOf(s)
    ensures s[a] in StorageOf(s)
  {
    var t := Rotate(s, a, n, spare);
    forall y | y in StorageOf(s) && (y != s[a] || spare != null) ensures y in StorageOf(t) {
      var k :| 0 <= k < |s| && s[k] == y;
      assert y == t[if k == a then n - 1 else if a < k < n then k - 1 else k];
    }
    forall y | y in StorageOf(t) ensures y in StorageOf(s) && (y != s[a] || spare != null) {
      var k :| 0 <= k < |s| && t[k] == y;
      assert y == s[if k == n - 1 then a else if a <= k < n - 1 then k + 1 else k];
    }
  }

  /** The first slots hold the packets q. */
  ghost predicate HoldsQueue(s: seq<Sdp?>, q: seq<PacketMem>)
    reads StorageOf(s)
  {
    |q| <= |s| && forall i :: 0 <= i < |q| ==> s[i] != null && s[i].mem == q[i]
  }

  lemma FillHolds(s: seq<Sdp?>, q: seq<PacketMem>, x: Sdp)
    requires HoldsQueue(s, q) && |q| < |s|
    ensures HoldsQueue(s[|q| := x], q + [x.mem])
  {
  }

  lemma RotateHolds(s: seq<Sdp?>, q: seq<PacketMem>, a: nat, spare: Sdp?)
    requires HoldsQueue(s, q) && a < |q|
    ensures HoldsQueue(Rotate(s, a, |q|, spare), Without(q, a))
  {
    var t, r := Rotate(s, a, |q|, spare), Without(q, a);
    forall i | 0 <= i < |r| ensures t[i] != null && t[i].mem == r[i] {
      var k := if i < a then i else i + 1;
      assert t[i] == s[k] && r[i] == q[k];
    }
  }

  class Queue {
    const capacity: nat
    const minAlloc: nat
    var itemCount: nat
    var allocCount: nat
    const item: array<Sdp?>

    /** The queued packets, oldest first. */
    ghost var contents: seq<PacketMem>

    ghost var Repr: set<object>

    /** The packet storage held in the slots, in use or spare. */
    ghost function Storage(): set<Sdp>
      reads item
    {
      StorageOf(item[..])
    }

    /** The slots in use hold the packets, no storage stands in two slots, used or spare, and the counters bound
        the storage held. */
    ghost predicate Valid()
      reads this, Repr
      ensures Valid() ==> this in Repr
    {
      && this in Repr && item in Repr && Storage() <= Repr
      && item.Length == capacity && capacity + minAlloc < 256
      && itemCount == |contents| <= capacity
      && itemCount <= allocCount <= itemCount + minAlloc
      && HoldsQueue(item[..], contents)
      && Distinct(item[..])
      && |Storage()| <= allocCount
    }

    constructor (capacity: nat, minAlloc: nat)
      requires capacity + minAlloc < 256
      ensures Valid() && fresh(Repr) && contents == []
      ensures this.capacity == capacity && this.minAlloc == minAlloc
    {
      this.capacity, this.minAlloc := capacity, minAlloc;
      itemCount, allocCount := 0, 0;
      item := new Sdp?[capacity](_ => null);
      contents := [];
      Repr := {this, item};
      new;
      assert Storage() == {};
    }

    /** Makes sure that the first slot not in use owns storage, reusing what it has. */
    method Provide(mem: PacketMem)
      requires Distinct(item[..]) && itemCount < item.Length
      modifies item
      ensures item[itemCount] != null && (item[itemCount] == old(item[itemCount]) || fresh(item[itemCount]))
      ensures item[..] == old(item[..])[itemCount := item[itemCount]]
      ensures Distinct(item[..]) && Storage() == old(Storage()) + {item[itemCount]}
      ensures |Storage()| <= old(|Storage()|) + 1
      ensures old(item[itemCount]) != null ==> Storage() == old(Storage())
    {
      ghost var slots := item[..];
      if item[itemCount] == null {
        item[itemCount] := new Sdp(mem);
      }
      Fill(slots, itemCount, item[itemCount]);
      assert slots[itemCount] != null ==> slots[itemCount] in StorageOf(slots);
      assert item[..] == slots[itemCount := item[itemCount]];
    }

    /** Copies mem into the first slot not in use. */
    method Store(mem: PacketMem)
      requires Distinct(item[..]) && itemCount == |contents| < item.Length && HoldsQueue(item[..], contents)
      modifies item, item[itemCount]
      ensures item[itemCount] != null && (item[itemCount] == old(item[itemCount]) || fresh(item[itemCount]))
      ensures HoldsQueue(item[..], contents + [mem])
      ensures Distinct(item[..]) && Storage() == old(Storage()) + {item[itemCount]}
      ensures |Storage()| <= old(|Storage()|) + 1
      ensures old(item[itemCount]) != null ==> Storage() == old(Storage())
    {
      ghost var slots := item[..];
      Provide(mem);
      var slot := item[itemCount];
      assert forall i :: 0 <= i < itemCount ==> slots[i] == item[..][i] != slot;
      slot.mem := mem;
      FillHolds(slots, contents, slot);
    }

    /** Copies sdp behind the queued packets, into the spare storage of the next slot if there is some. */
    method Push(sdp: Sdp) returns (ok: bool)
      requires Valid() && sdp !in Repr
      modifies Repr
      ensures Valid() && fresh(Repr - old(Repr)) && sdp.mem == old(sdp.mem)
      ensures ok <==> |old(contents)| < capacity
      ensures contents == old(contents) + (if ok then [sdp.mem] else [])
      ensures allocCount == old(allocCount) + if ok then 1 else 0
      ensures |Storage()| <= old(|Storage()|) + 1
      ensures ok && old(itemCount < item.Length && item[itemCount] != null) ==> Storage() == old(Storage())
    {
      if itemCount >= capacity {
        return false;
      }
      assert item[itemCount] != null ==> item[itemCount] in Storage() by {
        assert item[itemCount] == item[..][itemCount];
      }
      Store(sdp.mem);
      allocCount := allocCount + 1;
      contents := contents + [sdp.mem];
      Repr := Repr + {item[itemCount]};
      itemCount := itemCount + 1;
      return true;
    }

    /** Moves the first packet with request id rrId, or the oldest if rrId is 0, to sdp; the others keep their
        order. */
    method Pop(sdp: Sdp, rrId: uint32) returns (ok: bool)
      requires Valid() && sdp !in Repr
      modifies Repr, sdp
      ensures Valid() && Repr <= old(Repr)
      ensures var i := FirstMatch(old(contents), rrId);
              && ok == (i < |old(contents)|)
              && contents == Without(old(contents), i)
              && sdp.mem == if ok then old(contents)[i] else old(sdp.mem)
      ensures var freed := if ok && old(allocCount) > minAlloc then 1 else 0;
              allocCount == old(allocCount) - freed && |Storage()| == old(|Storage()|) - freed
    {
      var a := 0;
      while a < itemCount
        invariant 0 <= a <= itemCount
        invariant FirstMatch(contents, rrId) >= a
        invariant allocCount == old(allocCount) && Storage() == old(Storage())
      {
        assert item[a] == item[..][a];
        if rrId == 0 || RrIdOf(item[a].mem) == rrId {
          sdp.mem := item[a].mem;
          Release(a);
          return true;
        }
        a := a + 1;
      }
      return false;
    }

    /** Takes the packet out of slot a; its storage is freed, or kept as spare behind the packets left. */
    method Release(a: nat)
      requires Valid() && a < itemCount
      modifies this, item
      ensures Valid() && Repr <= old(Repr)
      ensures contents == Without(old(contents), a)
      ensures var freed := if old(allocCount) > minAlloc then 1 else 0;
              allocCount == old(allocCount) - freed && |Storage()| == old(|Storage()|) - freed
    {
      ghost var slots, before := item[..], contents;
      var spare := item[a];
      if allocCount > minAlloc {
        allocCount := allocCount - 1;
        spare := null;
      }
      ShiftDown(a, spare);
      RotateKeepsStorage(slots, a, itemCount, spare);
      assert spare == null ==> |Storage()| == |StorageOf(slots)| - 1;
      RotateHolds(slots, before, a, spare);
      itemCount := itemCount - 1;
      contents := Without(contents, a);
    }

    /** Moves the slots in use behind slot a down by one, and puts spare behind them. */
    method ShiftDown(a: nat, spare: Sdp?)
      requires a < itemCount <= item.Length
      modifies item
      ensures item[..] == Rotate(old(item[..]), a, itemCount, spare)
    {
      ghost var slots := item[..];
      var b := a;
      while b < itemCount - 1
        invariant a <= b <= itemCount - 1
        invariant forall k :: 0 <= k < a ==> item[k] == slots[k]
        invariant forall k :: a <= k < b ==> item[k] == slots[k + 1]
        invariant forall k :: b < k < item.Length ==> item[k] == slots[k]
      {
        item[b] := item[b + 1];
        b := b + 1;
      }
      item[itemCount - 1] := spare;
    }
  }
}
