/** The growable array of pointers, which deletes by moving the last element into the gap. */
module SafeArray {
  import opened Bytes

  /** s without element i, whose place the last element takes. */
  function SwapDeleted<T>(s: seq<T>, i: nat): (r: seq<T>)
    requires i < |s|
    ensures |r| == |s| - 1
    ensures forall k :: 0 <= k < |r| ==> r[k] == if k == i then s[|s| - 1] else s[k]
  {
    if i == |s| - 1 then s[..i] else s[..|s| - 1][i := s[|s| - 1]]
  }

  /** The position of the first occurrence of x, or -1. */
  function Find<T(==)>(s: seq<T>, x: T): (r: int)
    ensures -1 <= r < |s|
    ensures r >= 0 ==> s[r] == x && x !in s[..r]
    ensures r == -1 <==> x !in s
  {
    if s == [] then -1
    else if s[0] == x then 0
    else
      var r := Find(s[1..], x);
      if r == -1 then -1
      else
        assert s[..r + 1] == [s[0]] + s[1..][..r];
        r + 1
  }

  lemma LastForGap<T>(a: seq<T>, x: T, b: seq<T>, last: T)
    ensures multiset(a + [x] + (b + [last])) == multiset(a + [last] + b) + multiset{x}
  {
  }

  lemma {:induction false} SwapDeletedElements<T>(s: seq<T>, i: nat)
    requires i < |s|
    ensures multiset(SwapDeleted(s, i)) + multiset{s[i]} == multiset(s)
  {
    var last := |s| - 1;
    if i == last {
      assert s == s[..i] + [s[i]];
    } else {
      LastForGap(s[..i], s[i], s[i + 1..last], s[last]);
      assert s == s[..i] + [s[i]] + (s[i + 1..last] + [s[last]]);
      assert SwapDeleted(s, i) == s[..i] + [s[last]] + s[i + 1..last];
    }
  }

  class Array<T(0, ==)> {
    var count: nat
    var arr: array<T>

    ghost predicate Valid()
      reads this
    {
      arr.Length == count
    }

    function Contents(): seq<T>
      reads this, arr
    {
      arr[..]
    }

    constructor ()
      ensures Valid() && Contents() == [] && fresh(arr)
    {
      count := 0;
      arr := new T[0];
    }

    /** A block of n elements that begins as the old one did. */
    method Realloc(n: nat)
      modifies this`arr
      ensures fresh(arr) && arr.Length == n
      ensures forall i :: 0 <= i < n && i < old(arr.Length) ==> arr[i] == old(arr[i])
    {
      var grown := new T[n];
      forall i | 0 <= i < n && i < arr.Length {
        grown[i] := arr[i];
      }
      arr := grown;
    }

    method Add(x: T) returns (r: nat)
      requires Valid()
      modifies this
      ensures Valid() && fresh(arr)
      ensures Contents() == old(Contents()) + [x] && r == |old(Contents())|
    {
      Realloc(count + 1);
      arr[count] := x;
      r := count;
      count := count + 1;
    }

    method Delete(i: int)
      requires Valid()
      modifies this, arr
      ensures Valid() && (arr == old(arr) || fresh(arr))
      ensures Contents() == if 0 <= i < |old(Contents())| then SwapDeleted(old(Contents()), i) else old(Contents())
    {
      if i < 0 {
        return;
      }
      if i < count {
        if i < count - 1 {
          arr[i] := arr[count - 1];
        }
        Realloc(count - 1);
        count := count - 1;
      }
    }

    method FindIndex(x: T) returns (r: int)
      requires Valid()
      ensures r == Find(Contents(), x)
    {
      r := -1;
      var a := 0;
      while a < count
        invariant 0 <= a <= count
        invariant x !in arr[..a]
      {
        if arr[a] == x {
          FoundAt(Contents(), x, a);
          return a;
        }
        a := a + 1;
      }
    }

    /** Removes one occurrence of x, if there is one. */
    method Remove(x: T)
      requires Valid()
      modifies this, arr
      ensures Valid() && (arr == old(arr) || fresh(arr))
      ensures var s, i := old(Contents()), Find(old(Contents()), x);
              && Contents() == (if i >= 0 then SwapDeleted(s, i) else s)
              && multiset(Contents()) == multiset(s) - multiset{x}
    {
      var i := FindIndex(x);
      if i >= 0 {
        SwapDeletedElements(Contents(), i);
      }
      Delete(i);
    }

    method Get(i: int) returns (r: Option<T>)
      requires Valid()
      ensures r == if 0 <= i < |Contents()| then Some(Contents()[i]) else None
    {
      if i < 0 {
        return None;
      }
      if i < count {
        return Some(arr[i]);
      }
      return None;
    }

    /** Takes the first element; the others keep their order. */
    method Pop() returns (r: Option<T>)
      requires Valid()
      modifies this, arr
      ensures Valid() && (arr == old(arr) || fresh(arr))
      ensures var s := old(Contents());
              if s == [] then r == None && Contents() == [] else r == Some(s[0]) && Contents() == s[1..]
    {
      r := Get(0);
      if r.Some? {
        var a := 1;
        while a < count
          invariant 1 <= a <= count && count == old(count) && arr == old(arr)
          invariant forall k :: 0 <= k < a - 1 ==> arr[k] == old(arr[k + 1])
          invariant forall k :: a <= k < count ==> arr[k] == old(arr[k])
        {
          arr[a - 1] := arr[a];
          a := a + 1;
        }
      }
      ghost var s := Contents();
      Delete(count - 1);
    }

    /** Moves element i to the front; the others keep their order. */
    method MoveToBegin(i: int)
      requires Valid()
      modifies arr
      ensures Valid()
      ensures var s := old(Contents());
              Contents() == if 1 <= i < |s| then [s[i]] + s[..i] + s[i + 1..] else s
    {
      if i < 1 || i >= count {
        return;
      }
      var item := arr[i];
      var a := i - 1;
      while a >= 0
        invariant -1 <= a < i
        invariant forall k :: 0 <= k <= a ==> arr[k] == old(arr[k])
        invariant forall k :: a + 2 <= k <= i ==> arr[k] == old(arr[k - 1])
        invariant forall k :: i < k < count ==> arr[k] == old(arr[k])
      {
        arr[a + 1] := arr[a];
        a := a - 1;
      }
      arr[0] := item;
    }

    /** Deletes every element that meets the condition; `tested` lists the elements in the order of the tests. */
    method Clean(condition: T -> bool) returns (ghost tested: seq<T>)
      requires Valid()
      modifies this, arr
      ensures Valid() && (arr == old(arr) || fresh(arr))
      ensures (Contents(), tested) == Cleaned(old(Contents()), condition, 0)
    {
      tested := [];
      var a := 0;
      ghost var all := Cleaned(Contents(), condition, 0);
      assert [] + all.1 == all.1;
      var x := Get(a);
      while x.Some?
        invariant 0 <= a <= count && Valid() && (arr == old(arr) || fresh(arr))
        invariant x == if a < count then Some(Contents()[a]) else None
        invariant var (s, later) := Cleaned(Contents(), condition, a); all == (s, tested + later)
        decreases count - a
      {
        CleanedOne(Contents(), condition, a, tested);
        if condition(x.value) {
          Delete(a);
        } else {
          a := a + 1;
        }
        tested := tested + [x.value];
        x := Get(a);
      }
      assert tested + [] == tested;
    }
  }

  /** What cleaning from position a on leaves, and the elements it tests. */
  function Cleaned<T>(s: seq<T>, condition: T -> bool, a: nat): (seq<T>, seq<T>)
    decreases |s| - a
  {
    if a >= |s| then (s, [])
    else
      var (rest, tested) :=
        if condition(s[a]) then Cleaned(SwapDeleted(s, a), condition, a) else Cleaned(s, condition, a + 1);
      (rest, [s[a]] + tested)
  }

  lemma {:induction false} FoundAt<T>(s: seq<T>, x: T, i: nat)
    requires i < |s| && s[i] == x && x !in s[..i]
    ensures Find(s, x) == i
  {
  }

  lemma {:induction false} CleanedOne<T>(s: seq<T>, condition: T -> bool, a: nat, tested: seq<T>)
    requires a < |s|
    ensures var s' := if condition(s[a]) then SwapDeleted(s, a) else s;
            var (rest, later) := Cleaned(s', condition, if condition(s[a]) then a else a + 1);
            Cleaned(s, condition, a).0 == rest && tested + Cleaned(s, condition, a).1 == tested + [s[a]] + later
  {
  }

  lemma {:induction false} TailAfterDelete<T>(s: seq<T>, a: nat)
    requires a < |s|
    ensures multiset(s[a..]) == multiset{s[a]} + multiset(SwapDeleted(s, a)[a..])
  {
    SwapDeletedElements(s[a..], 0);
    assert SwapDeleted(s, a)[a..] == SwapDeleted(s[a..], 0);
  }

  lemma {:induction false} TestOne<T>(s: seq<T>, condition: T -> bool, a: nat) returns (s': seq<T>, a': nat)
    requires a < |s|
    ensures a' <= |s'| && |s'| - a' < |s| - a
    ensures Cleaned(s, condition, a).1 == [s[a]] + Cleaned(s', condition, a').1
    ensures multiset(s[a..]) == multiset{s[a]} + multiset(s'[a'..])
  {
    if condition(s[a]) {
      s', a' := SwapDeleted(s, a), a;
      TailAfterDelete(s, a);
    } else {
      s', a' := s, a + 1;
      assert s[a..] == [s[a]] + s[a + 1..];
    }
  }

  lemma {:induction false} TestedFrom<T>(s: seq<T>, condition: T -> bool, a: nat)
    requires a <= |s|
    ensures multiset(Cleaned(s, condition, a).1) == multiset(s[a..])
    decreases |s| - a
  {
    if a < |s| {
      var s', a' := TestOne(s, condition, a);
      TestedFrom(s', condition, a');
    }
  }

  lemma {:induction false} LeftFrom<T>(s: seq<T>, condition: T -> bool, a: nat, x: T)
    requires a <= |s| && forall i :: 0 <= i < a ==> !condition(s[i])
    ensures multiset(Cleaned(s, condition, a).0)[x] == if condition(x) then 0 else multiset(s)[x]
    decreases |s| - a
  {
    if a == |s| {
      assert x in s ==> !condition(x);
    } else if condition(s[a]) {
      SwapDeletedElements(s, a);
      LeftFrom(SwapDeleted(s, a), condition, a, x);
    } else {
      LeftFrom(s, condition, a + 1, x);
    }
  }

  /** Cleaning tests every original element exactly once, although deletion moves elements about, and leaves exactly
      those that do not meet the condition, each as often as before. */
  lemma {:induction false} CleaningIsExact<T(!new)>(s: seq<T>, condition: T -> bool)
    ensures var (rest, tested) := Cleaned(s, condition, 0);
            && multiset(tested) == multiset(s) && |tested| == |s|
            && forall x :: multiset(rest)[x] == if condition(x) then 0 else multiset(s)[x]
  {
    var (rest, tested) := Cleaned(s, condition, 0);
    TestedFrom(s, condition, 0);
    assert s[0..] == s;
    assert |multiset(tested)| == |multiset(s)|;
    forall x ensures multiset(rest)[x] == if condition(x) then 0 else multiset(s)[x] {
      LeftFrom(s, condition, 0, x);
    }
  }

  // ----- the array as a queue -----

  datatype Use<T> = Append(x: T) | TakeFirst

  /** The contents after a run of uses, what was appended and what was taken. */
  datatype Run<T> = Run(contents: seq<T>, appended: seq<T>, taken: seq<T>)

  function Uses<T>(s: seq<T>, uses: seq<Use<T>>): Run<T> {
    if uses == [] then Run(s, [], [])
    else
      var r, last := Uses(s, uses[..|uses| - 1]), uses[|uses| - 1];
      match last
      case Append(x) => Run(r.contents + [x], r.appended + [x], r.taken)
      case TakeFirst => if r.contents == [] then r else Run(r.contents[1..], r.appended, r.taken + [r.contents[0]])
  }

  /** While nothing is deleted, adding and popping is first in, first out. */
  lemma {:induction false} AddAndPopAreFifo<T>(s: seq<T>, uses: seq<Use<T>>)
    ensures var r := Uses(s, uses); r.taken + r.contents == s + r.appended
  {
    if uses != [] {
      AddAndPopAreFifo(s, uses[..|uses| - 1]);
      var r := Uses(s, uses[..|uses| - 1]);
      if uses[|uses| - 1].Append? {
        assert r.taken + (r.contents + [uses[|uses| - 1].x]) == r.taken + r.contents + [uses[|uses| - 1].x];
      } else if r.contents != [] {
        assert r.taken + [r.contents[0]] + r.contents[1..] == r.taken + r.contents;
      }
    }
  }
}
