/** Bytes, 32-bit unsigned integers and their little-endian layout in memory. */
module Bytes {
  type byte = x: int | 0 <= x < 256

  const TWO_TO_32 := 0x1_0000_0000

  type uint32 = x: int | 0 <= x < TWO_TO_32

  datatype Option<+T> = None | Some(value: T)

  /** Addition of two unsigned 32-bit values as C computes it: modulo 2^32. */
  function Add32(a: uint32, b: uint32): uint32 {
    (a + b) % TWO_TO_32
  }

  /** The four bytes of x, least significant first. */
  function Le32(x: uint32): (s: seq<byte>)
    ensures |s| == 4
  {
    [x % 256, x / 256 % 256, x / 256 / 256 % 256, x / 256 / 256 / 256]
  }

  lemma Le32IsLittleEndian(x: uint32)
    ensures var b := Le32(x);
            b[0] as int + 256 * b[1] as int + 65536 * b[2] as int + 16777216 * b[3] as int == x
  {
  }

  /** The unsigned 32-bit field stored at m[at..at + 4]. */
  function U32At(m: seq<byte>, at: nat): uint32
    requires at + 4 <= |m|
  {
    m[at] as int + 256 * (m[at + 1] as int + 256 * (m[at + 2] as int + 256 * m[at + 3] as int))
  }

  /** The reading of a 32-bit field as a signed number. */
  function Signed(x: uint32): int {
    if x < 0x8000_0000 then x else x - TWO_TO_32
  }

  /** Writing a field and reading it back yields the field, wherever it stands in memory. */
  lemma U32AtOfLe32(m: seq<byte>, at: nat, x: uint32)
    requires at + 4 <= |m| && m[at..at + 4] == Le32(x)
    ensures U32At(m, at) == x
  {
  }

  /** Reading a field and writing it back yields the bytes it was read from. */
  lemma Le32OfU32At(m: seq<byte>, at: nat)
    requires at + 4 <= |m|
    ensures Le32(U32At(m, at)) == m[at..at + 4]
  {
    var b: seq<byte> := m[at..at + 4];
    var q2: int := b[2] as int + 256 * b[3] as int;
    var q1: int := b[1] as int + 256 * q2;
    LowByte(b[0], q1);
    LowByte(b[1], q2);
    LowByte(b[2], b[3]);
  }

  lemma LowByte(b: byte, q: nat)
    ensures (b + 256 * q) % 256 == b && (b + 256 * q) / 256 == q
  {
  }

  function Zeros(n: nat): (s: seq<byte>)
    ensures |s| == n
  {
    seq(n, _ => 0)
  }

  lemma ZerosAreZero(n: nat)
    ensures forall i :: 0 <= i < n ==> Zeros(n)[i] == 0
  {
  }

  function Min(a: int, b: int): int {
    if a < b then a else b
  }

  function Max(a: int, b: int): int {
    if a < b then b else a
  }

  lemma SliceOfSlice<T>(s: seq<T>, a: nat, b: nat, c: nat, d: nat)
    requires a <= b <= |s| && c <= d <= b - a
    ensures s[a..b][c..d] == s[a + c..a + d]
  {
    var t := s[a..b];
    forall i | 0 <= i < d - c ensures t[c..d][i] == s[a + c..a + d][i] {
      assert t[c..d][i] == t[c + i] == s[a + (c + i)];
    }
  }

  /** What follows a common beginning keeps the prefix order. */
  lemma PrefixCancel<T>(a: seq<T>, b: seq<T>, c: seq<T>)
    requires a + b <= a + c
    ensures b <= c
  {
    assert b == (a + b)[|a|..] && c == (a + c)[|a|..];
    assert (a + c)[..|a + b|] == a + b;
    assert c[..|b|] == (a + c)[|a|..|a| + |b|];
  }

  /** The concatenation of a list of byte strings. */
  function Flatten(ss: seq<seq<byte>>): seq<byte> {
    if ss == [] then [] else ss[0] + Flatten(ss[1..])
  }

  lemma {:induction false} FlattenAppend(a: seq<seq<byte>>, b: seq<seq<byte>>)
    ensures Flatten(a + b) == Flatten(a) + Flatten(b)
  {
    if a == [] {
      assert a + b == b;
    } else {
      assert (a + b)[0] == a[0] && (a + b)[1..] == a[1..] + b;
      FlattenAppend(a[1..], b);
    }
  }
}
