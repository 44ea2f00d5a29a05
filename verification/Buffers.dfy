/** The growable byte buffer behind both directions of a connection. */
module Buffers {
  import opened Bytes

  /** A heap block of `size` bytes whose first `dataSize` bytes are in use. Blocks are never smaller than minSize
      once allocated, and never reach maxSize. */
  class ByteBuffer {
    const minSize: nat
    const maxSize: nat
    var size: nat
    var dataSize: nat
    var block: array<byte>

    ghost predicate Valid()
      reads this
    {
      && minSize < maxSize <= TWO_TO_32
      && dataSize <= size == block.Length < maxSize
      && ((size == 0 && dataSize == 0) || size == Max(dataSize, minSize))
    }

    /** The bytes in use, oldest first. */
    function Contents(): (s: seq<byte>)
      requires Valid()
      reads this, block
      ensures |s| == dataSize
    {
      block[..dataSize]
    }

    constructor (minSize: nat, maxSize: nat)
      requires minSize < maxSize <= TWO_TO_32
      ensures Valid() && Contents() == [] && fresh(block)
      ensures this.minSize == minSize && this.maxSize == maxSize
    {
      this.minSize, this.maxSize := minSize, maxSize;
      size, dataSize := 0, 0;
      block := new byte[0];
    }

    /** A block of newSize bytes that starts as the old one did. */
    method Realloc(newSize: nat)
      requires dataSize <= block.Length && dataSize <= newSize
      modifies this`block
      ensures fresh(block) && block.Length == newSize
      ensures block[..dataSize] == old(block[..dataSize])
    {
      var grown := new byte[newSize];
      forall i | 0 <= i < dataSize {
        grown[i] := block[i];
      }
      block := grown;
    }

    /** Appends chunk, unless the block would reach maxSize; then nothing changes. */
    method Append(chunk: seq<byte>) returns (ok: bool)
      requires Valid() && |Contents()| + |chunk| < TWO_TO_32
      modifies this, block
      ensures Valid() && (block == old(block) || fresh(block))
      ensures ok <==> |old(Contents())| + |chunk| < maxSize
      ensures Contents() == old(Contents()) + (if ok then chunk else [])
    {
      var newSize := size;
      if newSize < minSize {
        newSize := minSize;
      }
      if |chunk| > newSize - dataSize {
        newSize := newSize + (|chunk| - (newSize - dataSize));
      }
      if newSize >= maxSize {
        return false;
      }
      if newSize != size {
        Realloc(newSize);
      }
      forall i | 0 <= i < |chunk| {
        block[dataSize + i] := chunk[i];
      }
      assert block[..dataSize] == old(Contents()) && block[dataSize..dataSize + |chunk|] == chunk;
      assert block[..dataSize + |chunk|] == block[..dataSize] + block[dataSize..dataSize + |chunk|];
      size := newSize;
      dataSize := dataSize + |chunk|;
      return true;
    }

    /** Moves the bytes behind the first n to the front. */
    method Shift(n: nat)
      requires n <= dataSize <= block.Length
      modifies block
      ensures block[..dataSize - n] == old(block[n..dataSize])
    {
      var a, b := n, 0;
      while a < dataSize
        invariant n <= a <= dataSize && b == a - n
        invariant forall k :: 0 <= k < b ==> block[k] == old(block[n + k])
        invariant forall k :: a <= k < dataSize ==> block[k] == old(block[k])
      {
        block[b] := block[a];
        a, b := a + 1, b + 1;
      }
    }

    /** Drops the first n bytes: the rest moves to the front and the block shrinks to fit. */
    method DropFront(n: nat)
      requires Valid() && n <= dataSize
      modifies this, block
      ensures Valid() && (block == old(block) || fresh(block))
      ensures Contents() == old(Contents())[n..]
    {
      assert Contents()[n..] == block[n..dataSize];
      Shift(n);
      dataSize := dataSize - n;
      if dataSize < size {
        var oldSize := size;
        size := dataSize;
        if size < minSize {
          size := minSize;
        }
        if oldSize != size {
          Realloc(size);
        }
      }
    }
  }
}
