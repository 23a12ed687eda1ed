// Bytes on the wire and the 16-bit little-endian length field.
module Bytes {

  type byte = n: int | 0 <= n < 256

  // The source's `v & 0xFF` on an unsigned value.
  function LowByte(n: nat): byte {
    n % 256
  }

  // The source's `(v >> 8) & 0xFF`.
  function HighByte(n: nat): byte {
    n / 256 % 256
  }

  // The source's `lo | (hi << 8)`: the two operands share no bit, so the
  // bitwise or is a sum.
  function Le16(lo: byte, hi: byte): nat {
    lo + 256 * hi
  }

  lemma Le16Joins(n: nat)
    requires n < 65536
    ensures Le16(LowByte(n), HighByte(n)) == n
  {
  }

  lemma Le16Splits(lo: byte, hi: byte)
    ensures Le16(lo, hi) < 65536
    ensures LowByte(Le16(lo, hi)) == lo && HighByte(Le16(lo, hi)) == hi
  {
    var m := Le16(lo, hi);
    assert m % 256 == lo;
    assert m / 256 == hi;
  }

  // Concatenation of chunks, in order.
  function Flatten<T>(chunks: seq<seq<T>>): seq<T> {
    if chunks == [] then [] else chunks[0] + Flatten(chunks[1..])
  }

  lemma Assoc<T>(a: seq<T>, b: seq<T>, c: seq<T>)
    ensures a + (b + c) == (a + b) + c
  {
  }

  lemma {:induction false} FlattenAppend<T>(chunks: seq<seq<T>>, more: seq<seq<T>>)
    ensures Flatten(chunks + more) == Flatten(chunks) + Flatten(more)
  {
    if chunks == [] {
      assert chunks + more == more;
    } else {
      FlattenAppend(chunks[1..], more);
      assert (chunks + more)[1..] == chunks[1..] + more;
      Assoc(chunks[0], Flatten(chunks[1..]), Flatten(more));
    }
  }
}
