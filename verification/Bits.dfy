/** The bits of bytes and words, and what the operations on words do to each of them.  Bit positions
    are bit-vectors, so that sums and differences of positions are taken modulo the width. */
module Bits {

  function Bit8(x: bv8, i: bv3): bool {
    (x >> i) & 1 == 1
  }

  function Bit32(x: bv32, i: bv5): bool {
    (x >> i) & 1 == 1
  }

  function Bit64(x: bv64, i: bv6): bool {
    (x >> i) & 1 == 1
  }

  /** At least two of them are set. */
  predicate Majority(x: bool, y: bool, z: bool) {
    (x && y) || (x && z) || (y && z)
  }

  /** An odd number of them is set. */
  predicate Odd(x: bool, y: bool, z: bool) {
    (x != y) != z
  }

  // ---------------------------------------------------------------- 64-bit words

  lemma XorLaw(x: bv64, y: bv64, r: bv64, i: bv6)
    requires r == x ^ y
    ensures Bit64(r, i) == (Bit64(x, i) != Bit64(y, i))
  {}

  lemma AndNotLaw(x: bv64, y: bv64, r: bv64, i: bv6)
    requires r == !x & y
    ensures Bit64(r, i) == (!Bit64(x, i) && Bit64(y, i))
  {}

  /** r is x rotated left by n. */
  predicate Rotated(x: bv64, n: bv6, r: bv64) {
    n > 0 && r == (x << n) | (x >> (64 - n as bv7))
  }

  /** Rotating left by n moves the bit at i - n to i. */
  lemma RotateLaw(x: bv64, n: bv6, i: bv6, r: bv64)
    requires Rotated(x, n, r)
    ensures Bit64(r, i) == Bit64(x, i - n)
  {
    assert n > 0;
    hide Bit64, Rotated;
    if n < 4 { Rotate0(x, n, i, r); }
    else if n < 8 { Rotate4(x, n, i, r); }
    else if n < 12 { Rotate8(x, n, i, r); }
    else if n < 16 { Rotate12(x, n, i, r); }
    else if n < 20 { Rotate16(x, n, i, r); }
    else if n < 24 { Rotate20(x, n, i, r); }
    else if n < 28 { Rotate24(x, n, i, r); }
    else if n < 32 { Rotate28(x, n, i, r); }
    else if n < 36 { Rotate32(x, n, i, r); }
    else if n < 40 { Rotate36(x, n, i, r); }
    else if n < 44 { Rotate40(x, n, i, r); }
    else if n < 48 { Rotate44(x, n, i, r); }
    else if n < 52 { Rotate48(x, n, i, r); }
    else if n < 56 { Rotate52(x, n, i, r); }
    else if n < 60 { Rotate56(x, n, i, r); }
    else { Rotate60(x, n, i, r); }
  }

  lemma Rotate0(x: bv64, n: bv6, i: bv6, r: bv64)
    requires 0 < n < 4 && Rotated(x, n, r)
    ensures Bit64(r, i) == Bit64(x, i - n)
  {}

  lemma Rotate4(x: bv64, n: bv6, i: bv6, r: bv64)
    requires 4 <= n < 8 && Rotated(x, n, r)
    ensures Bit64(r, i) == Bit64(x, i - n)
  {}

  lemma Rotate8(x: bv64, n: bv6, i: bv6, r: bv64)
    requires 8 <= n < 12 && Rotated(x, n, r)
    ensures Bit64(r, i) == Bit64(x, i - n)
  {}

  lemma Rotate12(x: bv64, n: bv6, i: bv6, r: bv64)
    requires 12 <= n < 16 && Rotated(x, n, r)
    ensures Bit64(r, i) == Bit64(x, i - n)
  {}

  lemma Rotate16(x: bv64, n: bv6, i: bv6, r: bv64)
    requires 16 <= n < 20 && Rotated(x, n, r)
    ensures Bit64(r, i) == Bit64(x, i - n)
  {}

  lemma Rotate20(x: bv64, n: bv6, i: bv6, r: bv64)
    requires 20 <= n < 24 && Rotated(x, n, r)
    ensures Bit64(r, i) == Bit64(x, i - n)
  {}

  lemma Rotate24(x: bv64, n: bv6, i: bv6, r: bv64)
    requires 24 <= n < 28 && Rotated(x, n, r)
    ensures Bit64(r, i) == Bit64(x, i - n)
  {}

  lemma Rotate28(x: bv64, n: bv6, i: bv6, r: bv64)
    requires 28 <= n < 32 && Rotated(x, n, r)
    ensures Bit64(r, i) == Bit64(x, i - n)
  {}

  lemma Rotate32(x: bv64, n: bv6, i: bv6, r: bv64)
    requires 32 <= n < 36 && Rotated(x, n, r)
    ensures Bit64(r, i) == Bit64(x, i - n)
  {}

  lemma Rotate36(x: bv64, n: bv6, i: bv6, r: bv64)
    requires 36 <= n < 40 && Rotated(x, n, r)
    ensures Bit64(r, i) == Bit64(x, i - n)
  {}

  lemma Rotate40(x: bv64, n: bv6, i: bv6, r: bv64)
    requires 40 <= n < 44 && Rotated(x, n, r)
    ensures Bit64(r, i) == Bit64(x, i - n)
  {}

  lemma Rotate44(x: bv64, n: bv6, i: bv6, r: bv64)
    requires 44 <= n < 48 && Rotated(x, n, r)
    ensures Bit64(r, i) == Bit64(x, i - n)
  {}

  lemma Rotate48(x: bv64, n: bv6, i: bv6, r: bv64)
    requires 48 <= n < 52 && Rotated(x, n, r)
    ensures Bit64(r, i) == Bit64(x, i - n)
  {}

  lemma Rotate52(x: bv64, n: bv6, i: bv6, r: bv64)
    requires 52 <= n < 56 && Rotated(x, n, r)
    ensures Bit64(r, i) == Bit64(x, i - n)
  {}

  lemma Rotate56(x: bv64, n: bv6, i: bv6, r: bv64)
    requires 56 <= n < 60 && Rotated(x, n, r)
    ensures Bit64(r, i) == Bit64(x, i - n)
  {}

  lemma Rotate60(x: bv64, n: bv6, i: bv6, r: bv64)
    requires 60 <= n && Rotated(x, n, r)
    ensures Bit64(r, i) == Bit64(x, i - n)
  {}

  // ---------------------------------------------------------------- 32-bit words

  lemma XorLaw32(x: bv32, y: bv32, r: bv32, i: bv5)
    requires r == x ^ y
    ensures Bit32(r, i) == (Bit32(x, i) != Bit32(y, i))
  {}

  /** r is x rotated right by n. */
  predicate RotatedRight32(x: bv32, n: bv5, r: bv32) {
    n > 0 && r == (x >> n) | (x << (32 - n as bv6))
  }

  /** Rotating right by n moves the bit at i + n to i. */
  lemma RotateRightLaw32(x: bv32, n: bv5, i: bv5, r: bv32)
    requires RotatedRight32(x, n, r)
    ensures Bit32(r, i) == Bit32(x, i + n)
  {
    assert n > 0;
    hide Bit32, RotatedRight32;
    if n < 8 { RotateRight0(x, n, i, r); }
    else if n < 16 { RotateRight8(x, n, i, r); }
    else if n < 24 { RotateRight16(x, n, i, r); }
    else { RotateRight24(x, n, i, r); }
  }

  lemma RotateRight0(x: bv32, n: bv5, i: bv5, r: bv32)
    requires 0 < n < 8 && RotatedRight32(x, n, r)
    ensures Bit32(r, i) == Bit32(x, i + n)
  {}

  lemma RotateRight8(x: bv32, n: bv5, i: bv5, r: bv32)
    requires 8 <= n < 16 && RotatedRight32(x, n, r)
    ensures Bit32(r, i) == Bit32(x, i + n)
  {}

  lemma RotateRight16(x: bv32, n: bv5, i: bv5, r: bv32)
    requires 16 <= n < 24 && RotatedRight32(x, n, r)
    ensures Bit32(r, i) == Bit32(x, i + n)
  {}

  lemma RotateRight24(x: bv32, n: bv5, i: bv5, r: bv32)
    requires 24 <= n && RotatedRight32(x, n, r)
    ensures Bit32(r, i) == Bit32(x, i + n)
  {}
}
