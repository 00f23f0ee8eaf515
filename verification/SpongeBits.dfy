/** The bytes of a block and of a digest as bits of the state array (section B.1 of FIPS 202: the
    least significant bit of a byte comes first). */
module SpongeBits {
  import opened Bits
  import opened Keccak
  import opened KeccakBits
  import opened Sponge

  /** The position in a lane of bit j of byte k. */
  function Place(k: nat, j: bv3): bv6 {
    match k
    case 0 => j as bv6 case 1 => 8 + j as bv6 case 2 => 16 + j as bv6 case 3 => 24 + j as bv6
    case 4 => 32 + j as bv6 case 5 => 40 + j as bv6 case 6 => 48 + j as bv6 case _ => 56 + j as bv6
  }

  lemma ByteOfLaw(lane: Lane, k: nat, j: bv3)
    requires k < 8
    ensures Bit8(ByteOf(lane, k), j) == B(lane, Place(k, j))
  {}

  lemma ByteAtLaw(x: bv8, n: nat, k: nat, j: bv3)
    requires n < 8 && k < 8
    ensures B(ByteAt(x, n), Place(k, j)) == (k == n && Bit8(x, j))
  {}

  lemma {:induction false} PartialLaneLaw(block: seq<bv8>, at: nat, n: nat, k: nat, j: bv3)
    requires n <= 8 && at + n <= |block| && k < 8
    ensures B(PartialLane(block, at, n), Place(k, j)) == (k < n && Bit8(block[at + k], j))
    decreases n
  {
    hide B, Xor, ByteAt, Place, Bit8;
    if n == 0 {
      NoBits(Place(k, j));
    } else {
      PartialLaneLaw(block, at, n - 1, k, j);
      ByteAtLaw(block[at + n - 1], n - 1, k, j);
      XorBit(PartialLane(block, at, n - 1), ByteAt(block[at + n - 1], n - 1), Place(k, j));
    }
  }

  lemma NoBits(z: bv6)
    ensures !B(ZERO, z)
  {}

  /** Absorbing adds bit j of byte 8i + k of the block to bit 8k + j of lane i. */
  lemma XorBlockLaw(s: State, block: seq<bv8>, i: nat, k: nat, j: bv3)
    requires i < 25 && k < 8
    ensures B(XorBlock(s, block)[i], Place(k, j))
         == (B(s[i], Place(k, j)) != (8 * i + k < |block| && Bit8(block[8 * i + k], j)))
  {
    hide B, Xor, Place, Bit8, PartialLane;
    var n := Count(|block|, 8 * i);
    if n == 0 {
      NoBits(Place(k, j));
    } else {
      PartialLaneLaw(block, 8 * i, n, k, j);
    }
    XorBit(s[i], BlockLane(block, i), Place(k, j));
  }

  /** Squeezing reads byte m of the digest from bits 8(m % 8) to 8(m % 8) + 7 of lane m / 8. */
  lemma {:induction false} SqueezeLaw(s: State, d: nat, m: nat, j: bv3)
    requires m < d <= 200
    ensures Bit8(Squeeze(s, d)[m], j) == B(s[m / 8], Place(m % 8, j))
    decreases d
  {
    hide B, Place, Bit8, ByteOf;
    if m == d - 1 {
      ByteOfLaw(s[m / 8], m % 8, j);
    } else {
      SqueezeLaw(s, d - 1, m, j);
    }
  }
}
