/** The sponge construction on bytes (sections 4, 5.1, 6.1 and B.1 of FIPS 202). */
module Sponge {
  import opened Keccak
  import opened Blocks
  import opened ByteStrings
  import opened HexText

  // ------------------------------------------------- bytes in and out of lanes

  /** Byte x at position k of a lane, position 0 being the least significant. */
  function ByteAt(x: bv8, k: nat): Lane {
    var y := x as bv64;
    match k
    case 0 => Lane(y) case 1 => Lane(y << 8) case 2 => Lane(y << 16) case 3 => Lane(y << 24)
    case 4 => Lane(y << 32) case 5 => Lane(y << 40) case 6 => Lane(y << 48) case _ => Lane(y << 56)
  }

  function ByteOf(lane: Lane, k: nat): bv8 {
    var y := lane.bits;
    var z := match k
      case 0 => y case 1 => y >> 8 case 2 => y >> 16 case 3 => y >> 24
      case 4 => y >> 32 case 5 => y >> 40 case 6 => y >> 48 case _ => y >> 56;
    (z & 0xFF) as bv8
  }

  /** The first k bytes of a lane that starts at block[at]. */
  function PartialLane(block: seq<bv8>, at: nat, k: nat): Lane
    requires at + k <= |block|
    decreases k
  {
    if k == 0 then ZERO else Xor(PartialLane(block, at, k - 1), ByteAt(block[at + k - 1], k - 1))
  }

  /** How many of the eight bytes from `at` on a string of n bytes has. */
  function Count(n: nat, at: nat): (k: nat)
    ensures k <= 8 && (k > 0 ==> at + k <= n)
  {
    if n <= at then 0 else if n >= at + 8 then 8 else n - at
  }

  function BlockLane(block: seq<bv8>, i: nat): Lane {
    var k := Count(|block|, 8 * i);
    if k == 0 then ZERO else PartialLane(block, 8 * i, k)
  }

  /** The state with a block added; bytes beyond the block count as zero. */
  function XorBlock(s: State, block: seq<bv8>): State {
    seq(25, i requires 0 <= i < 25 => Xor(s[i], BlockLane(block, i)))
  }

  function AbsorbBlock(s: State, block: seq<bv8>): State {
    Permute(XorBlock(s, block))
  }

  // ------------------------------------------------------------------ sponge

  /** pad10*1 after the domain suffix, for a message that leaves k bytes in its last block. */
  function Padding(rate: nat, k: nat, suffix: bv8): (p: seq<bv8>)
    requires k < rate
    ensures |p| == rate - k
  {
    seq(rate - k, i => (if i == 0 then suffix else 0) | (if i == rate - k - 1 then 0x80 else 0))
  }

  function Padded(rate: nat, suffix: bv8, message: seq<bv8>): seq<bv8>
    requires rate > 0
  {
    message + Padding(rate, |Rest(rate, message)|, suffix)
  }

  function Absorbed(rate: nat, suffix: bv8, message: seq<bv8>): State
    requires rate > 0
  {
    Fold(AbsorbBlock, rate, ZERO_STATE, Padded(rate, suffix, message))
  }

  /** The first d bytes of the state: one squeeze, as d never exceeds the rate here. */
  function Squeeze(s: State, d: nat): (bytes: seq<bv8>)
    requires d <= 200
    ensures |bytes| == d
    decreases d
  {
    if d == 0 then [] else Squeeze(s, d - 1) + [ByteOf(s[(d - 1) / 8], (d - 1) % 8)]
  }

  /** The digest of d bytes as the hexadecimal string that both implementations return. */
  function Digest(rate: nat, suffix: bv8, d: nat, message: seq<bv8>): string
    requires rate > 0 && d <= 200
  {
    Hex(Squeeze(Absorbed(rate, suffix, message), d))
  }

  /** The padded message is a whole number of blocks, so that none of it is dropped. */
  lemma PaddedIsWhole(rate: nat, suffix: bv8, message: seq<bv8>)
    requires rate > 0
    ensures Whole(rate, |Padded(rate, suffix, message)|)
  {
    var a := Cut(rate, message);
    hide Rest, Padding;
    WholeNext(rate, |a|);
    hide Whole;
    assert |Padded(rate, suffix, message)| == |a| + rate;
  }

  /** Padding loses nothing: a suffix with a bit below the top one tells where the message ended. */
  lemma PaddedInjective(rate: nat, suffix: bv8, m: seq<bv8>, n: seq<bv8>)
    requires rate > 0 && suffix & 0x7F != 0
    requires Padded(rate, suffix, m) == Padded(rate, suffix, n)
    ensures m == n
  {
    NotLonger(rate, suffix, m, n);
    NotLonger(rate, suffix, n, m);
    var p := Padded(rate, suffix, m);
    assert m == p[..|m|] && n == p[..|m|];
  }

  lemma NotLonger(rate: nat, suffix: bv8, m: seq<bv8>, n: seq<bv8>)
    requires rate > 0 && suffix & 0x7F != 0
    requires Padded(rate, suffix, m) == Padded(rate, suffix, n)
    ensures |n| <= |m|
  {
    hide Rest, Padding;
    var k, l := |Rest(rate, m)|, |Rest(rate, n)|;
    if |m| < |n| {
      var p := Padded(rate, suffix, m);
      assert p[|n|] == Padding(rate, k, suffix)[|n| - |m|] && p[|n|] == Padding(rate, l, suffix)[0];
      SuffixShows(rate, k, l, suffix, |n| - |m|);
    }
  }

  lemma SuffixShows(rate: nat, k: nat, l: nat, suffix: bv8, i: nat)
    requires k < rate && l < rate && suffix & 0x7F != 0 && 0 < i < rate - k
    ensures Padding(rate, k, suffix)[i] != Padding(rate, l, suffix)[0]
  {
    SuffixBits(suffix);
  }

  lemma SuffixBits(suffix: bv8)
    requires suffix & 0x7F != 0
    ensures suffix | 0 != 0 && suffix | 0x80 != 0 && suffix | 0 != 0x80 && suffix | 0x80 != 0x80
  {}

  lemma DigestShape(rate: nat, suffix: bv8, d: nat, message: seq<bv8>)
    requires rate > 0 && d <= 200
    ensures |Digest(rate, suffix, d, message)| == 2 * d && IsLowerHex(Digest(rate, suffix, d, message))
  {
    hide Absorbed, Squeeze, Hex, IsLowerHex;
    HexShape(Squeeze(Absorbed(rate, suffix, message), d));
  }

  // ---------------------------------------------------------- adding one byte

  lemma {:induction false} PartialLaneOfPrefix(block: seq<bv8>, x: bv8, at: nat, k: nat)
    requires at + k <= |block|
    ensures PartialLane(block + [x], at, k) == PartialLane(block, at, k)
    decreases k
  {
    hide Xor, ByteAt;
    if k > 0 {
      PartialLaneOfPrefix(block, x, at, k - 1);
    }
  }

  /** Adding one more byte of a block touches one lane. */
  lemma XorBlockAppend(s: State, block: seq<bv8>, x: bv8, j: nat, k: nat)
    requires |block| == 8 * j + k && k < 8 && j < 25
    ensures XorBlock(s, block + [x]) == XorBlock(s, block)[j := Xor(XorBlock(s, block)[j], ByteAt(x, k))]
  {
    hide Xor, ByteAt, BlockLane;
    forall i | 0 <= i < 25
      ensures BlockLane(block + [x], i) == if i == j then Xor(BlockLane(block, j), ByteAt(x, k)) else BlockLane(block, i)
    {
      BlockLaneAppend(block, x, j, k, i);
    }
    XorAssociates(s[j], BlockLane(block, j), ByteAt(x, k));
  }

  lemma BlockLaneAppend(block: seq<bv8>, x: bv8, j: nat, k: nat, i: nat)
    requires |block| == 8 * j + k && k < 8
    ensures BlockLane(block + [x], i) == if i == j then Xor(BlockLane(block, j), ByteAt(x, k)) else BlockLane(block, i)
  {
    hide Xor, ByteAt;
    if i < j {
      PartialLaneOfPrefix(block, x, 8 * i, 8);
    } else if i == j {
      PartialLaneOfPrefix(block, x, 8 * j, k);
      XorZero(ByteAt(x, k));
    }
  }

  /** A zero byte changes nothing. */
  lemma XorBlockZero(s: State, block: seq<bv8>, j: nat, k: nat)
    requires |block| == 8 * j + k && k < 8 && j < 25
    ensures XorBlock(s, block + [0]) == XorBlock(s, block)
  {
    hide Xor, XorBlock;
    XorBlockAppend(s, block, 0, j, k);
    ZeroByte(k);
    XorZero(XorBlock(s, block)[j]);
  }

  lemma ZeroByte(k: nat)
    ensures ByteAt(0, k) == ZERO
  {}

  lemma XorBlockNothing(s: State)
    ensures XorBlock(s, []) == s
  {
    hide Xor;
    forall i | 0 <= i < 25 ensures XorBlock(s, [])[i] == s[i] { XorZero(s[i]); }
  }

  lemma SqueezeStarts(s: State)
    ensures Hex(Squeeze(s, 0)) == ""
  {}

  lemma SqueezeNext(s: State, i: nat, j: nat)
    requires i < 25 && j < 8
    ensures Hex(Squeeze(s, 8 * i + j + 1)) == Hex(Squeeze(s, 8 * i + j)) + HexByte(ByteOf(s[i], j))
  {
    hide HexByte, ByteOf;
    assert (8 * i + j) / 8 == i && (8 * i + j) % 8 == j;
    var bytes := Squeeze(s, 8 * i + j + 1);
    assert bytes[..|bytes| - 1] == Squeeze(s, 8 * i + j);
  }

  // --------------------------------------------- what a digest tells of the state

  /** Eight bytes as a lane, the first one least significant. */
  function Assemble(b: seq<bv8>): Lane
    requires |b| == 8
  {
    Lane(b[0] as bv64 | (b[1] as bv64 << 8) | (b[2] as bv64 << 16) | (b[3] as bv64 << 24)
      | (b[4] as bv64 << 32) | (b[5] as bv64 << 40) | (b[6] as bv64 << 48) | (b[7] as bv64 << 56))
  }

  function LaneBytes(lane: Lane): seq<bv8> {
    [ByteOf(lane, 0), ByteOf(lane, 1), ByteOf(lane, 2), ByteOf(lane, 3),
     ByteOf(lane, 4), ByteOf(lane, 5), ByteOf(lane, 6), ByteOf(lane, 7)]
  }

  lemma LaneBytesBack(lane: Lane)
    ensures Assemble(LaneBytes(lane)) == lane
  {}

  lemma SqueezeLane(s: State, k: nat)
    requires k < 25
    ensures Squeeze(s, 8 * k + 8) == Squeeze(s, 8 * k) + LaneBytes(s[k])
  {
    hide ByteOf, Squeeze;
    SqueezeFour(s, k, 0);
    SqueezeFour(s, k, 4);
  }

  lemma SqueezeFour(s: State, k: nat, j: nat)
    requires k < 25 && j <= 4
    ensures Squeeze(s, 8 * k + j + 4)
         == Squeeze(s, 8 * k + j) + [ByteOf(s[k], j), ByteOf(s[k], j + 1), ByteOf(s[k], j + 2), ByteOf(s[k], j + 3)]
  {
    hide ByteOf, Squeeze;
    SqueezeByte(s, k, j);
    SqueezeByte(s, k, j + 1);
    SqueezeByte(s, k, j + 2);
    SqueezeByte(s, k, j + 3);
  }

  lemma SqueezeByte(s: State, k: nat, j: nat)
    requires k < 25 && j < 8
    ensures Squeeze(s, 8 * k + j + 1) == Squeeze(s, 8 * k + j) + [ByteOf(s[k], j)]
  {
    hide ByteOf;
    assert (8 * k + j) / 8 == k && (8 * k + j) % 8 == j;
  }

  /** The bytes of k lanes are equal exactly when the lanes are. */
  lemma {:induction false} SqueezeTellsLanes(s: State, t: State, k: nat)
    requires k <= 25
    ensures Squeeze(s, 8 * k) == Squeeze(t, 8 * k) <==> s[..k] == t[..k]
  {
    hide Squeeze, Assemble, LaneBytes;
    if k == 0 {
      assert |Squeeze(s, 0)| == 0 && |Squeeze(t, 0)| == 0;
    } else {
      var n := k - 1;
      SqueezeTellsLanes(s, t, n);
      SqueezeLane(s, n);
      SqueezeLane(t, n);
      assert s[..k] == s[..n] + [s[n]] && t[..k] == t[..n] + [t[n]];
      LaneBytesBack(s[n]);
      LaneBytesBack(t[n]);
      if Squeeze(s, 8 * k) == Squeeze(t, 8 * k) {
        SameEnds(Squeeze(s, 8 * n), LaneBytes(s[n]), Squeeze(t, 8 * n), LaneBytes(t[n]));
      }
    }
  }

  /** Two messages have one digest text exactly when they leave the same first lanes. */
  lemma DigestTellsLanes(rate: nat, suffix: bv8, k: nat, m: seq<bv8>, n: seq<bv8>)
    requires rate > 0 && k <= 25
    ensures Digest(rate, suffix, 8 * k, m) == Digest(rate, suffix, 8 * k, n)
       <==> Absorbed(rate, suffix, m)[..k] == Absorbed(rate, suffix, n)[..k]
  {
    hide Absorbed, Squeeze, Hex;
    var s, t := Absorbed(rate, suffix, m), Absorbed(rate, suffix, n);
    SqueezeTellsLanes(s, t, k);
    if Digest(rate, suffix, 8 * k, m) == Digest(rate, suffix, 8 * k, n) {
      HexInjective(Squeeze(s, 8 * k), Squeeze(t, 8 * k));
    }
  }
}
