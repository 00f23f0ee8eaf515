/** The Merkle tree kept in a flat array (unit/libdevcore/datastructures/trees/MerkleTree.cpp and .h),
    over an arbitrary hash function. */
module Merkle {
  import Sha3
  import opened Sponge
  import opened ByteStrings
  import opened HexText

  /** A `std::string`: its bytes. */
  type Text = seq<bv8>

  /** The value of the segment [l, r) of the leaves: a leaf itself, or the hash of the hashes of the
      two halves. */
  function SegmentValue(h: Text -> Text, leaves: seq<Text>, l: nat, r: nat): Text
    requires l < r <= |leaves|
    decreases r - l
  {
    if l == r - 1 then leaves[l]
    else
      var half := (r + l) / 2;
      h(h(SegmentValue(h, leaves, l, half)) + h(SegmentValue(h, leaves, half, r)))
  }

  /** `get_root`: a single leaf is hashed twice, and so are 32 zero bytes when there is none. */
  function Root(h: Text -> Text, leaves: seq<Text>): Text {
    if leaves == [] then h(h(seq(32, _ => 0)))
    else if |leaves| == 1 then h(h(leaves[0]))
    else SegmentValue(h, leaves, 0, |leaves|)
  }

  /** The Merkle value of a list by itself: halve it, the shorter half first, and hash the two. */
  function ListValue(h: Text -> Text, leaves: seq<Text>): Text
    requires leaves != []
    decreases |leaves|
  {
    if |leaves| == 1 then leaves[0]
    else h(h(ListValue(h, leaves[..|leaves| / 2])) + h(ListValue(h, leaves[|leaves| / 2..])))
  }

  /** The value of a segment depends on its own leaves only, wherever it lies. */
  lemma {:induction false} SegmentIsList(h: Text -> Text, leaves: seq<Text>, l: nat, r: nat)
    requires l < r <= |leaves|
    ensures SegmentValue(h, leaves, l, r) == ListValue(h, leaves[l..r])
    decreases r - l
  {
    hide SegmentValue, ListValue;
    if l + 1 < r {
      var half := (r + l) / 2;
      SegmentIsList(h, leaves, l, half);
      SegmentIsList(h, leaves, half, r);
      SegmentHalves(h, leaves, l, r, half);
      ListHalves(h, leaves[l..r], leaves[l..half], leaves[half..r]);
    } else {
      OneLeaf(h, leaves, l);
    }
  }

  lemma OneLeaf(h: Text -> Text, leaves: seq<Text>, l: nat)
    requires l < |leaves|
    ensures SegmentValue(h, leaves, l, l + 1) == ListValue(h, leaves[l..l + 1])
  {}

  lemma SegmentHalves(h: Text -> Text, leaves: seq<Text>, l: nat, r: nat, half: nat)
    requires l + 1 < r <= |leaves| && half == (r + l) / 2
    ensures SegmentValue(h, leaves, l, r)
         == h(h(SegmentValue(h, leaves, l, half)) + h(SegmentValue(h, leaves, half, r)))
  {}

  lemma ListHalves(h: Text -> Text, leaves: seq<Text>, a: seq<Text>, b: seq<Text>)
    requires leaves == a + b && |a| == |leaves| / 2 && a != [] && b != []
    ensures ListValue(h, leaves) == h(h(ListValue(h, a)) + h(ListValue(h, b)))
  {
    assert leaves[..|leaves| / 2] == a && leaves[|leaves| / 2..] == b;
  }

  // ------------------------------------------------------------- heap indices

  /** Slot i lies in the subtree of slot `root`, children of c being 2c + 1 and 2c + 2. */
  ghost predicate Under(root: nat, i: nat)
    decreases i
  {
    i == root || (i > root && Under(root, (i - 1) / 2))
  }

  lemma {:induction false} UnderChild(c: nat, i: nat)
    ensures Under(2 * c + 1, i) || Under(2 * c + 2, i) ==> Under(c, i) && i != c
    decreases i
  {
    if i > 2 * c + 2 {
      UnderChild(c, (i - 1) / 2);
    }
  }

  /** Sibling subtrees share no slot. */
  lemma {:induction false} SiblingsApart(c: nat, i: nat)
    ensures !(Under(2 * c + 1, i) && Under(2 * c + 2, i))
    decreases i
  {
    if i > 2 * c + 2 {
      SiblingsApart(c, (i - 1) / 2);
    }
  }

  /** The slot is on the level of p slots that starts at p - 1, and its segment has at most n / p
      leaves, rounded up: this bounds every index the recursion reaches. */
  ghost predicate OnLevel(n: nat, current: nat, l: nat, r: nat, p: nat) {
    p > 0 && l < r <= n && p <= current + 1 < 2 * p && (r - l - 1) * p < n
  }

  lemma ChildrenOnLevel(n: nat, current: nat, l: nat, r: nat, p: nat)
    requires OnLevel(n, current, l, r, p) && l + 1 < r
    ensures OnLevel(n, 2 * current + 1, l, (r + l) / 2, 2 * p)
    ensures OnLevel(n, 2 * current + 2, (r + l) / 2, r, 2 * p)
    ensures 2 * current + 2 < 4 * n
  {
    var half := (r + l) / 2;
    Halved(half - l - 1, r - l - 1, p);
    Halved(r - half - 1, r - l - 1, p);
    AtLeastOnce(r - l - 1, p);
  }

  lemma AtLeastOnce(a: nat, p: nat)
    requires a >= 1
    ensures p <= a * p
  {}

  lemma Halved(a: nat, b: nat, p: nat)
    requires 2 * a <= b
    ensures a * (2 * p) <= b * p
  {
    assert a * (2 * p) == (2 * a) * p;
  }

  // ----------------------------------------------------------------- the tree

  /** Every slot of the recursion holds the value of its segment. */
  ghost predicate Built(h: Text -> Text, leaves: seq<Text>, tree: seq<Text>, current: nat, l: nat, r: nat)
    requires l < r <= |leaves|
    decreases r - l
  {
    && current < |tree| && tree[current] == SegmentValue(h, leaves, l, r)
    && (l + 1 < r ==>
          && Built(h, leaves, tree, 2 * current + 1, l, (r + l) / 2)
          && Built(h, leaves, tree, 2 * current + 2, (r + l) / 2, r))
  }

  /** Writing outside a subtree leaves what was built there. */
  lemma {:induction false} BuiltFramed(h: Text -> Text, leaves: seq<Text>, tree: seq<Text>, tree': seq<Text>,
                                       current: nat, l: nat, r: nat)
    requires l < r <= |leaves| && |tree| == |tree'|
    requires Built(h, leaves, tree, current, l, r)
    requires forall i | 0 <= i < |tree| && Under(current, i) :: tree'[i] == tree[i]
    ensures Built(h, leaves, tree', current, l, r)
    decreases r - l
  {
    assert Under(current, current);
    if l + 1 < r {
      forall i | 0 <= i < |tree| && (Under(2 * current + 1, i) || Under(2 * current + 2, i)) ensures tree'[i] == tree[i] {
        UnderChild(current, i);
      }
      BuiltFramed(h, leaves, tree, tree', 2 * current + 1, l, (r + l) / 2);
      BuiltFramed(h, leaves, tree, tree', 2 * current + 2, (r + l) / 2, r);
    }
  }

  lemma BuiltLeaf(h: Text -> Text, leaves: seq<Text>, tree: seq<Text>, current: nat, l: nat)
    requires l < |leaves| && current < |tree| && tree[current] == leaves[l]
    ensures Built(h, leaves, tree, current, l, l + 1)
  {}

  lemma UnderSelf(c: nat)
    ensures Under(c, c)
  {}

  /** The right child leaves the left one alone, and the parent's slot is outside both. */
  lemma BuiltFromChildren(h: Text -> Text, leaves: seq<Text>, left: seq<Text>, both: seq<Text>, tree: seq<Text>,
                          current: nat, l: nat, r: nat)
    requires l + 1 < r <= |leaves| && |left| == |both| && current < |both|
    requires Built(h, leaves, left, 2 * current + 1, l, (r + l) / 2)
    requires Built(h, leaves, both, 2 * current + 2, (r + l) / 2, r)
    requires forall i | 0 <= i < |both| && !Under(2 * current + 2, i) :: both[i] == left[i]
    requires tree == both[current := h(h(both[2 * current + 1]) + h(both[2 * current + 2]))]
    ensures Built(h, leaves, tree, current, l, r)
  {
    forall i | 0 <= i < |both| && Under(2 * current + 1, i) ensures both[i] == left[i] && tree[i] == left[i] {
      SiblingsApart(current, i);
      UnderChild(current, i);
    }
    forall i | 0 <= i < |both| && Under(2 * current + 2, i) ensures tree[i] == both[i] {
      UnderChild(current, i);
    }
    BuiltFramed(h, leaves, left, both, 2 * current + 1, l, (r + l) / 2);
    BuiltFramed(h, leaves, left, tree, 2 * current + 1, l, (r + l) / 2);
    BuiltFramed(h, leaves, both, tree, 2 * current + 2, (r + l) / 2, r);
  }

  class MerkleTree {
    const sha3: Text -> Text
    const initialArray: seq<Text>
    const tree: array<Text>

    /** `buildTree`.  The midpoint goes through `floor` on a double, exact below 2^53. */
    method BuildTree(current: nat, l: nat, r: nat, ghost p: nat)
      requires tree.Length == 8 * |initialArray| && |initialArray| < 0x20_0000_0000_0000
      requires OnLevel(|initialArray|, current, l, r, p) && current < 4 * |initialArray|
      modifies tree
      ensures Built(sha3, initialArray, tree[..], current, l, r)
      ensures forall i | 0 <= i < tree.Length && !Under(current, i) :: tree[i] == old(tree[i])
      ensures forall i | 4 * |initialArray| <= i < tree.Length :: tree[i] == old(tree[i])
      decreases r - l
    {
      hide Built, Under, SegmentValue;
      if l == r - 1 {
        tree[current] := initialArray[l];
        BuiltLeaf(sha3, initialArray, tree[..], current, l);
        UnderSelf(current);
      } else {
        var half := (r + l) / 2;
        ChildrenOnLevel(|initialArray|, current, l, r, p);
        BuildTree(2 * current + 1, l, half, 2 * p);
        ghost var left := tree[..];
        BuildTree(2 * current + 2, half, r, 2 * p);
        ghost var both := tree[..];
        var hashA := sha3(tree[2 * current + 1]);
        var hashB := sha3(tree[2 * current + 2]);
        tree[current] := sha3(Concat(hashA, hashB));
        BuiltFromChildren(sha3, initialArray, left, both, tree[..], current, l, r);
        forall i | 0 <= i < tree.Length && !Under(current, i) ensures tree[i] == old(tree[i]) {
          UnderChild(current, i);
          UnderSelf(current);
        }
      }
    }

    constructor (h: Text -> Text, leaves: seq<Text>)
      requires 1 <= |leaves| < 0x20_0000_0000_0000
      ensures sha3 == h && initialArray == leaves && fresh(tree)
      ensures Built(h, leaves, tree[..], 0, 0, |leaves|)
    {
      sha3 := h;
      initialArray := leaves;
      tree := new Text[8 * |leaves|](_ => []);
      new;
      BuildTree(0, 0, |leaves|, 1);
    }

    /** The tree without leaves, which is never built. */
    constructor Empty(h: Text -> Text)
      ensures sha3 == h && initialArray == [] && tree.Length == 0
    {
      sha3 := h;
      initialArray := [];
      tree := new Text[0];
    }

    method GetRoot() returns (root: Text)
      requires initialArray != [] ==> Built(sha3, initialArray, tree[..], 0, 0, |initialArray|)
      ensures root == Root(sha3, initialArray)
    {
      if tree.Length == 0 || initialArray == [] {
        var zeros := seq(32, _ => 0);
        return sha3(sha3(zeros));
      }
      root := if |initialArray| == 1 then sha3(sha3(tree[0])) else tree[0];
    }
  }

  /** `concat` of two present strings. */
  function Concat(a: Text, b: Text): Text {
    a + b
  }

  // ------------------------------------------------------------------ binding

  /** A hash with digests of one length, such as the 64 hex characters of SHA3-256. */
  ghost predicate FixedLength(h: Text -> Text, n: nat) {
    forall s :: |h(s)| == n
  }

  ghost predicate Collision(h: Text -> Text, x: Text, y: Text) {
    x != y && h(x) == h(y)
  }

  /** x is one of the strings hashed on the way to the value of a segment. */
  ghost predicate HashedIn(h: Text -> Text, leaves: seq<Text>, l: nat, r: nat, x: Text)
    requires l < r <= |leaves|
    decreases r - l
  {
    && l + 1 < r
    && var half := (r + l) / 2;
    var left, right := SegmentValue(h, leaves, l, half), SegmentValue(h, leaves, half, r);
    || x == left || x == right || x == h(left) + h(right)
    || HashedIn(h, leaves, l, half, x) || HashedIn(h, leaves, half, r, x)
  }

  /** x is one of the strings hashed on the way to the root. */
  ghost predicate HashedForRoot(h: Text -> Text, leaves: seq<Text>, x: Text)
    requires leaves != []
  {
    if |leaves| == 1 then x == leaves[0] || x == h(leaves[0]) else HashedIn(h, leaves, 0, |leaves|, x)
  }

  /** From two leaf lists that differ at leaf k of a segment but agree on its value, descend to a
      collision. */
  lemma {:induction false} SegmentCollision(h: Text -> Text, n: nat, a: seq<Text>, b: seq<Text>,
                                            l: nat, k: nat, r: nat)
    returns (x: Text, y: Text)
    requires FixedLength(h, n)
    requires |a| == |b| && l <= k < r <= |a| && a[k] != b[k]
    requires SegmentValue(h, a, l, r) == SegmentValue(h, b, l, r)
    ensures Collision(h, x, y) && HashedIn(h, a, l, r, x) && HashedIn(h, b, l, r, y)
    decreases r - l
  {
    if l == r - 1 {
      assert false;
    } else {
      var half := (r + l) / 2;
      var la, ra := SegmentValue(h, a, l, half), SegmentValue(h, a, half, r);
      var lb, rb := SegmentValue(h, b, l, half), SegmentValue(h, b, half, r);
      var pa, pb := h(la) + h(ra), h(lb) + h(rb);
      if pa != pb {
        x, y := pa, pb;
      } else {
        assert h(la) == pa[..n] && h(lb) == pb[..n] && h(ra) == pa[n..] && h(rb) == pb[n..];
        if la != lb {
          x, y := la, lb;
        } else if ra != rb {
          x, y := ra, rb;
        } else if k < half {
          x, y := SegmentCollision(h, n, a, b, l, k, half);
        } else {
          x, y := SegmentCollision(h, n, a, b, half, k, r);
        }
      }
    }
  }

  /** Binding: different leaf lists of one length with equal roots yield a collision of the hash, one
      string hashed for each of the two roots. */
  lemma RootBinds(h: Text -> Text, n: nat, a: seq<Text>, b: seq<Text>) returns (x: Text, y: Text)
    requires FixedLength(h, n)
    requires |a| == |b| && a != [] && a != b && Root(h, a) == Root(h, b)
    ensures Collision(h, x, y) && HashedForRoot(h, a, x) && HashedForRoot(h, b, y)
  {
    if |a| == 1 {
      if h(a[0]) != h(b[0]) {
        x, y := h(a[0]), h(b[0]);
      } else {
        x, y := a[0], b[0];
      }
    } else {
      var k :| 0 <= k < |a| && a[k] != b[k];
      x, y := SegmentCollision(h, n, a, b, 0, k, |a|);
    }
  }

  // ------------------------------------------------------- with the tree's own hash

  /** SHA3-256 as hexadecimal text. */
  function Sha3Digest(text: Text): string {
    Digest(Sha3.Rate(256), Sha3.SUFFIX, 32, text)
  }

  /** The `sha3` member of the tree: the characters of that text are hashed again as bytes. */
  function Sha3Text(text: Text): Text {
    Ascii(Sha3Digest(text))
  }

  /** Two leaf lists of one length with one root are equal, or among the byte strings hashed for
      their roots there are two different ones with the same SHA3-256 digest. */
  lemma Sha3RootBinds(a: seq<Text>, b: seq<Text>) returns (x: Text, y: Text)
    requires |a| == |b| && a != []
    ensures Root(Sha3Text, a) == Root(Sha3Text, b) ==>
              || a == b
              || (x != y && Sha3Digest(x) == Sha3Digest(y) && HashedForRoot(Sha3Text, a, x) && HashedForRoot(Sha3Text, b, y))
  {
    hide Root, HashedForRoot, Ascii, IsLowerHex;
    forall s: Text ensures |Sha3Text(s)| == 64 && IsLowerHex(Sha3Digest(s)) {
      hide Digest;
      DigestShape(Sha3.Rate(256), Sha3.SUFFIX, 32, s);
      AsciiLength(Sha3Digest(s));
    }
    hide Sha3Digest;
    x, y := [], [];
    if a != b && Root(Sha3Text, a) == Root(Sha3Text, b) {
      x, y := RootBinds(Sha3Text, 64, a, b);
      AsciiInjective(Sha3Digest(x), Sha3Digest(y));
    }
  }
}
