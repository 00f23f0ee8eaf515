/** Messages cut into blocks of n bytes: what every streaming hash of the repository does. */
module Blocks {

  /** Feed every complete block of n bytes to f, in order. */
  function Fold<S>(f: (S, seq<bv8>) -> S, n: nat, s: S, data: seq<bv8>): S
    requires n > 0
    decreases |data|
  {
    if |data| < n then s else Fold(f, n, f(s, data[..n]), data[n..])
  }

  /** The bytes after the last complete block. */
  function Rest(n: nat, data: seq<bv8>): (r: seq<bv8>)
    requires n > 0
    ensures |r| < n && |r| <= |data|
    decreases |data|
  {
    if |data| < n then data else Rest(n, data[n..])
  }

  /** k is a multiple of n. */
  ghost predicate Whole(n: nat, k: nat)
    requires n > 0
  {
    k == 0 || (k >= n && Whole(n, k - n))
  }

  lemma {:induction false} FoldAppend<S>(f: (S, seq<bv8>) -> S, n: nat, s: S, a: seq<bv8>, b: seq<bv8>)
    requires n > 0 && Whole(n, |a|)
    ensures Fold(f, n, s, a + b) == Fold(f, n, Fold(f, n, s, a), b)
    decreases |a|
  {
    if a == [] {
      assert a + b == b;
    } else {
      assert (a + b)[..n] == a[..n] && (a + b)[n..] == a[n..] + b;
      FoldAppend(f, n, f(s, a[..n]), a[n..], b);
    }
  }

  /** One more block: the state after it, and the blocks are still whole. */
  lemma FoldBlock<S>(f: (S, seq<bv8>) -> S, n: nat, s: S, a: seq<bv8>, block: seq<bv8>)
    requires n > 0 && Whole(n, |a|) && |block| == n
    ensures Fold(f, n, s, a + block) == f(Fold(f, n, s, a), block)
    ensures Whole(n, |a + block|)
  {
    FoldAppend(f, n, s, a, block);
    assert block[..n] == block;
    WholeNext(n, |a|);
  }

  lemma WholeNext(n: nat, k: nat)
    requires n > 0 && Whole(n, k)
    ensures Whole(n, k + n)
  {}

  lemma {:induction false} WholeSum(n: nat, k: nat, l: nat)
    requires n > 0 && Whole(n, k) && Whole(n, l)
    ensures Whole(n, k + l)
    decreases k
  {
    if k > 0 {
      WholeSum(n, k - n, l);
    }
  }

  lemma {:induction false} RestOf(n: nat, a: seq<bv8>, b: seq<bv8>)
    requires n > 0 && Whole(n, |a|) && |b| < n
    ensures Rest(n, a + b) == b
    decreases |a|
  {
    if a == [] {
      assert a + b == b;
    } else {
      assert (a + b)[n..] == a[n..] + b;
      RestOf(n, a[n..], b);
    }
  }

  /** The whole blocks of a message and its rest. */
  lemma {:induction false} Cut(n: nat, data: seq<bv8>) returns (a: seq<bv8>)
    requires n > 0
    ensures Whole(n, |a|) && data == a + Rest(n, data)
    decreases |data|
  {
    if |data| < n {
      a := [];
    } else {
      var a' := Cut(n, data[n..]);
      a := data[..n] + a';
    }
  }

  // ---------------------------------------------------------- byte counters

  /** A 64-bit counter. */
  function Wrap64(n: nat): nat {
    n % 0x1_0000_0000_0000_0000
  }

  lemma WrapAdd(n: nat, k: nat)
    ensures Wrap64(Wrap64(n) + k) == Wrap64(n + k)
  {
    var q := n / 0x1_0000_0000_0000_0000;
    assert n + k == Wrap64(n) + k + 0x1_0000_0000_0000_0000 * q;
    WrapMultiple(Wrap64(n) + k, q);
  }

  lemma {:induction false} WrapMultiple(x: nat, q: nat)
    ensures Wrap64(x + 0x1_0000_0000_0000_0000 * q) == Wrap64(x)
    decreases q
  {
    if q > 0 {
      WrapMultiple(x, q - 1);
    }
  }
}
