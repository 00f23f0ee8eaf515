/** Native balances: the account map, and what one transaction at a time does to it
    (unit/blockHandler/TransactionProcessor.h, unit/libdevcore/datastructures/account/WalletAccount.h). */
module Ledger {

  /** 2 to the power 256, where `uint256_t` wraps around. */
  const LIMIT: nat := 0x1_0000000000000000_0000000000000000_0000000000000000_0000000000000000

  function PowerOfTwo(n: nat): nat {
    if n == 0 then 1 else 2 * PowerOfTwo(n - 1)
  }

  lemma {:induction false} PowersMultiply(a: nat, b: nat)
    ensures PowerOfTwo(a + b) == PowerOfTwo(a) * PowerOfTwo(b)
  {
    if a > 0 {
      PowersMultiply(a - 1, b);
      Doubled(PowerOfTwo(a - 1), PowerOfTwo(b));
    }
  }

  lemma Doubled(x: nat, y: nat)
    ensures 2 * (x * y) == (2 * x) * y
  {}

  lemma LimitIs()
    ensures LIMIT == PowerOfTwo(256)
  {
    hide PowerOfTwo;
    SixteenBits();
    Squared(16, 0x1_0000);
    Squared(32, 0x1_0000_0000);
    Squared(64, 0x1_0000_0000_0000_0000);
    Squared(128, 0x1_0000_0000_0000_0000_0000_0000_0000_0000);
  }

  lemma Squared(n: nat, p: nat)
    requires PowerOfTwo(n) == p
    ensures PowerOfTwo(2 * n) == p * p
  {
    PowersMultiply(n, n);
  }

  lemma SixteenBits()
    ensures PowerOfTwo(16) == 0x1_0000
  {
    assert PowerOfTwo(4) == 16;
    Squared(4, 16);
    Squared(8, 256);
  }

  type Uint256 = x: nat | x < LIMIT witness 0

  type Address = string

  /** The user database: stored balances by address.  An absent account counts as 0. */
  type Balances = map<Address, Uint256>

  const TRANSFER: nat := 0
  const TRANSFER_TOKENS: nat := 1
  const CREATE_TOKENS: nat := 2

  /** `size` is the length of the serialized transaction; `tokensAllow` is the outcome of the checks
      on a token transaction, which look at token balances and JSON fields only. */
  datatype Transaction = Transaction(from: Address, to: Address, amount: Uint256, kind: nat, hash: string, size: nat,
                                     tokensAllow: bool)
  {
    predicate MovesTokens() {
      kind == TRANSFER_TOKENS || kind == CREATE_TOKENS
    }

    /** Neither a transfer nor a token transaction: handled like a transfer, but without the test. */
    predicate Unknown() {
      kind != TRANSFER && !MovesTokens()
    }
  }

  function Get(b: Balances, a: Address): Uint256 {
    if a in b then b[a] else 0
  }

  function Add256(x: Uint256, y: Uint256): Uint256 {
    ((x as nat) + (y as nat)) % LIMIT
  }

  // ------------------------------------------------- one transaction at a time

  /** A transfer is rejected when the sender cannot pay; an unknown kind is not tested. */
  predicate Accepts(b: Balances, tx: Transaction) {
    if tx.MovesTokens() then tx.tokensAllow else tx.Unknown() || tx.amount <= Get(b, tx.from)
  }

  function Debit(b: Balances, tx: Transaction): Balances {
    if tx.amount <= Get(b, tx.from) then b[tx.from := (Get(b, tx.from) as nat) - tx.amount] else b
  }

  function Credit(b: Balances, tx: Transaction): Balances {
    b[tx.to := Add256(Get(b, tx.to), tx.amount)]
  }

  /** Token transactions leave the native balances alone. */
  function Apply(b: Balances, tx: Transaction): Balances {
    if Accepts(b, tx) && !tx.MovesTokens() then Credit(Debit(b, tx), tx) else b
  }

  function ApplyAll(b: Balances, txs: seq<Transaction>): Balances {
    if txs == [] then b else Apply(ApplyAll(b, txs[..|txs| - 1]), txs[|txs| - 1])
  }

  /** The transactions that were accepted, or rejected, in order. */
  function Filtered(b: Balances, txs: seq<Transaction>, accepted: bool): seq<Transaction> {
    if txs == [] then []
    else
      var n := |txs| - 1;
      Filtered(b, txs[..n], accepted) + (if Accepts(ApplyAll(b, txs[..n]), txs[n]) == accepted then [txs[n]] else [])
  }

  /** Every transaction is accepted or rejected, none twice. */
  lemma {:induction false} FilteredSplits(b: Balances, txs: seq<Transaction>)
    ensures multiset(Filtered(b, txs, true)) + multiset(Filtered(b, txs, false)) == multiset(txs)
  {
    hide ApplyAll, Accepts;
    if txs != [] {
      var n := |txs| - 1;
      FilteredSplits(b, txs[..n]);
      assert txs == txs[..n] + [txs[n]];
    }
  }

  function Accounts(txs: seq<Transaction>): set<Address> {
    if txs == [] then {} else Accounts(txs[..|txs| - 1]) + {txs[|txs| - 1].from, txs[|txs| - 1].to}
  }

  // -------------------------------------------------------------------- totals

  ghost function Sum(keys: set<Address>, b: Balances): nat {
    if keys == {} then 0
    else
      var a :| a in keys;
      Get(b, a) + Sum(keys - {a}, b)
  }

  /** All native money in the database. */
  ghost function Total(b: Balances): nat {
    Sum(b.Keys, b)
  }

  /** The sum does not depend on the order. */
  lemma {:induction false} SumPick(keys: set<Address>, b: Balances, a: Address)
    requires a in keys
    ensures Sum(keys, b) == (Get(b, a) as nat) + Sum(keys - {a}, b)
    decreases |keys|
  {
    var c :| c in keys && Sum(keys, b) == (Get(b, c) as nat) + Sum(keys - {c}, b);
    if c != a {
      SumPick(keys - {c}, b, a);
      SumPick(keys - {a}, b, c);
      assert keys - {c} - {a} == keys - {a} - {c};
    }
  }

  lemma {:induction false} SumSame(keys: set<Address>, b: Balances, c: Balances)
    requires forall a | a in keys :: Get(b, a) == Get(c, a)
    ensures Sum(keys, b) == Sum(keys, c)
    decreases |keys|
  {
    if keys != {} {
      var a :| a in keys;
      SumPick(keys, b, a);
      SumPick(keys, c, a);
      SumSame(keys - {a}, b, c);
    }
  }

  /** Accounts that hold nothing do not matter. */
  lemma {:induction false} SumExtends(keys: set<Address>, more: set<Address>, b: Balances)
    requires keys <= more && forall a | a in more - keys :: Get(b, a) == 0
    ensures Sum(more, b) == Sum(keys, b)
    decreases |more|
  {
    if more - keys == {} {
      assert more == keys;
    } else {
      var a :| a in more - keys;
      SumPick(more, b, a);
      SumExtends(keys, more - {a}, b);
    }
  }

  lemma TotalOver(b: Balances, keys: set<Address>)
    requires b.Keys <= keys
    ensures Total(b) == Sum(keys, b)
  {
    SumExtends(b.Keys, keys, b);
  }

  lemma TotalUpdate(b: Balances, a: Address, x: Uint256)
    ensures Total(b[a := x]) == Total(b) - Get(b, a) + x
  {
    var keys := b.Keys + {a};
    var c := b[a := x];
    TotalOver(b, keys);
    TotalOver(c, keys);
    SumPick(keys, b, a);
    SumPick(keys, c, a);
    SumSame(keys - {a}, b, c);
  }

  lemma BalanceAtMostTotal(b: Balances, a: Address)
    ensures Get(b, a) <= Total(b)
  {
    if a in b { SumPick(b.Keys, b, a); }
  }

  // -------------------------------------------------------------- conservation

  /** What a transaction creates out of nothing: one of an unknown kind credits its recipient even
      when the sender cannot pay. */
  function Minted(b: Balances, tx: Transaction): nat {
    if tx.Unknown() && Get(b, tx.from) < tx.amount then tx.amount else 0
  }

  function MintedAll(b: Balances, txs: seq<Transaction>): nat {
    if txs == [] then 0
    else MintedAll(b, txs[..|txs| - 1]) + Minted(ApplyAll(b, txs[..|txs| - 1]), txs[|txs| - 1])
  }

  lemma ApplyTotal(b: Balances, tx: Transaction)
    requires Total(b) + Minted(b, tx) < LIMIT
    ensures Total(Apply(b, tx)) == Total(b) + Minted(b, tx)
  {
    hide Total;
    if Accepts(b, tx) && !tx.MovesTokens() {
      var c := Debit(b, tx);
      if tx.amount <= Get(b, tx.from) {
        TotalUpdate(b, tx.from, (Get(b, tx.from) as nat) - tx.amount);
        assert Total(c) + tx.amount == Total(b);
      }
      assert Total(c) + tx.amount < LIMIT;
      BalanceAtMostTotal(c, tx.to);
      TotalUpdate(c, tx.to, Add256(Get(c, tx.to), tx.amount));
    }
  }

  lemma NoWrap(b: Balances, tx: Transaction)
    requires Total(b) + Minted(b, tx) < LIMIT && Accepts(b, tx) && !tx.MovesTokens()
    ensures tx.kind == TRANSFER ==> tx.amount <= Get(b, tx.from)
    ensures (Get(Debit(b, tx), tx.to) as nat) + (tx.amount as nat) < LIMIT
  {
    hide Total;
    if tx.amount <= Get(b, tx.from) {
      TotalUpdate(b, tx.from, (Get(b, tx.from) as nat) - tx.amount);
    }
    BalanceAtMostTotal(Debit(b, tx), tx.to);
  }

  /** Exact account of a batch: the total grows by what was minted, wrap-around never happening as
      long as the money fits 256 bits. */
  lemma {:induction false} ApplyAllTotal(b: Balances, txs: seq<Transaction>)
    requires Total(b) + MintedAll(b, txs) < LIMIT
    ensures Total(ApplyAll(b, txs)) == Total(b) + MintedAll(b, txs)
  {
    hide Total, Apply;
    if txs != [] {
      var n := |txs| - 1;
      ApplyAllTotal(b, txs[..n]);
      ApplyTotal(ApplyAll(b, txs[..n]), txs[n]);
    }
  }

  ghost predicate AllKnown(txs: seq<Transaction>) {
    forall i | 0 <= i < |txs| :: !txs[i].Unknown()
  }

  lemma {:induction false} KnownMintNothing(b: Balances, txs: seq<Transaction>)
    requires AllKnown(txs)
    ensures MintedAll(b, txs) == 0
  {
    hide ApplyAll;
    if txs != [] { KnownMintNothing(b, txs[..|txs| - 1]); }
  }
}
