/** Every account at the end of a block, said as in a book of accounts: what it held, plus what it was
    paid, less what it paid, without any map being updated. */
module Books {
  import opened Ledger
  import opened TransactionProcessor
  import opened Chain

  /** An accepted transaction.  `paid` is false when the sender could not pay, which only happens to
      unknown kinds. */
  datatype Entry = Entry(tx: Transaction, paid: bool)

  function In(book: seq<Entry>, a: Address): nat {
    if book == [] then 0
    else
      var Entry(tx, _) := book[|book| - 1];
      In(book[..|book| - 1], a) + (if !tx.MovesTokens() && tx.to == a then tx.amount else 0)
  }

  function Out(book: seq<Entry>, a: Address): nat {
    if book == [] then 0
    else
      var Entry(tx, paid) := book[|book| - 1];
      Out(book[..|book| - 1], a) + (if !tx.MovesTokens() && paid && tx.from == a then tx.amount else 0)
  }

  function Balance(b: Balances, book: seq<Entry>, a: Address): int {
    (Get(b, a) as int) + In(book, a) - Out(book, a)
  }

  /** The book after all transactions: a transfer is entered when its sender can pay, a token
      transaction when its own checks allow it, an unknown kind always. */
  function Book(b: Balances, txs: seq<Transaction>): seq<Entry> {
    if txs == [] then []
    else
      var book := Book(b, txs[..|txs| - 1]);
      var tx := txs[|txs| - 1];
      var covered := tx.amount <= Balance(b, book, tx.from);
      var admitted := if tx.MovesTokens() then tx.tokensAllow else tx.kind != TRANSFER || covered;
      if admitted then book + [Entry(tx, covered)] else book
  }

  function Entered(book: seq<Entry>): seq<Transaction> {
    seq(|book|, i requires 0 <= i < |book| => book[i].tx)
  }

  // ------------------------------------------------------ one transaction at a time

  lemma ApplyAt(b: Balances, tx: Transaction, a: Address)
    requires Total(b) + Minted(b, tx) < LIMIT
    ensures (Get(Apply(b, tx), a) as int) == Get(b, a)
      + (if Accepts(b, tx) && !tx.MovesTokens() && tx.to == a then tx.amount else 0)
      - (if Accepts(b, tx) && !tx.MovesTokens() && tx.amount <= Get(b, tx.from) && tx.from == a then tx.amount else 0)
  {
    hide Total;
    if Accepts(b, tx) && !tx.MovesTokens() {
      NoWrap(b, tx);
    }
  }

  /** Applying the transactions one at a time leaves every account with its balance in the book, and
      accepts those that are entered. */
  lemma {:induction false} BookIsApplied(b: Balances, txs: seq<Transaction>)
    requires Total(b) + MintedAll(b, txs) < LIMIT
    ensures forall a :: Get(ApplyAll(b, txs), a) == Balance(b, Book(b, txs), a)
    ensures Filtered(b, txs, true) == Entered(Book(b, txs))
  {
    hide Total, Apply, MintedAll, Minted;
    if txs != [] {
      var n := |txs| - 1;
      var tx, before, book := txs[n], ApplyAll(b, txs[..n]), Book(b, txs[..n]);
      MintedLast(b, txs);
      BookIsApplied(b, txs[..n]);
      ApplyAllTotal(b, txs[..n]);
      var covered := tx.amount <= Balance(b, book, tx.from);
      assert (book + [Entry(tx, covered)])[..|book|] == book;
      forall a ensures Get(ApplyAll(b, txs), a) == Balance(b, Book(b, txs), a) {
        ApplyAt(before, tx, a);
      }
    }
  }

  lemma MintedLast(b: Balances, txs: seq<Transaction>)
    requires txs != []
    ensures MintedAll(b, txs) == MintedAll(b, txs[..|txs| - 1]) + Minted(ApplyAll(b, txs[..|txs| - 1]), txs[|txs| - 1])
  {}

  // -------------------------------------------------------------- committed blocks

  /** A committed block, whatever its kinds and failed reads: each account, cached or not, ends with
      its balance in the book, and what is written are the entries of the book. */
  lemma BlockIsBook(db: Balances, txs: seq<Transaction>, faults: set<Address>, a: Address)
    requires Total(Seen(db, faults, Accounts(txs))) + MintedAll(Seen(db, faults, Accounts(txs)), txs) < LIMIT
    ensures var b := Seen(db, faults, Accounts(txs));
      && Get(db + Effect(db, txs, faults, true).users, a) == Balance(b, Book(b, txs), a)
      && Effect(db, txs, faults, true).written == Entered(Book(b, txs))
  {
    hide Total, MintedAll, ApplyAll, Filtered, Book;
    var b := Seen(db, faults, Accounts(txs));
    BookIsApplied(b, txs);
    BatchIsSequential(db, txs, faults, a);
  }

  /** For transfers and token transactions on readable accounts: start plus accepted amounts received
      less accepted amounts sent. */
  lemma KnownBlockIsBook(db: Balances, txs: seq<Transaction>, a: Address)
    requires Total(db) < LIMIT && AllKnown(txs)
    ensures Get(db + Effect(db, txs, {}, true).users, a) == Balance(db, Book(db, txs), a)
    ensures Effect(db, txs, {}, true).written == Entered(Book(db, txs))
  {
    assert Seen(db, {}, Accounts(txs)) == db;
    hide Total, MintedAll, Effect, Book, Balance, Seen;
    KnownMintNothing(db, txs);
    BlockIsBook(db, txs, {}, a);
  }

  /** A block of one transfer, whatever the balances are. */
  lemma OneTransfer(db: Balances, tx: Transaction, a: Address)
    requires tx.kind == TRANSFER
    ensures var batch := Effect(db, [tx], {}, true);
      var after := Get(db + batch.users, a);
      if Get(db, tx.from) < tx.amount then after == Get(db, a) && batch.written == [] && batch.rejected == [tx]
      else
        && batch.written == [tx] && batch.rejected == []
        && (after as int) == if tx.from == tx.to then Get(db, a) as int
                             else if a == tx.from then (Get(db, a) as int) - tx.amount
                             else if a == tx.to then ((Get(db, a) as int) + tx.amount) % LIMIT
                             else Get(db, a) as int
  {
    hide Effect, ApplyAll, Filtered, Apply, Accepts, Seen, Get;
    OneApplied(db, tx);
    OneFiltered(db, tx);
    AppliedTransfer(db, tx, a);
    BatchIsSequentialOnDatabase(db, [tx], a);
    Sorted(db, [tx]);
  }

  lemma Sorted(db: Balances, txs: seq<Transaction>)
    ensures Effect(db, txs, {}, true).written == Filtered(db, txs, true)
    ensures Effect(db, txs, {}, true).rejected == Filtered(db, txs, false)
  {
    hide Filtered, ApplyAll, Accounts, Get, Sizes;
    assert Seen(db, {}, Accounts(txs)) == db;
  }

  lemma OneApplied(db: Balances, tx: Transaction)
    ensures ApplyAll(db, [tx]) == Apply(db, tx)
  {
    hide Apply;
    assert [tx][..0] == [];
    assert ApplyAll(db, []) == db;
  }

  lemma OneFiltered(db: Balances, tx: Transaction)
    ensures Filtered(db, [tx], true) == if Accepts(db, tx) then [tx] else []
    ensures Filtered(db, [tx], false) == if Accepts(db, tx) then [] else [tx]
  {
    hide Accepts;
    assert [tx][..0] == [];
    assert ApplyAll(db, []) == db && Filtered(db, [], true) == [] && Filtered(db, [], false) == [];
  }

  lemma AppliedTransfer(db: Balances, tx: Transaction, a: Address)
    requires tx.kind == TRANSFER
    ensures Accepts(db, tx) <==> tx.amount <= Get(db, tx.from)
    ensures (Get(Apply(db, tx), a) as int) ==
            if Get(db, tx.from) < tx.amount || tx.from == tx.to then Get(db, a) as int
            else if a == tx.from then (Get(db, a) as int) - tx.amount
            else if a == tx.to then ((Get(db, a) as int) + tx.amount) % LIMIT
            else Get(db, a) as int
  {}

  // ---------------------------------------------------------------------- genesis

  /** The sum of the amounts that a genesis block credits to an account. */
  function Granted(txs: seq<Transaction>, a: Address): nat {
    if txs == [] then 0
    else
      var tx := txs[|txs| - 1];
      Granted(txs[..|txs| - 1], a) + (if !tx.MovesTokens() && tx.to == a then tx.amount else 0)
  }

  lemma {:induction false} GenesisGrants(txs: seq<Transaction>, a: Address)
    requires Granted(txs, a) < LIMIT
    ensures Get(OpenAll(txs), a) == Granted(txs, a)
  {
    if txs != [] { GenesisGrants(txs[..|txs| - 1], a); }
  }
}
