/** Runs of blocks over one user database (unit/blockHandler/Blockchain.h): money is conserved. */
module Chain {
  import opened Ledger
  import opened TransactionProcessor

  // ---------------------------------------- the cache is one transaction at a time

  lemma {:induction false} OthersUntouched(b: Balances, txs: seq<Transaction>, a: Address)
    requires a !in Accounts(txs)
    ensures Get(ApplyAll(b, txs), a) == Get(b, a)
  {
    if txs != [] { OthersUntouched(b, txs[..|txs| - 1], a); }
  }

  /** Writing the batch back leaves every account, cached or not, as if the transactions had been
      applied one at a time to the database that could be read. */
  lemma BatchIsSequential(db: Balances, txs: seq<Transaction>, faults: set<Address>, a: Address)
    ensures Get(db + Effect(db, txs, faults, true).users, a)
         == Get(ApplyAll(Seen(db, faults, Accounts(txs)), txs), a)
  {
    hide ApplyAll, Filtered;
    if a !in Accounts(txs) {
      OthersUntouched(Seen(db, faults, Accounts(txs)), txs, a);
    }
  }

  /** Without failed reads that database is the whole one. */
  lemma BatchIsSequentialOnDatabase(db: Balances, txs: seq<Transaction>, a: Address)
    ensures Get(db + Effect(db, txs, {}, true).users, a) == Get(ApplyAll(db, txs), a)
  {
    assert Seen(db, {}, Accounts(txs)) == db;
    BatchIsSequential(db, txs, {}, a);
  }

  // -------------------------------------------------------------- conservation

  lemma SameBalancesSameTotal(b: Balances, c: Balances)
    requires forall a :: Get(b, a) == Get(c, a)
    ensures Total(b) == Total(c)
  {
    TotalOver(b, b.Keys + c.Keys);
    TotalOver(c, b.Keys + c.Keys);
    SumSame(b.Keys + c.Keys, b, c);
  }

  lemma {:induction false} TotalWithout(b: Balances, lost: set<Address>)
    ensures Total(b - lost) + Sum(lost, b) == Total(b)
    decreases |lost|
  {
    hide Total, Sum;
    if lost == {} {
      assert b - lost == b;
      SumIsZero(lost, b);
    } else {
      var a :| a in lost;
      TotalWithout(b, lost - {a});
      SumPick(lost, b, a);
      var c := b - (lost - {a});
      TotalUpdate(c, a, 0);
      SameBalancesSameTotal(b - lost, c[a := 0]);
    }
  }

  /** Exact account of a committed block: what failed reads forget is lost, what underfunded
      transactions of unknown kinds credit is created. */
  lemma BlockTotal(db: Balances, txs: seq<Transaction>, faults: set<Address>)
    requires Total(db) + MintedAll(Seen(db, faults, Accounts(txs)), txs) < LIMIT
    ensures Total(db + Effect(db, txs, faults, true).users) + Sum(faults * Accounts(txs), db)
         == Total(db) + MintedAll(Seen(db, faults, Accounts(txs)), txs)
  {
    hide Total, Effect, ApplyAll, MintedAll, Sum;
    var b := Seen(db, faults, Accounts(txs));
    forall a ensures Get(db + Effect(db, txs, faults, true).users, a) == Get(ApplyAll(b, txs), a) {
      BatchIsSequential(db, txs, faults, a);
    }
    SameBalancesSameTotal(db + Effect(db, txs, faults, true).users, ApplyAll(b, txs));
    TotalWithout(db, faults * Accounts(txs));
    ApplyAllTotal(b, txs);
  }

  /** A block of known kinds conserves the total exactly when no account with money had a failed read. */
  lemma KnownKindsConserve(db: Balances, txs: seq<Transaction>, faults: set<Address>)
    requires Total(db) < LIMIT && AllKnown(txs)
    ensures Total(db + Effect(db, txs, faults, true).users) == Total(db) <==>
            forall a | a in faults && a in Accounts(txs) :: Get(db, a) == 0
  {
    hide Total, Effect, MintedAll;
    KnownMintNothing(Seen(db, faults, Accounts(txs)), txs);
    BlockTotal(db, txs, faults);
    SumIsZero(faults * Accounts(txs), db);
  }

  lemma {:induction false} SumIsZero(keys: set<Address>, b: Balances)
    ensures Sum(keys, b) == 0 <==> forall a | a in keys :: Get(b, a) == 0
    decreases |keys|
  {
    if keys != {} {
      var a :| a in keys;
      SumPick(keys, b, a);
      SumIsZero(keys - {a}, b);
    }
  }

  // ------------------------------------------------------------------- runs

  /** One pass of the block generator: the shard, how its reads went, and whether the user batch was
      committed.  Shards may repeat or be dropped: any sequence of blocks is a run. */
  datatype Block = Block(txs: seq<Transaction>, faults: set<Address>, readable: bool, committed: bool)

  function Commit(db: Balances, block: Block): Balances {
    if block.committed then db + Effect(db, block.txs, block.faults, block.readable).users else db
  }

  function After(db: Balances, blocks: seq<Block>): Balances {
    if blocks == [] then db else Commit(After(db, blocks[..|blocks| - 1]), blocks[|blocks| - 1])
  }

  /** What a block takes away: the money of accounts that looked empty and were overwritten. */
  ghost function Lost(db: Balances, block: Block): nat {
    if block.committed && block.readable then Sum(block.faults * Accounts(block.txs), db) else 0
  }

  /** What a block creates. */
  function Made(db: Balances, block: Block): nat {
    if block.committed && block.readable
    then MintedAll(Seen(db, block.faults, Accounts(block.txs)), block.txs)
    else 0
  }

  ghost function LostIn(db: Balances, blocks: seq<Block>): nat {
    if blocks == [] then 0
    else LostIn(db, blocks[..|blocks| - 1]) + Lost(After(db, blocks[..|blocks| - 1]), blocks[|blocks| - 1])
  }

  function MadeIn(db: Balances, blocks: seq<Block>): nat {
    if blocks == [] then 0
    else MadeIn(db, blocks[..|blocks| - 1]) + Made(After(db, blocks[..|blocks| - 1]), blocks[|blocks| - 1])
  }

  lemma CommitTotal(db: Balances, block: Block)
    requires Total(db) + Made(db, block) < LIMIT
    ensures Total(Commit(db, block)) + Lost(db, block) == Total(db) + Made(db, block)
  {
    hide Total, Effect, MintedAll, Sum;
    if block.committed {
      if block.readable {
        BlockTotal(db, block.txs, block.faults);
      } else {
        assert db + Effect(db, block.txs, block.faults, false).users == db by { NothingRead(db, block); }
      }
    }
  }

  lemma NothingRead(db: Balances, block: Block)
    ensures db + Effect(db, block.txs, block.faults, false).users == db
  {}

  /** Exact account of every run: blocks of any kinds, with any failed reads, committed or not. */
  lemma {:induction false} RunTotal(db: Balances, blocks: seq<Block>)
    requires Total(db) + MadeIn(db, blocks) < LIMIT
    ensures Total(After(db, blocks)) + LostIn(db, blocks) == Total(db) + MadeIn(db, blocks)
  {
    hide Total, Commit, Made, Lost;
    if blocks != [] {
      RunTotal(db, blocks[..|blocks| - 1]);
      CommitTotal(After(db, blocks[..|blocks| - 1]), blocks[|blocks| - 1]);
    }
  }

  /** The accounts whose read failed held nothing, at every block that counts. */
  ghost predicate NothingForgotten(db: Balances, blocks: seq<Block>) {
    forall i {:trigger blocks[i]} | 0 <= i < |blocks| && blocks[i].committed && blocks[i].readable ::
      forall a | a in blocks[i].faults && a in Accounts(blocks[i].txs) :: Get(After(db, blocks[..i]), a) == 0
  }

  /** The unknown kinds were funded, at every block that counts. */
  ghost predicate EverythingFunded(db: Balances, blocks: seq<Block>) {
    forall i {:trigger blocks[i]} | 0 <= i < |blocks| && blocks[i].committed && blocks[i].readable ::
      AllFunded(Seen(After(db, blocks[..i]), blocks[i].faults, Accounts(blocks[i].txs)), blocks[i].txs)
  }

  lemma {:induction false} LosesNothing(db: Balances, blocks: seq<Block>)
    ensures LostIn(db, blocks) == 0 <==> NothingForgotten(db, blocks)
  {
    hide After, Sum, Accounts;
    if blocks != [] {
      var n := |blocks| - 1;
      LosesNothing(db, blocks[..n]);
      SumIsZero(blocks[n].faults * Accounts(blocks[n].txs), After(db, blocks[..n]));
      assert forall i | 0 <= i < n :: blocks[..n][i] == blocks[i] && blocks[..n][..i] == blocks[..i];
      assert NothingForgotten(db, blocks) <==>
        NothingForgotten(db, blocks[..n]) && (blocks[n].committed && blocks[n].readable ==>
          forall a | a in blocks[n].faults && a in Accounts(blocks[n].txs) :: Get(After(db, blocks[..n]), a) == 0);
    }
  }

  lemma {:induction false} MakesNothing(db: Balances, blocks: seq<Block>)
    ensures MadeIn(db, blocks) == 0 <==> EverythingFunded(db, blocks)
  {
    hide After, MintedAll, AllFunded, Accounts, Seen;
    if blocks != [] {
      var n := |blocks| - 1;
      var b := Seen(After(db, blocks[..n]), blocks[n].faults, Accounts(blocks[n].txs));
      MakesNothing(db, blocks[..n]);
      MintsNothingIfFunded(b, blocks[n].txs);
      assert forall i | 0 <= i < n :: blocks[..n][i] == blocks[i] && blocks[..n][..i] == blocks[..i];
      assert EverythingFunded(db, blocks) <==>
        EverythingFunded(db, blocks[..n]) && (blocks[n].committed && blocks[n].readable ==> AllFunded(b, blocks[n].txs));
    }
  }

  /** A run of any blocks conserves the total exactly when it loses what it makes; one that forgets
      nothing exactly when the unknown kinds were funded; one that makes nothing, as one of known
      kinds does, exactly when it forgets nothing. */
  lemma RunConservesIff(db: Balances, blocks: seq<Block>)
    requires Total(db) + MadeIn(db, blocks) < LIMIT
    ensures Total(After(db, blocks)) == Total(db) <==> LostIn(db, blocks) == MadeIn(db, blocks)
    ensures NothingForgotten(db, blocks) ==>
              (Total(After(db, blocks)) == Total(db) <==> EverythingFunded(db, blocks))
    ensures EverythingFunded(db, blocks) ==>
              (Total(After(db, blocks)) == Total(db) <==> NothingForgotten(db, blocks))
  {
    hide Total, After, LostIn, MadeIn, NothingForgotten, EverythingFunded;
    RunTotal(db, blocks);
    LosesNothing(db, blocks);
    MakesNothing(db, blocks);
  }

  /** Blocks of known kinds whose accounts could all be read, or none of them. */
  ghost predicate Clean(block: Block) {
    AllKnown(block.txs) && block.faults !! Accounts(block.txs)
  }

  /** Over every run of clean blocks the total stays what it was after genesis. */
  lemma RunConserves(db: Balances, blocks: seq<Block>)
    requires Total(db) < LIMIT && forall i | 0 <= i < |blocks| :: Clean(blocks[i])
    ensures Total(After(db, blocks)) == Total(db)
  {
    hide Total, After, ApplyAll, MintedAll;
    forall i | 0 <= i < |blocks| && blocks[i].committed && blocks[i].readable
      ensures AllFunded(Seen(After(db, blocks[..i]), blocks[i].faults, Accounts(blocks[i].txs)), blocks[i].txs)
      ensures forall a | a in blocks[i].faults && a in Accounts(blocks[i].txs) :: Get(After(db, blocks[..i]), a) == 0
    {
      assert Clean(blocks[i]);
    }
    MakesNothing(db, blocks);
    RunConservesIff(db, blocks);
  }

  lemma {:induction false} MintedPrefix(b: Balances, txs: seq<Transaction>, i: nat)
    requires i < |txs|
    ensures MintedAll(b, txs[..i]) + Minted(ApplyAll(b, txs[..i]), txs[i]) <= MintedAll(b, txs)
    decreases |txs|
  {
    hide ApplyAll, Minted;
    var n := |txs| - 1;
    if i < n {
      MintedPrefix(b, txs[..n], i);
      assert txs[..n][..i] == txs[..i];
    }
  }

  /** As long as what the chain holds and makes fits 256 bits, no addition wraps and no transfer
      underflows, at any transaction of any run. */
  lemma NoWrapInRun(db: Balances, blocks: seq<Block>, block: Block, i: nat)
    requires i < |block.txs|
    requires Total(db) + MadeIn(db, blocks)
           + MintedAll(Seen(After(db, blocks), block.faults, Accounts(block.txs)), block.txs) < LIMIT
    ensures var b := ApplyAll(Seen(After(db, blocks), block.faults, Accounts(block.txs)), block.txs[..i]);
      var tx := block.txs[i];
      Accepts(b, tx) && !tx.MovesTokens() ==>
        && (tx.kind == TRANSFER ==> tx.amount <= Get(b, tx.from))
        && (Get(Debit(b, tx), tx.to) as nat) + (tx.amount as nat) < LIMIT
  {
    var before := After(db, blocks);
    var seen := Seen(before, block.faults, Accounts(block.txs));
    TotalWithout(before, block.faults * Accounts(block.txs));
    assert Total(seen) <= Total(before);
    hide Total, ApplyAll, After, Accepts, Debit, Seen, Minted, MintedAll, Sum;
    RunTotal(db, blocks);
    MintedPrefix(seen, block.txs, i);
    ApplyAllTotal(seen, block.txs[..i]);
    var b := ApplyAll(seen, block.txs[..i]);
    if Accepts(b, block.txs[i]) && !block.txs[i].MovesTokens() { NoWrap(b, block.txs[i]); }
  }

  // ------------------------------------------------------------------ genesis

  function Amount(tx: Transaction): nat {
    if tx.MovesTokens() then 0 else tx.amount
  }

  function Amounts(txs: seq<Transaction>): nat {
    if txs == [] then 0 else Amounts(txs[..|txs| - 1]) + Amount(txs[|txs| - 1])
  }

  /** The genesis block mints the sum of the amounts it credits. */
  lemma {:induction false} GenesisMints(txs: seq<Transaction>)
    requires Amounts(txs) < LIMIT
    ensures Total(OpenAll(txs)) == Amounts(txs)
  {
    hide Total;
    if txs == [] {
      assert Total(map[]) == 0 by { EmptyTotal(); }
    } else {
      var n := |txs| - 1;
      GenesisMints(txs[..n]);
      var b := OpenAll(txs[..n]);
      BalanceAtMostTotal(b, txs[n].to);
      TotalUpdate(b, txs[n].to, if txs[n].MovesTokens() then Get(b, txs[n].to) else Add256(Get(b, txs[n].to), txs[n].amount));
    }
  }

  lemma EmptyTotal()
    ensures Total(map[]) == 0
  {}

  /** The genesis transaction of the block generator. */
  const GENESIS: Transaction :=
    Transaction("UNTCoinbase", "UNTwLjJNFd7zuoGBzTM5jvAPjdLAwmg", 0x55730, TRANSFER, "", 0, true)

  /** From the genesis block on, the chain holds the genesis mint and what was made, less what was
      lost; with clean blocks exactly the genesis mint. */
  lemma ChainHoldsGenesisMint(blocks: seq<Block>)
    ensures var db := OpenAll([GENESIS]);
      && (0x55730 + MadeIn(db, blocks) < LIMIT ==>
            Total(After(db, blocks)) + LostIn(db, blocks) == 0x55730 + MadeIn(db, blocks))
      && ((forall i | 0 <= i < |blocks| :: Clean(blocks[i])) ==> Total(After(db, blocks)) == 0x55730)
  {
    hide Total, After, Clean, MadeIn, LostIn;
    var db := OpenAll([GENESIS]);
    assert [GENESIS][..0] == [];
    assert Amounts([GENESIS]) == 0x55730;
    GenesisMints([GENESIS]);
    if 0x55730 + MadeIn(db, blocks) < LIMIT {
      RunTotal(db, blocks);
    }
    if forall i | 0 <= i < |blocks| :: Clean(blocks[i]) {
      RunConserves(db, blocks);
    }
  }

  // ------------------------------------------- what unknown kinds of transaction do

  /** Every transaction of an unknown kind finds its amount with the sender when its turn comes. */
  ghost predicate AllFunded(b: Balances, txs: seq<Transaction>) {
    forall i {:trigger txs[i]} | 0 <= i < |txs| ::
      txs[i].Unknown() ==> txs[i].amount <= Get(ApplyAll(b, txs[..i]), txs[i].from)
  }

  lemma {:induction false} MintsNothingIfFunded(b: Balances, txs: seq<Transaction>)
    ensures MintedAll(b, txs) == 0 <==> AllFunded(b, txs)
  {
    hide ApplyAll;
    if txs != [] {
      var n := |txs| - 1;
      MintsNothingIfFunded(b, txs[..n]);
      assert forall i | 0 <= i < n :: txs[..n][i] == txs[i] && txs[..n][..i] == txs[..i];
      assert AllFunded(b, txs) <==>
        AllFunded(b, txs[..n]) && (txs[n].Unknown() ==> txs[n].amount <= Get(ApplyAll(b, txs[..n]), txs[n].from));
    }
  }

  /** With readable accounts, a block of any kinds conserves the total exactly when it is funded. */
  lemma BlockConservesIffFunded(db: Balances, txs: seq<Transaction>)
    requires Total(db) + MintedAll(db, txs) < LIMIT
    ensures Total(db + Effect(db, txs, {}, true).users) == Total(db) <==> AllFunded(db, txs)
  {
    assert Seen(db, {}, Accounts(txs)) == db;
    hide Total, Effect, MintedAll, AllFunded;
    BlockTotal(db, txs, {});
    MintsNothingIfFunded(db, txs);
    SumIsZero({} * Accounts(txs), db);
  }

  /** A transaction of an unknown kind from an account without money creates money. */
  lemma UnknownKindMints()
    ensures var tx := Transaction("a", "b", 1, 3, "", 0, true);
      Total(map[] + Effect(map[], [tx], {}, true).users) == 1
  {
    hide Total, Effect;
    var tx := Transaction("a", "b", 1, 3, "", 0, true);
    assert [tx][..0] == [];
    var b := Seen(map[], {}, Accounts([tx]));
    assert b == map[];
    assert ApplyAll(b, [tx][..0]) == map[];
    assert MintedAll(b, [tx]) == 1;
    EmptyTotal();
    BlockTotal(map[], [tx], {});
    SumIsZero({} * Accounts([tx]), map[]);
  }

  /** A failed read of an account with money, named in a transfer of nothing, destroys the money. */
  lemma FailedReadLoses()
    ensures var tx := Transaction("a", "b", 0, TRANSFER, "", 0, true);
      Total(map["a" := 1]) == 1 && Total(map["a" := 1] + Effect(map["a" := 1], [tx], {"a"}, true).users) == 0
  {
    hide Total, Effect, Sum;
    var tx := Transaction("a", "b", 0, TRANSFER, "", 0, true);
    var db: Balances := map["a" := 1];
    assert [tx][..0] == [];
    EmptyTotal();
    TotalUpdate(map[], "a", 1);
    assert map[]["a" := 1] == db;
    assert {"a"} * Accounts([tx]) == {"a"};
    SumPick({"a"}, db, "a");
    SumIsZero({"a"} - {"a"}, db);
    KnownMintNothing(Seen(db, {"a"}, Accounts([tx])), [tx]);
    BlockTotal(db, [tx], {"a"});
  }
}
