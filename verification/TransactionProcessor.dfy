/** `TransactionProcessor::setTxBatch` on the native balances of one shard. */
module TransactionProcessor {
  import opened Ledger
  import opened Wrappers

  class WalletAccount {
    const address: Address
    var balance: Uint256
    var txInputs: seq<string>
    var txOutputs: seq<string>
    var changed: bool

    /** `createPtrWallet` of a well-formed stored wallet, or `createEmptyPtrWallet` with balance 0. */
    constructor (address: Address, balance: Uint256)
      ensures this.address == address && this.balance == balance && !changed
      ensures txInputs == [] && txOutputs == []
    {
      this.address := address;
      this.balance := balance;
      txInputs, txOutputs, changed := [], [], false;
    }

    method Increase(value: Uint256, inputHash: string)
      modifies this
      ensures balance == Add256(old(balance), value)
      ensures txInputs == old(txInputs) + [inputHash] && txOutputs == old(txOutputs) && changed
    {
      balance := Add256(balance, value);
      txInputs := txInputs + [inputHash];
      changed := true;
    }

    method Subtract(value: Uint256, outputHash: string) returns (ok: bool)
      modifies this
      ensures ok == (value <= old(balance))
      ensures ok ==> (balance as nat) + (value as nat) == old(balance) && txOutputs == old(txOutputs) + [outputHash] && changed
      ensures !ok ==> balance == old(balance) && txOutputs == old(txOutputs) && changed == old(changed)
      ensures txInputs == old(txInputs)
    {
      if balance < value {
        return false;
      }
      balance := (balance as nat) - value;
      txOutputs := txOutputs + [outputHash];
      changed := true;
      return true;
    }
  }

  type Cache = map<Address, WalletAccount>

  /** Every account has its own wallet. */
  ghost predicate Distinct(cache: Cache) {
    forall a, b | a in cache && b in cache && a != b :: cache[a] != cache[b]
  }

  /** The wallets of the cache hold the balances of b. */
  ghost predicate Mirrors(cache: Cache, b: Balances)
    reads cache.Values
  {
    forall a | a in cache :: cache[a].balance == Get(b, a)
  }

  /** The database as `multiGet` shows it: an account whose status is not OK looks absent. */
  function Seen(db: Balances, faults: set<Address>, accounts: set<Address>): Balances {
    db - (faults * accounts)
  }

  /** What the block puts into the user database, the transaction log and the block header. */
  datatype Batch = Batch(users: Balances, written: seq<Transaction>, rejected: seq<Transaction>, blockSize: nat)

  const SIZE_LIMIT: nat := 0x1_0000_0000_0000_0000

  function AddSize(size: nat, tx: Transaction): nat {
    (size + tx.size) % SIZE_LIMIT
  }

  function Sizes(txs: seq<Transaction>): nat {
    if txs == [] then 0 else AddSize(Sizes(txs[..|txs| - 1]), txs[|txs| - 1])
  }

  /** The block size is the sum of the sizes, in 64 bits. */
  lemma {:induction false} SizesAdd(a: seq<Transaction>, b: seq<Transaction>)
    ensures Sizes(a + b) == (Sizes(a) + Sizes(b)) % SIZE_LIMIT
    decreases |b|
  {
    hide AddSize;
    if b == [] {
      assert a + b == a;
      SizesBound(a);
    } else {
      var n := |b| - 1;
      SizesAdd(a, b[..n]);
      assert (a + b)[..|a + b| - 1] == a + b[..n];
      AddModulo(Sizes(a), Sizes(b[..n]), b[n]);
    }
  }

  lemma SizesBound(txs: seq<Transaction>)
    ensures Sizes(txs) < SIZE_LIMIT
  {}

  lemma AddModulo(x: nat, y: nat, tx: Transaction)
    ensures AddSize((x + y) % SIZE_LIMIT, tx) == (x + AddSize(y, tx)) % SIZE_LIMIT
  {}

  lemma SizeOfOne(tx: Transaction)
    ensures Sizes([tx]) == tx.size % SIZE_LIMIT
  {
    assert [tx][..0] == [] && Sizes([]) == 0;
  }

  /** The effect of a block that is not the genesis block. */
  function Effect(db: Balances, txs: seq<Transaction>, faults: set<Address>, readable: bool): Batch {
    if readable then
      var b := Seen(db, faults, Accounts(txs));
      var accepted := Filtered(b, txs, true);
      Batch(map a | a in Accounts(txs) :: Get(ApplyAll(b, txs), a), accepted, Filtered(b, txs, false), Sizes(accepted))
    else
      Batch(map[], [], txs, 0)
  }

  // --------------------------------------------------------------- the phases

  /** The account list, without duplicates and in order of appearance. */
  method CollectAccounts(txs: seq<Transaction>) returns (accounts: seq<Address>)
    ensures forall a :: a in accounts <==> a in Accounts(txs)
    ensures forall i, j | 0 <= i < j < |accounts| :: accounts[i] != accounts[j]
  {
    accounts := [];
    for i := 0 to |txs|
      invariant forall a :: a in accounts <==> a in Accounts(txs[..i])
      invariant forall i, j | 0 <= i < j < |accounts| :: accounts[i] != accounts[j]
    {
      assert txs[..i + 1][..i] == txs[..i];
      if txs[i].from !in accounts { accounts := accounts + [txs[i].from]; }
      if txs[i].to !in accounts { accounts := accounts + [txs[i].to]; }
    }
    assert txs[..|txs|] == txs;
  }

  /** Loading the cache from the statuses and responses of `multiGet`. */
  method LoadCache(accounts: seq<Address>, db: Balances, faults: set<Address>) returns (cache: Cache)
    requires forall i, j | 0 <= i < j < |accounts| :: accounts[i] != accounts[j]
    ensures cache.Keys == (set a | a in accounts)
    ensures Distinct(cache) && forall a | a in cache :: fresh(cache[a])
    ensures Mirrors(cache, Seen(db, faults, cache.Keys))
  {
    ghost var seen := Seen(db, faults, set a | a in accounts);
    assert forall a | a in accounts :: Get(seen, a) == if a in db && a !in faults then db[a] else 0;
    hide Seen;
    cache := map[];
    for i := 0 to |accounts|
      invariant cache.Keys == set a | a in accounts[..i]
      invariant Distinct(cache) && forall a | a in cache :: fresh(cache[a])
      invariant Mirrors(cache, seen)
    {
      var a := accounts[i];
      var wallet: WalletAccount;
      if a in db && a !in faults {
        wallet := new WalletAccount(a, db[a]);
      } else {
        wallet := new WalletAccount(a, 0);
      }
      cache := cache[a := wallet];
    }
    assert accounts[..|accounts|] == accounts;
  }

  /** The body of the transaction loop. */
  method ProcessTransaction(cache: Cache, tx: Transaction, ghost b: Balances) returns (accepted: bool)
    requires Distinct(cache) && Mirrors(cache, b) && tx.from in cache && tx.to in cache
    modifies cache.Values
    ensures accepted == Accepts(b, tx)
    ensures Mirrors(cache, Apply(b, tx))
  {
    var senderAccount := cache[tx.from];
    var recipientAccount := cache[tx.to];
    if tx.kind == TRANSFER {
      if senderAccount.balance < tx.amount {
        return false;
      }
    }
    if tx.kind == TRANSFER_TOKENS || tx.kind == CREATE_TOKENS {
      return tx.tokensAllow;
    }
    var _ := senderAccount.Subtract(tx.amount, tx.hash);
    assert Mirrors(cache, Debit(b, tx));
    recipientAccount.Increase(tx.amount, tx.hash);
    return true;
  }

  /** The transaction loop of a block that is not the genesis block: either all accounts were loaded,
      or, when the read failed, none. */
  method ProcessAll(cache: Cache, txs: seq<Transaction>, ghost b: Balances)
    returns (written: seq<Transaction>, rejected: seq<Transaction>, blockSize: nat)
    requires Distinct(cache) && Mirrors(cache, b)
    requires Accounts(txs) <= cache.Keys || cache == map[]
    modifies cache.Values
    ensures Accounts(txs) <= cache.Keys ==>
              && written == Filtered(b, txs, true) && rejected == Filtered(b, txs, false)
              && Mirrors(cache, ApplyAll(b, txs))
    ensures cache == map[] ==> written == [] && rejected == txs
    ensures blockSize == Sizes(written)
  {
    hide Apply, Accepts, Distinct, Mirrors, AddSize;
    written, rejected, blockSize := [], [], 0;
    for i := 0 to |txs|
      invariant Accounts(txs) <= cache.Keys ==>
                  && written == Filtered(b, txs[..i], true) && rejected == Filtered(b, txs[..i], false)
                  && Mirrors(cache, ApplyAll(b, txs[..i]))
      invariant cache == map[] ==> written == [] && rejected == txs[..i]
      invariant blockSize == Sizes(written)
    {
      var tx := txs[i];
      assert txs[..i + 1][..i] == txs[..i];
      AccountsOf(txs, i);
      if tx.from !in cache || tx.to !in cache {
        rejected := rejected + [tx];
      } else {
        var accepted := ProcessTransaction(cache, tx, ApplyAll(b, txs[..i]));
        if accepted {
          assert (written + [tx])[..|written|] == written;
          written := written + [tx];
          blockSize := AddSize(blockSize, tx);
        } else {
          rejected := rejected + [tx];
        }
      }
    }
    assert txs[..|txs|] == txs;
  }

  lemma {:induction false} AccountsOf(txs: seq<Transaction>, i: nat)
    requires i < |txs|
    ensures txs[i].from in Accounts(txs) && txs[i].to in Accounts(txs)
  {
    if i < |txs| - 1 {
      AccountsOf(txs[..|txs| - 1], i);
    }
  }

  /** Serializing every cached wallet into the user batch, changed or not. */
  method WriteBack(cache: Cache) returns (users: Balances)
    ensures users == map a | a in cache :: cache[a].balance
  {
    users := map[];
    var left := cache.Keys;
    while left != {}
      invariant left <= cache.Keys && users == map a | a in cache.Keys - left :: cache[a].balance
      decreases |left|
    {
      var a :| a in left;
      users := users[a := cache[a].balance];
      left := left - {a};
    }
  }

  /** `setTxBatch` for a block after genesis with one shard.  `readable` is false when `multiGet`
      threw an I/O error, and `faults` are the accounts with a failed status of their own. */
  method SetTxBatch(txs: seq<Transaction>, db: Balances, faults: set<Address>, readable: bool) returns (batch: Batch)
    ensures batch == Effect(db, txs, faults, readable)
  {
    hide ApplyAll, Filtered;
    var accounts := CollectAccounts(txs);
    assert (set a | a in accounts) == Accounts(txs);
    var cache: Cache := map[];
    ghost var b := Seen(db, faults, Accounts(txs));
    if readable {
      cache := LoadCache(accounts, db, faults);
    }
    var written, rejected, blockSize := ProcessAll(cache, txs, b);
    var users := WriteBack(cache);
    batch := Batch(users, written, rejected, blockSize);
  }

  // ------------------------------------------------------------------ genesis

  /** In the genesis block there are no senders; a token transfer, or a token creation with a
      well-formed token, would follow a null pointer. */
  predicate NeedsSender(tx: Transaction) {
    tx.kind == TRANSFER_TOKENS || (tx.kind == CREATE_TOKENS && tx.tokensAllow)
  }

  /** The recipient's wallet exists in any case; a rejected token creation puts nothing in it. */
  function Open(b: Balances, tx: Transaction): Balances {
    if tx.MovesTokens() then b[tx.to := Get(b, tx.to)] else Credit(b, tx)
  }

  function OpenAll(txs: seq<Transaction>): Balances {
    if txs == [] then map[] else Open(OpenAll(txs[..|txs| - 1]), txs[|txs| - 1])
  }

  function Selected(txs: seq<Transaction>, tokens: bool): seq<Transaction> {
    if txs == [] then []
    else
      var n := |txs| - 1;
      Selected(txs[..n], tokens) + (if txs[n].MovesTokens() == tokens then [txs[n]] else [])
  }

  method GenesisCache(txs: seq<Transaction>) returns (cache: Cache)
    ensures cache.Keys == OpenAll(txs).Keys
    ensures Distinct(cache) && forall a | a in cache :: fresh(cache[a])
    ensures Mirrors(cache, map[])
  {
    hide Open;
    cache := map[];
    for i := 0 to |txs|
      invariant Distinct(cache) && forall a | a in cache :: fresh(cache[a])
      invariant Mirrors(cache, map[])
      invariant cache.Keys == OpenAll(txs[..i]).Keys
    {
      assert txs[..i + 1][..i] == txs[..i];
      OpenKeys(OpenAll(txs[..i]), txs[i]);
      if txs[i].to !in cache {
        var wallet := new WalletAccount(txs[i].to, 0);
        cache := cache[txs[i].to := wallet];
      }
    }
    assert txs[..|txs|] == txs;
  }

  lemma OpenKeys(b: Balances, tx: Transaction)
    ensures Open(b, tx).Keys == b.Keys + {tx.to}
  {}

  /** The body of the transaction loop in the genesis block. */
  method ProcessGenesis(cache: Cache, tx: Transaction, ghost b: Balances) returns (accepted: bool)
    requires Distinct(cache) && Mirrors(cache, b) && tx.to in cache && !NeedsSender(tx)
    modifies cache.Values
    ensures accepted == !tx.MovesTokens()
    ensures Mirrors(cache, Open(b, tx))
  {
    if tx.kind == CREATE_TOKENS {
      return false;
    }
    cache[tx.to].Increase(tx.amount, tx.hash);
    return true;
  }

  /** `setTxBatch` for the genesis block: recipients start from empty wallets and no one is debited.
      None stands for following the null sender. */
  method SetGenesisBatch(txs: seq<Transaction>) returns (batch: Option<Batch>)
    ensures batch.None? <==> exists i | 0 <= i < |txs| :: NeedsSender(txs[i])
    ensures batch.Some? ==>
              batch.value == Batch(OpenAll(txs), Selected(txs, false), Selected(txs, true), Sizes(Selected(txs, false)))
  {
    hide Open, AddSize, Mirrors, Distinct, NeedsSender;
    var cache := GenesisCache(txs);
    var written, rejected, blockSize := [], [], 0;
    for i := 0 to |txs|
      invariant forall k | 0 <= k < i :: !NeedsSender(txs[k])
      invariant Mirrors(cache, OpenAll(txs[..i]))
      invariant written == Selected(txs[..i], false) && rejected == Selected(txs[..i], true)
      invariant blockSize == Sizes(written)
    {
      var tx := txs[i];
      assert txs[..i + 1][..i] == txs[..i];
      if NeedsSender(tx) {
        return None;
      }
      Recipient(txs, i);
      var accepted := ProcessGenesis(cache, tx, OpenAll(txs[..i]));
      if accepted {
        assert (written + [tx])[..|written|] == written;
        written := written + [tx];
        blockSize := AddSize(blockSize, tx);
      } else {
        rejected := rejected + [tx];
      }
    }
    assert txs[..|txs|] == txs;
    var users := WriteBack(cache);
    assert users == OpenAll(txs) by { MirroredBalances(cache, OpenAll(txs)); }
    return Some(Batch(users, written, rejected, blockSize));
  }

  lemma MirroredBalances(cache: Cache, b: Balances)
    requires Mirrors(cache, b) && cache.Keys == b.Keys
    ensures (map a | a in cache :: cache[a].balance) == b
  {}

  lemma {:induction false} Recipient(txs: seq<Transaction>, i: nat)
    requires i < |txs|
    ensures txs[i].to in OpenAll(txs)
  {
    if i < |txs| - 1 { Recipient(txs[..|txs| - 1], i); }
  }
}
