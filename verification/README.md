# A verified model of the hashing, address, queue and ledger core

This Dafny project models seven components of the repository and proves, for all inputs and all
runs, what they are for:

- **Keccak twice.** `SHA3` permutes a flat array in place with a table of constants, `kec256` permutes
  a 5 by 5 array out of place with constants from a shift register. Both are proved to be the
  permutation of section 3 of FIPS 202, and their hashing loops to be the same sponge with different
  suffix bytes, for every message and every way of splitting it.
- **Base58 and addresses.** The in-place base conversion stays inside its buffer, denotes the right
  number, and can be inverted; every address has 31 characters and starts with `UNT`.
- **CRC-32.** The table-driven loop is the bit-serial CRC, is affine, and detects every burst of up to
  32 bits in messages of any length.
- **The blocking queue.** The linked list is a FIFO; the lock, wait and signal protocol never loses a
  wake-up and never leaves a consumer asleep beside an item, for any number of threads.
- **The ledger.** The cache of a block gives the same balances as applying its transactions one at a
  time. Over every run of blocks the total of native money is the genesis mint plus what unknown
  transaction types create less what failed reads destroy, and so stays the genesis mint without these.
- **The Merkle tree.** The recursion fills the flat array without overlap, and two different leaf
  lists of one length with one root yield a collision of SHA3-256.
- **SHA-256 and SHA-512.** The unrolled rounds are the loops of FIPS 180-4, and the streaming classes
  hash exactly the padded message.

Specifications (`Keccak`, `Sponge`, `Compress`, `BitSerialCrc`, `Decode`, `ApplyAll`, `Popped`,
`SegmentValue`, `Appended`) are written from the standards or as the simplest sequential form; the code is
modelled by methods and classes in its own imperative shape and proved against them. `bv32` and `bv64`
are wrapped in one-field datatypes (`Word`, `Lane`). `Fold` and `Rest` in `Blocks` are shared by all
four streaming hashes.

Operations and tables that a specification and the code share are pinned down by laws that do not
mention them: the lane and word operations bit by bit (`KeccakBits`, `SpongeBits`, `Sha256Laws`,
`Sha512Laws`), the SHA-2 constants as roots of primes (`Primes`), hexadecimal text by the reader that
inverts it (`DigestAddresses`), the balances by a book of accounts (`Books`), and what the queue
delivers by the calls of a run (`QueueTraces`).

Where the code does not do what one would expect, the model follows the code, the exact condition is
proved, and a concrete input shows the failure:

- SHA-512 keeps its bit length in 32 bits: its padding is that of FIPS 180-4 exactly for messages
  below 2^29 bytes (`Sha512.PaddingsAgree`, with a message in `Sha512.PaddingsDiffer`).
- SHA-512's `update` appends exactly when buffered and new length together are below 2^31 + 256. From
  there on `transform` shifts an `int` out of range and reads outside the data, and from 2^32 on the
  sum wraps and buffered bytes are lost (`Sha512.Hasher.Update`, with calls in
  `Sha512.UpdatesThatFail`).
- A transaction whose type is neither a transfer nor a token type is paid out without a balance test:
  a block conserves money exactly when every such transaction is funded
  (`Chain.BlockConservesIffFunded`, with a block in `Chain.UnknownKindMints`).
- An account whose read fails on its own is treated as empty and overwritten: a block of known types
  conserves money exactly when no such account held any (`Chain.KnownKindsConserve`, with a block in
  `Chain.FailedReadLoses`). `Chain.RunTotal` and `Chain.RunConservesIff` account for both over whole
  runs.
- The comments at unit/libdevcore/crypto/SHA3/sha3.cpp:286 and
  unit/libdevcore/crypto/SHA3/sha3.cpp:273 speak of 16 hex characters and of a "1" byte; the code
  returns bits / 4 characters and writes 0x06, and that is what is modelled.

Verify with `dafny verify dfyconfig.toml`.

## Model

| member | source | states |
|---|---|---|
| `Keccak.OffsetsFollowTheWalk` | unit/libdevcore/crypto/keccak/kec256.cpp:81-87 | the rotation offsets are those that the walk of Algorithm 2 of FIPS 202 assigns, step by step |
| `Keccak.LfsrIsRegister` | unit/libdevcore/crypto/keccak/kec256.cpp:75-76 | after any number of steps the byte `r` holds the eight bits of the register of Algorithm 5 of FIPS 202 |
| `Keccak.MaskIsRoundConstant` | unit/libdevcore/crypto/SHA3/sha3.cpp:59-69 | each of the 24 table entries is the round constant that Algorithm 6 of FIPS 202 generates |
| `Keccak.AddTermsIsXor` | unit/libdevcore/crypto/keccak/kec256.cpp:74-77 | adding the seven bits of a round one by one to any lane is adding the round constant |
| `Keccak.RhoPiLane` | unit/libdevcore/crypto/SHA3/sha3.cpp:138-209 | where rho and pi together take each lane from and by how much it is rotated |
| `Sha3Rounds.ThetaInPlace` | unit/libdevcore/crypto/SHA3/sha3.cpp:121-133 | the in-place column loop is theta of the state before it |
| `Sha3Rounds.RhoPi` | unit/libdevcore/crypto/SHA3/sha3.cpp:138-209 | the 24 moves along one cycle are rho followed by pi, no lane overwritten before it is read |
| `Sha3Rounds.ChiInPlace` | unit/libdevcore/crypto/SHA3/sha3.cpp:211-222 | the row loop with two saved lanes is chi of the state before it |
| `Sha3Rounds.PermuteInPlace` | unit/libdevcore/crypto/SHA3/sha3.cpp:120-226 | for every state the 24 in-place rounds are the Keccak permutation of FIPS 202 |
| `Kec256Rounds.ThetaStep` | unit/libdevcore/crypto/keccak/kec256.cpp:48-58 | the nested column loops are theta under lane index x + 5y |
| `Kec256Rounds.RhoPiStep` | unit/libdevcore/crypto/keccak/kec256.cpp:60-65 | the copy to [y][(2x + 3y) % 5] with the `ROTATION` table is rho followed by pi |
| `Kec256Rounds.ChiStep` | unit/libdevcore/crypto/keccak/kec256.cpp:67-71 | the copy back is chi |
| `Kec256Rounds.IotaStep` | unit/libdevcore/crypto/keccak/kec256.cpp:73-77 | seven register steps add the round constant and leave the register of the next round |
| `Kec256Rounds.Absorb` | unit/libdevcore/crypto/keccak/kec256.cpp:44-79 | for every state the 24 out-of-place rounds are the Keccak permutation of FIPS 202 |
| `Kec256Rounds.PermuteBoth` | unit/libdevcore/crypto/keccak/kec256.cpp:44-79 | started on equal states, the two implementations end in equal states |
| `KeccakBits.RotlBit` | unit/libdevcore/crypto/keccak/kec256.cpp:98-100 | rotating a lane left by any n moves the bit at z - n to z |
| `KeccakBits.AndNotBit` | unit/libdevcore/crypto/SHA3/sha3.cpp:217-221 | each bit of the nonlinear term is that of one lane where the other has none |
| `KeccakBits.ThetaBits` | unit/libdevcore/crypto/SHA3/sha3.cpp:121-133 | theta on lanes is theta on the bits A[x, y, z] of section 3.2.1 of FIPS 202 |
| `KeccakBits.RhoBits` | unit/libdevcore/crypto/keccak/kec256.cpp:64 | rho moves bit z - offset of a lane to z, as in section 3.2.2 |
| `KeccakBits.PiBits` | unit/libdevcore/crypto/keccak/kec256.cpp:64 | pi takes A[x, y, z] from A[(x + 3y) mod 5, x, z], as in section 3.2.3 |
| `KeccakBits.ChiBits` | unit/libdevcore/crypto/keccak/kec256.cpp:67-71 | chi on lanes is chi on bits, as in section 3.2.4 |
| `KeccakBits.IotaBits` | unit/libdevcore/crypto/keccak/kec256.cpp:73-77 | iota changes the bits 2^j - 1 of lane 0 by the register's output, as in section 3.2.5 |
| `KeccakBits.PermutationBits` | unit/libdevcore/crypto/keccak/kec256.cpp:44-79 | any number of rounds on lanes, and so the 24 of both implementations, are the rounds of FIPS 202 on bits |
| `Sponge.PaddedIsWhole` | unit/libdevcore/crypto/SHA3/sha3.cpp:270-283 | message and padding fill a whole number of blocks, so the sponge drops no byte |
| `Sponge.PaddedInjective` | unit/libdevcore/crypto/SHA3/sha3.cpp:270-283 | different messages are padded differently, for the suffixes 0x06 and 0x01 and all rates |
| `Sponge.DigestShape` | unit/libdevcore/crypto/SHA3/sha3.cpp:296-323 | a digest of d bytes is 2d lower-case hexadecimal characters |
| `Sponge.XorBlockAppend` | unit/libdevcore/crypto/keccak/kec256.cpp:16-17 | adding one more byte of a block changes one lane, by that byte at its place |
| `SpongeBits.XorBlockLaw` | unit/libdevcore/crypto/SHA3/sha3.cpp:114-117 | absorbing adds bit j of byte 8i + k of the block to bit 8k + j of lane i and changes no other bit |
| `SpongeBits.SqueezeLaw` | unit/libdevcore/crypto/SHA3/sha3.cpp:304-323 | byte m of the digest is bits 8(m mod 8) to 8(m mod 8) + 7 of lane m / 8 |
| `Sponge.SqueezeTellsLanes` | unit/libdevcore/crypto/keccak/kec256.cpp:35-39 | the bytes squeezed from k lanes of two states are equal exactly when the lanes are |
| `Sponge.DigestTellsLanes` | unit/libdevcore/crypto/SHA3/sha3.cpp:296-323 | two messages have one digest text of k lanes exactly when they leave the same first k lanes |
| `Sha3.Hasher.constructor` | unit/libdevcore/crypto/SHA3/sha3.cpp:39-43 | a new object of any of the four variants has been given no bytes |
| `Sha3.RateLaw` | unit/libdevcore/crypto/SHA3/sha3.cpp:40 | the capacity is twice the digest length for all four variants |
| `Sha3.Hasher.Reset` | unit/libdevcore/crypto/SHA3/sha3.cpp:47-53 | after a reset the object has been given no bytes |
| `Sha3.Hasher.ProcessBlock` | unit/libdevcore/crypto/SHA3/sha3.cpp:107-227 | one block is absorbed: its bytes added little-endian to the first lanes, then the permutation |
| `Sha3.Hasher.Add` | unit/libdevcore/crypto/SHA3/sha3.cpp:231-266 | state and buffer account for exactly the bytes given before followed by the new ones, however they fall on block borders |
| `Sha3.PadBuffer` | unit/libdevcore/crypto/SHA3/sha3.cpp:271-280 | the buffered bytes followed by suffix, zeros and the final bit, which share a byte when one is free |
| `Sha3.Hasher.ProcessBuffer` | unit/libdevcore/crypto/SHA3/sha3.cpp:270-283 | the state becomes the absorbed padded message; the buffered bytes survive |
| `Sha3.Hasher.GetHash` | unit/libdevcore/crypto/SHA3/sha3.cpp:287-330 | the digest of everything given so far, and the object still stands for the same message |
| `Sha3.HexOfState` | unit/libdevcore/crypto/SHA3/sha3.cpp:296-323 | whole lanes and then the half lane of SHA3-224 give the first bits / 8 bytes of the state in hex |
| `Sha3.Session` | unit/libdevcore/crypto/SHA3/sha3.cpp:231-346 | in any sequence of `add`, `getHash` and `reset` calls each digest is the one-shot sponge of the bytes added since the last reset |
| `Sha3.Hash` | unit/libdevcore/crypto/SHA3/sha3.cpp:334-346 | the call operator hashes its argument alone, whatever was added before |
| `Kec256.XorByte` | unit/libdevcore/crypto/keccak/kec256.cpp:16-17 | one byte is added to one lane of the state in FIPS 202 order |
| `Kec256.PaddingBytes` | unit/libdevcore/crypto/keccak/kec256.cpp:25-31 | the two bytes added to the state are the whole padding, also when they meet in the one free byte |
| `Kec256.Finish` | unit/libdevcore/crypto/keccak/kec256.cpp:25-33 | the last block absorbs the padded message |
| `Kec256.GetHash` | unit/libdevcore/crypto/keccak/kec256.cpp:7-42 | the hex digest is the 32-byte sponge of rate 136 with suffix 0x01 instead of the 0x06 of SHA3-256, for every message |
| `Base58.DigitsDenoteBytes` | unit/libdevcore/bip44/base58.hpp:26-39 | the digits always denote the big-endian value of the bytes consumed, with no superfluous top digit |
| `Base58.DigitsForBytes` | unit/libdevcore/bip44/base58.hpp:26 | 11 digits for 8 bytes are enough: 256^n <= 58^ceil(11n / 8) for every n |
| `Base58.DigitsFit` | unit/libdevcore/bip44/base58.hpp:26 | the digits of every prefix fit the buffer of 138n / 100 + 1 digits |
| `Base58.AddByte` | unit/libdevcore/bip44/base58.hpp:30-38 | the two inner loops multiply by 256 and add the byte in place; the carry stays below 256 between steps |
| `Base58.Convert` | unit/libdevcore/bip44/base58.hpp:26-39 | for every input the buffer of 138n / 100 + 1 digits ends up holding its digits and is never overrun |
| `Base58.Encode` | unit/libdevcore/bip44/base58.hpp:24-46 | one '1' for each leading zero byte but the last byte, then the digits from the top |
| `Base58.DecodeEncoded` | unit/libdevcore/bip44/base58.hpp:40-45 | a decoder after section 4 of draft-msporny-base58 recovers the exact bytes, leading zeros and the all-zero array included |
| `Base58.EncodedDecode` | unit/libdevcore/bip44/base58.hpp:40-45 | every nonempty string over the alphabet is the encoding of what it decodes to |
| `Base58.EncodedInjective` | unit/libdevcore/bip44/base58.hpp:24-46 | different nonempty arrays have different encodings |
| `Base58.SymbolRoundTrip` | unit/libdevcore/bip44/base58.hpp:7-15 | the alphabet has no symbol twice |
| `Base58.Alphabet` | unit/libdevcore/bip44/base58.hpp:7-15 | the symbols are the alphanumeric characters without '0', 'I', 'O' and 'l', in increasing order |
| `Addresses.Hex2Dec` | unit/libdevcore/bip44/addresses.hpp:7-26 | the power sum is the number the characters denote, other characters counting as 0, whenever it fits the byte |
| `Addresses.HexValueLaw` | unit/libdevcore/bip44/addresses.hpp:12-23 | digits and letters count up from 0 to 15, both cases alike |
| `Addresses.PubToAddr` | unit/libdevcore/bip44/addresses.hpp:36-69 | from the two digests on: the Base58 form of the 23 bytes, 31 characters, starting with "UNT" |
| `Addresses.AddressShape` | unit/libdevcore/bip44/addresses.hpp:59-69 | whatever the two fragments contain, the address has 31 characters and starts with "UNT" |
| `Addresses.AddressInjective` | unit/libdevcore/bip44/addresses.hpp:59-69 | two addresses are equal exactly when both hash fragments are |
| `DigestAddresses.AddressOfDigests` | unit/libdevcore/bip44/addresses.hpp:42-69 | for SHA-256 digests of any bytes: addresses agree exactly when the first 16 and the first 4 digest bytes do |
| `DigestAddresses.HexByteNumber` | unit/libdevcore/crypto/SHA3/sha3.cpp:308-310 | the two characters written for a byte denote it, high half first |
| `DigestAddresses.HexReadsBack` | unit/libdevcore/bip44/SHA256.cpp:367-375 | for every byte string, the project's reader of hexadecimal text recovers the bytes from the text the hashes write |
| `DigestAddresses.AddressDecodes` | unit/libdevcore/bip44/addresses.hpp:42-69 | decoding the address of two SHA-256 digests gives 16 D8 EE, the first sixteen bytes of one and the first four of the other |
| `Crc32.TableIsEightShifts` | src/server_library/udp/crc32.h:14-67 | each of the 256 entries is eight bit-serial shifts of its index with polynomial 0xEDB88320 |
| `Crc32.TableStepFeedsByte` | src/server_library/udp/crc32.h:74 | one pass of the loop, sign extension of `char` included, feeds one byte |
| `Crc32.FeedBitsOfByte` | src/server_library/udp/crc32.h:74 | feeding a byte is feeding its eight bits, least significant first |
| `Crc32.Compute` | src/server_library/udp/crc32.h:69-77 | for every message the result is the bit-serial CRC of section 8 of RFC 1952; a negative length hashes nothing |
| `Crc32.EmptyMessage` | src/server_library/udp/crc32.h:71-76 | the checksum of nothing is 0 |
| `Crc32.Residue` | src/server_library/udp/crc32.h:69-77 | any message with its checksum appended, least significant byte first, has checksum 0x2144DF1C |
| `Crc32.CrcOfThreeWayXor` | src/server_library/udp/crc32.h:69-77 | on equal lengths the CRC of a three-way XOR is the XOR of the three CRCs |
| `Crc32.BurstChangesRegister` | src/server_library/udp/crc32.h:69-77 | a nonzero burst of at most 32 consecutive bits, at any bit offset of a message of any length, changes the register |
| `Crc32.FourByteBurstDetected` | src/server_library/udp/crc32.h:69-77 | different messages of equal length that differ only inside four consecutive bytes have different checksums |
| `QueueList.Queue.constructor` | src/server_library/udp/queue.c:6-12 | the new queue is empty, head and tail null |
| `QueueList.CopiedHolds` | src/server_library/udp/queue.c:16-18 | a payload holds the data bytes in order and then a zero |
| `QueueList.Queue.Push` | src/server_library/udp/queue.c:14-31 | the contents grow by a terminated copy at the end; head reaches tail in exactly `count` nodes |
| `QueueList.Queue.Pop` | src/server_library/udp/queue.c:38-48 | the oldest payload is returned and removed; head and tail are null exactly when nothing is left |
| `QueueList.PoppedIsPrefix` | src/server_library/udp/queue.c:14-48 | over any interleaving the popped payloads are a prefix of those queued and pushed |
| `QueueList.Run` | src/server_library/udp/queue.c:6-48 | any interleaving on the linked list returns what a FIFO sequence returns |
| `QueueProtocol.StepKeepsInv` | src/server_library/udp/queue.c:20-45 | every step of any thread keeps mutual exclusion, the order of the list operations and the wake-up balance |
| `QueueProtocol.RunKeepsInv` | src/server_library/udp/queue.c:20-45 | in every reachable state, if a consumer sleeps then the items are at most the signals due plus the consumers woken but not yet rechecked, spurious wake-ups included |
| `QueueProtocol.OneHolder` | src/server_library/udp/queue.c:20-45 | no two threads are inside the critical sections at once |
| `QueueTraces.EachPushOnce` | src/server_library/udp/queue.c:14-31 | over every run, what each thread was told to push is what it put at the end of the list, once and in order, and the one item still pending |
| `QueueTraces.PopsReturnPushes` | src/server_library/udp/queue.c:14-48 | over every run, what was put into the list is what the pops returned, the item about to be returned and what is still queued, in this order |
| `QueueProtocol.SettledIsQuiet` | src/server_library/udp/queue.c:14-48 | no deadlock: when the begun calls cannot go on, each has returned or sleeps in the wait loop |
| `QueueProtocol.SettledServesSleepers` | src/server_library/udp/queue.c:30-37 | when the begun calls cannot go on, no consumer sleeps beside an item |
| `QueueProtocol.InternalRunsAreShort` | src/server_library/udp/queue.c:14-48 | under any schedule the begun calls settle within a bound computed from the state |
| `Ledger.ApplyAllTotal` | unit/blockHandler/TransactionProcessor.h:92-129 | applying any transactions one at a time changes the total by exactly what unknown types mint |
| `Ledger.FilteredSplits` | unit/blockHandler/TransactionProcessor.h:92-98 | every transaction is accepted or rejected, none twice |
| `Books.OneTransfer` | unit/blockHandler/TransactionProcessor.h:92-129 | a block of one transfer: rejected it changes nothing; accepted it takes the amount from the sender, adds it modulo 2^256 to the recipient and leaves all others, and everything if both are one account |
| `Books.BookIsApplied` | unit/blockHandler/TransactionProcessor.h:92-129 | applying transactions leaves each account with its start plus the amounts entered for it less those it paid, and accepts exactly those a book of accounts would enter |
| `Books.BlockIsBook` | unit/blockHandler/TransactionProcessor.h:49-165 | the same for a committed block of any types with any failed reads, for every account and the written transactions |
| `Books.KnownBlockIsBook` | unit/blockHandler/TransactionProcessor.h:49-165 | the same for transfers and token transactions on readable accounts, starting from the database |
| `Books.GenesisGrants` | unit/blockHandler/TransactionProcessor.h:53-124 | after the genesis block each account holds the sum of the amounts sent to it |
| `TransactionProcessor.WalletAccount.Increase` | unit/libdevcore/datastructures/account/WalletAccount.h:94-98 | the balance grows modulo 2^256 and the input is recorded |
| `TransactionProcessor.WalletAccount.Subtract` | unit/libdevcore/datastructures/account/WalletAccount.h:100-106 | succeeds exactly when the balance covers the value, and changes nothing otherwise |
| `TransactionProcessor.CollectAccounts` | unit/blockHandler/TransactionProcessor.h:49-54 | the accounts of all transactions, each once |
| `TransactionProcessor.LoadCache` | unit/blockHandler/TransactionProcessor.h:74-79 | one wallet of its own for each account, holding the stored balance, or 0 if absent or unreadable |
| `TransactionProcessor.ProcessTransaction` | unit/blockHandler/TransactionProcessor.h:87-130 | the cached wallets go from mirroring b to mirroring the applied transaction, also when sender and recipient are one account |
| `TransactionProcessor.ProcessAll` | unit/blockHandler/TransactionProcessor.h:82-156 | the loop mirrors the transactions applied in order and sorts them into written and rejected |
| `TransactionProcessor.SetTxBatch` | unit/blockHandler/TransactionProcessor.h:36-166 | the committed balances, the written and rejected transactions and the block size, also when nothing could be read |
| `TransactionProcessor.SizesAdd` | unit/blockHandler/TransactionProcessor.h:128 | the block size of two lists of transactions is the sum of theirs in 64 bits |
| `TransactionProcessor.SizeOfOne` | unit/blockHandler/TransactionProcessor.h:128 | and that of one transaction is its own |
| `TransactionProcessor.SetGenesisBatch` | unit/blockHandler/TransactionProcessor.h:53-166 | the genesis block credits every recipient and debits no one; it follows the null sender exactly when a token transaction gets past its checks |
| `Chain.BatchIsSequential` | unit/blockHandler/TransactionProcessor.h:49-165 | after write-back every account, cached or not, is as if the transactions had been applied one at a time to what could be read |
| `Chain.BatchIsSequentialOnDatabase` | unit/blockHandler/TransactionProcessor.h:49-165 | without failed reads that is the database itself |
| `Chain.BlockTotal` | unit/blockHandler/TransactionProcessor.h:74-165 | exact account of a committed block: what failed reads forget is lost, what unfunded unknown types credit is created |
| `Chain.KnownKindsConserve` | unit/blockHandler/TransactionProcessor.h:76-77 | a block of transfers and token transactions keeps the total exactly when no account with a failed read held money |
| `Chain.RunTotal` | unit/blockHandler/TransactionProcessor.h:74-165 | over every run of blocks of any types, with any failed reads, shards repeated or dropped, batches committed or not: total at the end plus what was lost is total at the start plus what was made, while this fits 256 bits |
| `Chain.RunConservesIff` | unit/blockHandler/TransactionProcessor.h:74-165 | such a run keeps the total exactly when it loses what it makes; with funded unknown types exactly when no failed read met money, and without such reads exactly when the unknown types were funded |
| `Chain.RunConserves` | unit/blockHandler/TransactionProcessor.h:92-165 | over every run of transfers and token transactions without failed reads the total does not change |
| `Chain.NoWrapInRun` | unit/libdevcore/datastructures/account/WalletAccount.h:94-106 | at every transaction of every run, while what the chain holds and makes fits 256 bits, a transfer is covered and the addition does not wrap |
| `Chain.GenesisMints` | unit/blockHandler/TransactionProcessor.h:53-124 | a genesis block creates exactly the sum of the amounts it credits |
| `Chain.ChainHoldsGenesisMint` | unit/blockHandler/Blockchain.h:117-127 | after the genesis transaction and any run the database holds 0x55730 plus what was made less what was lost; without unknown types and failed reads exactly 0x55730 |
| `Chain.BlockConservesIffFunded` | unit/blockHandler/TransactionProcessor.h:92-130 | with readable accounts a block of any types keeps the total exactly when its unknown types are funded |
| `Chain.UnknownKindMints` | unit/blockHandler/TransactionProcessor.h:92-130 | a block with one unfunded transaction of type 3 that creates money |
| `Chain.FailedReadLoses` | unit/blockHandler/TransactionProcessor.h:76-77 | a block with one failed read and a transfer of nothing that destroys money |
| `Merkle.MerkleTree.BuildTree` | unit/libdevcore/datastructures/trees/MerkleTree.cpp:9-23 | terminates, writes only slots of its subtree below 4n, and every visited slot holds the Merkle value of its segment |
| `Merkle.SegmentIsList` | unit/libdevcore/datastructures/trees/MerkleTree.cpp:16-21 | the value of a segment is that of its list of leaves: the hashes of the values of its two halves, left first, hashed together |
| `Merkle.MerkleTree.constructor` | unit/libdevcore/datastructures/trees/MerkleTree.cpp:25-29 | for every leaf list with n >= 1 the array of 8n slots holds the whole tree |
| `Merkle.ChildrenOnLevel` | unit/libdevcore/datastructures/trees/MerkleTree.cpp:16-18 | the children of a visited slot are on the next level and below 4n |
| `Merkle.SiblingsApart` | unit/libdevcore/datastructures/trees/MerkleTree.cpp:17-18 | sibling subtrees share no slot |
| `Merkle.MerkleTree.GetRoot` | unit/libdevcore/datastructures/trees/MerkleTree.h:27-34 | the recursive Merkle root, with one leaf hashed twice and no leaf as 32 zero bytes |
| `Merkle.SegmentCollision` | unit/libdevcore/datastructures/trees/MerkleTree.cpp:9-23 | leaf lists that differ inside a segment of equal value lead to a collision between strings hashed for it |
| `Merkle.RootBinds` | unit/libdevcore/datastructures/trees/MerkleTree.h:27-34 | different leaf lists of one length with equal roots yield a collision, one string hashed for each root, for any fixed-length hash |
| `Merkle.Sha3RootBinds` | unit/libdevcore/datastructures/trees/MerkleTree.h:43 | for SHA3-256, the hash the tree uses: equal roots mean equal leaf lists, or two different byte strings hashed for them with one SHA3-256 digest |
| `Sha256Rounds.MajIsMaj` | unit/libdevcore/bip44/SHA256.cpp:80-85 | the rewritten majority function is that of section 4.1.2 of FIPS 180-4 |
| `Sha256Rounds.RoundLine` | unit/libdevcore/bip44/SHA256.cpp:117 | one unrolled line is one round of the shifting loop with the registers renamed |
| `Sha256Rounds.EightRounds` | unit/libdevcore/bip44/SHA256.cpp:116-124 | eight lines are eight rounds, and every register is back in its place |
| `Sha256Rounds.Extend` | unit/libdevcore/bip44/SHA256.cpp:136-141 | extending the words eight at a time with the sum in another order gives the message schedule |
| `Sha256Rounds.ProcessBlock` | unit/libdevcore/bip44/SHA256.cpp:90-247 | for every hash value and block the unrolled form is the 64-round compression of section 6.2.2 of FIPS 180-4 |
| `Primes.PrimesInOrder` | unit/libdevcore/bip44/SHA256.cpp:116-236 | the table of eighty numbers behind the constants lists the primes up to 409, in order |
| `Sha256Laws.RoundConstants` | unit/libdevcore/bip44/SHA256.cpp:116-236 | each round constant is the first 32 bits of the fractional part of the cube root of its prime (section 4.2.2 of FIPS 180-4) |
| `Sha256Laws.InitialHashValue` | unit/libdevcore/bip44/SHA256.cpp:26-37 | the initial hash value is that of the square roots of the first eight primes (section 5.3.3) |
| `Sha256Laws.ChLaw` | unit/libdevcore/bip44/SHA256.cpp:76 | each bit of the first chooses between those of the other two |
| `Sha256Laws.MajLaw` | unit/libdevcore/bip44/SHA256.cpp:83 | each bit is the majority of three |
| `Sha256Laws.BigSigma0Law` | unit/libdevcore/bip44/SHA256.cpp:82 | each bit is the parity of three bits, taken from the places the three rotations name |
| `Sha256Laws.BigSigma1Law` | unit/libdevcore/bip44/SHA256.cpp:75 | the same for the second function |
| `Sha256Laws.SmallSigma0Law` | unit/libdevcore/bip44/SHA256.cpp:139 | the same with two rotations and a shift that brings in zeros |
| `Sha256Laws.SmallSigma1Law` | unit/libdevcore/bip44/SHA256.cpp:141 | the same for the second schedule function |
| `Sha256Laws.AddLaw` | unit/libdevcore/bip44/SHA256.cpp:117 | addition of words is binary addition with carries, the last one lost |
| `Sha256Laws.LoadLaw` | unit/libdevcore/bip44/SHA256.cpp:102-112 | the bits of a loaded word are those of its bytes, most significant byte first |
| `Sha256.Hasher.Reset` | unit/libdevcore/bip44/SHA256.cpp:18-37 | the initial hash value, no bytes given |
| `Sha256.Hasher.Add` | unit/libdevcore/bip44/SHA256.cpp:251-291 | hash value and buffer account for exactly the bytes given before followed by the new ones |
| `Sha256.Hasher.ProcessBuffer` | unit/libdevcore/bip44/SHA256.cpp:295-357 | the hash value becomes that of the message padded as in section 5.1.1 of FIPS 180-4 |
| `Sha256.PaddedLength` | unit/libdevcore/bip44/SHA256.cpp:303-316 | the bit arithmetic pads to byte 56 of this block, or of the next from 56 buffered bytes on |
| `Sha256.PadBuffer` | unit/libdevcore/bip44/SHA256.cpp:318-350 | the padding ends up in the buffer or spills into the second block, length last |
| `Sha256.MessageBits` | unit/libdevcore/bip44/SHA256.cpp:333-350 | although the counters wrap at 2^64, the eight length bytes are those of the true bit length |
| `Sha256.Hasher.GetHash` | unit/libdevcore/bip44/SHA256.cpp:382-403 | the 32 digest bytes of everything given so far, and the object still stands for the same message |
| `Sha256.HashText` | unit/libdevcore/bip44/SHA256.cpp:361-378 | the same in hexadecimal |
| `Sha256.Session` | unit/libdevcore/bip44/SHA256.cpp:251-421 | in any sequence of `add`, `getHash` and `reset` calls each digest is the SHA-256 of the bytes added since the last reset |
| `Sha256.DigestShape` | unit/libdevcore/bip44/SHA256.cpp:361-378 | every digest text is 64 lower-case hexadecimal characters |
| `Sha256.PaddedIsWhole` | unit/libdevcore/bip44/SHA256.cpp:295-357 | the padded message is a whole number of blocks |
| `Sha256.DigestTellsHashValue` | unit/libdevcore/bip44/SHA256.cpp:361-403 | two messages have one digest text exactly when they have one hash value |
| `Sha512Rounds.ShiftRegisters` | unit/libdevcore/crypto/SHA512/SHA512.cpp:68-78 | the shifting assignments are one round of section 6.4.2 of FIPS 180-4 |
| `Sha512Rounds.TransformBlock` | unit/libdevcore/crypto/SHA512/SHA512.cpp:57-83 | one block is the 80-round compression |
| `Sha512Rounds.Transform` | unit/libdevcore/crypto/SHA512/SHA512.cpp:49-85 | the blocks are compressed one after the other; the `int` shift leaves the message exactly when there are more than 2^24 blocks |
| `Sha512Laws.RoundConstants` | unit/libdevcore/crypto/SHA512/SHA512.cpp:7-47 | each round constant is the first 64 bits of the fractional part of the cube root of its prime (section 4.2.3 of FIPS 180-4) |
| `Sha512Laws.InitialHashValue` | unit/libdevcore/crypto/SHA512/SHA512.cpp:89-96 | the initial hash value is that of the square roots of the first eight primes (section 5.3.5) |
| `Sha512Laws.ChLaw` | unit/libdevcore/crypto/SHA512/SHA512.h:39 | each bit of the first chooses between those of the other two |
| `Sha512Laws.MajLaw` | unit/libdevcore/crypto/SHA512/SHA512.h:40 | each bit is the majority of three |
| `Sha512Laws.BigSigma0Law` | unit/libdevcore/crypto/SHA512/SHA512.h:41 | each bit is the parity of three bits, taken from the places the three rotations name |
| `Sha512Laws.BigSigma1Law` | unit/libdevcore/crypto/SHA512/SHA512.h:42 | the same for the second function |
| `Sha512Laws.SmallSigma0Law` | unit/libdevcore/crypto/SHA512/SHA512.h:43 | the same with two rotations and a shift that brings in zeros |
| `Sha512Laws.SmallSigma1Law` | unit/libdevcore/crypto/SHA512/SHA512.h:44 | the same for the second schedule function |
| `Sha512Laws.AddLaw` | unit/libdevcore/crypto/SHA512/SHA512.cpp:68-78 | addition of words is binary addition with carries, the last one lost |
| `Sha512Laws.LoadLaw` | unit/libdevcore/crypto/SHA512/SHA512.h:63-73 | the bits of a loaded word are those of its bytes, most significant byte first |
| `Sha512.Hasher.Init` | unit/libdevcore/crypto/SHA512/SHA512.cpp:87-99 | the initial hash value of section 5.3.5 of FIPS 180-4, no bytes given |
| `Sha512.Hasher.Update` | unit/libdevcore/crypto/SHA512/SHA512.cpp:101-122 | buffered and new length below 2^31 + 256: appends; from there to 2^32: reads outside the data; from 2^32 on: exactly which bytes are lost |
| `Sha512.UpdatesThatFail` | unit/libdevcore/crypto/SHA512/SHA512.cpp:101-122 | one call of each of the two failing kinds |
| `Sha512.Hasher.Final` | unit/libdevcore/crypto/SHA512/SHA512.cpp:124-141 | the digest of everything appended, padded with a 32-bit length, spilling into a second block from 112 bytes on |
| `Sha512.PadBlock` | unit/libdevcore/crypto/SHA512/SHA512.cpp:133-136 | zeros, 0x80 over the first and the length over the last four bytes |
| `Sha512.PaddingsAgree` | unit/libdevcore/crypto/SHA512/SHA512.cpp:130-136 | the padding is that of section 5.1.2 of FIPS 180-4 exactly for messages below 2^29 bytes |
| `Sha512.PaddingsDiffer` | unit/libdevcore/crypto/SHA512/SHA512.cpp:130-136 | 2^29 zero bytes are padded differently |
| `Sha512.Sha512Hex` | unit/libdevcore/crypto/SHA512/SHA512.cpp:143-157 | the hex digest of the input, its length taken modulo 2^32, exactly when that is below 2^31 + 256; below 2^29 bytes it is SHA-512 |
| `Sha512.FedJoined` | unit/libdevcore/crypto/SHA512/SHA512.cpp:101-122 | below 2^31 + 256 bytes in all, any splitting into `update` calls appends everything |
| `Sha512.Session` | unit/libdevcore/crypto/SHA512/SHA512.cpp:87-141 | `init`, any `update` calls and `final` give the digest of what was appended; below 2^29 bytes in all it is SHA-512 of the joined chunks |
| `Sha512.PaddedIsWhole` | unit/libdevcore/crypto/SHA512/SHA512.cpp:130-137 | both paddings give a whole number of blocks |
| `Sha512.DigestTellsHashValue` | unit/libdevcore/crypto/SHA512/SHA512.cpp:138-156 | two padded messages have one digest text exactly when they have one hash value |

## Left out

- OpenSSL-backed code: curve arithmetic, HMAC, PBKDF2 and the BIGNUM conversions that feed `pub2addr` (which drop leading zero bytes); the model takes the bytes to be hashed as arbitrary.
- RocksDB, JSON, HTTP, websocket and socket code: reads and commits are parameters (`readable`, `faults`, `committed`), well-formed stored wallets are assumed, and the path that exits the process on a corrupt database is not modelled.
- Token balances: the outcome of the checks on a token transaction is the field `tokensAllow`; what it does to token balances is not modelled, and neither are exceptions from malformed JSON fields.
- Account history: it is re-read from storage for every transfer and the recipient's under the sender's key, so the recorded inputs and outputs of the wallets are not followed beyond one call.
- Blocks with several shards: cached wallets are deleted after each shard but stay in the map, so a second shard works on freed memory; the model has one shard per block, also for genesis.
- Removal of rejected transactions from the shard, the hand-off of shards and the draining of the pool: the containers do not shrink or pop as their callers expect.
- `Block::generateMerkleRoot`, which prepends empty leaves, and `concat` with a missing argument, which the tree never passes.
- BIP39 mnemonics, mutex-wrapped containers, RPC filters, thread pool and HMAC_512: they would only add easy members.
- Base58.Encode: the empty input is excluded, because data.size() - 1 wraps around there and the loop reads outside the vector, and so are inputs of 2^64 / 138 bytes or more, where data.size() * 138 wraps in `size_t`; the shift by eight and the byte casts are exact on the values that occur.
- Base58.Convert: the same upper limit.
- Merkle.MerkleTree.constructor: the empty list is excluded, because its recursion never reaches the base case, and so are 2^53 leaves or more, where the midpoint would lose bits in a double.
- Addresses.Hex2Dec: the sum must fit the byte and the string 256 characters; beyond that `result +=` converts a `double` out of the range of `uint8_t`, or an infinite power, which is undefined in C++.
- Addresses.PubToAddr: starts from the two digest strings of 64 characters.
- Following a null sender in the genesis block, and reading outside the data in SHA-512: the models return None or false there and say nothing about what happens next.
- Shards with 2^31 accounts or more, where the `int` index over the read statuses would overflow.
- QueueList.Queue.Push: `malloc` does not fail and the `int` counter does not overflow; payloads are copied values, so that the caller's buffer cannot alias them.
- QueueProtocol: `pthread_cond_signal` wakes at least one waiting thread, and lock and wait are atomic steps; nothing is said about fairness between threads.
- Kec256.GetHash: `len` does not exceed the string and is below 2^31, where the `int` loop counter would overflow; rotation by 0, which shifts a 64-bit value by 64 in C++, is the identity.
- Big-endian hosts, for which the byte swaps under `__BYTE_ORDER` change, and the SHA-224 seed values behind `SHA2_224_SEED_VECTOR`.
- Pointer aliasing of input data: data is passed by value.
