# Verified models of the node's stateful core

This project models the parts of the SmartCash node that keep redundant state, follow a protocol
or do exact arithmetic, and proves what they promise. Each component is one or more modules:

- **Unspent-output caches** (`Coins`, `CoinsViewCache`): write-back caches with DIRTY and FRESH
  flags over a disk map. Values first, then the objects that update them in place.
- **Verification queue** (`CheckQueue`, `CheckQueueProtocol`): one master and any number of workers,
  one atomic step for each critical section, every interleaving.
- **Address manager** (`AddrMan`, `AddrManConsistency`, `AddrManOperations`, `AddrManCheck`,
  `AddrManObject`, `AddrManStore`, `AddrManStoreProofs`, `AddrManLoads`): six structures that describe
  one set of addresses, the consistency check the program carries, and the file format.
- **Partial Merkle trees** (`MerkleLevels`, `PartialMerkle`, `PartialMerkleProofs`, `PartialMerkleShapes`,
  `PartialMerkleSizes`, `PartialMerkleTree`): the format of BIP 37, section "Partial Merkle branch format".
- **Big integers and targets** (`Bits`, `Arithmetic`, `Limbs`, `LimbShifts`, `BaseUint`,
  `CompactTarget`): limb arithmetic as arithmetic modulo 2^256, the compact form, block work.
- **Block index and chain** (`SkipList`, `BlockIndex`, `Chain`): skip pointers, how many of them a walk
  follows at most, and the active chain by height.
- **Rolling bloom filter** (`BloomWords`, `RollingBloom`): two-bit generations packed into words.
- **Block assembly** (`BlockAssembly`, `BlockAssembler`): the selection loop and its waiting sets.
- **Codecs and streams** (`Radix`, `Base58`, `Base58Codec`, `Mnemonic`, `MnemonicCodec`,
  `NetMessages`, `NetNode`, `NetSend`): base58, BIP 39 (section "Generating the mnemonic") and the
  framing, receiving and sending of peer-to-peer messages.
- `Helpers` holds what several of these share.

Wherever the program updates something in place, a class with the program's fields does so too. Its
methods are proved against functions on values, and the theorems are about those functions.

`dafny verify dfyconfig.toml` checks everything.

## Findings

Properties the program, its comments or its interface suggest, and that do not hold of the code.
Each has an input or the exact condition under which the property does hold, or both.

- `Flush` can lose a best block (src/coins.cpp:135-139, 197-206). A cache that never asked for the
  best block writes the null hash over what its parent knew. `Coins.FlushBestBlock` is the exact
  condition, `Coins.FlushLosesBestBlock` a legal run of four operations that loses block 2.
- `Add_` returns true for an entry it has already deleted (src/addrman.cpp:304-331):
  `AddrManOperations.AddKeepsExactly` says exactly when the new address is kept,
  `AddrManOperations.AddForgets` is a run of two additions to a new manager.
- `Check_` accepts states that are not consistent (src/addrman.cpp:404-478): it misses stray entries
  of `mapAddr`, an entry with id 0 that is missing from `mapAddr`, and ids outside the range given
  out so far. `AddrManCheck.CheckMeaning` is the exact relation. A file that holds the same address
  twice leads there: pruning the second copy takes the address of the first away, and
  `Check_` passes (`AddrManLoads.TwiceLoads`). It then puts that one address back by looking it up
  (`AddrManCheck.CheckMends`). A file that names no IP twice always loads into a consistent manager
  (`AddrManLoads.LoadIsConsistent`).
- `Clear` does not reset a manager that holds something (src/addrman.h:456-475, src/net.cpp:2296): the
  maps `mapInfo` and `mapAddr` keep their entries. The result is consistent if and only if both were
  empty (`AddrManConsistency.ClearedInv`); a load that failed after its first entry is such a case
  (`AddrManLoads.ClearAfterFailure`).
- A partial Merkle tree can have more than 2N-1 flag bits, and its encoding can be larger than
  10 + ceil(32.25 N) bytes (src/merkleblock.h:31-47). The first fails whenever a last node with a
  match under it has a single child, as for the last of three transactions
  (`PartialMerkleSizes.SizeBounds`, `TooManyBits`). The second fails for 1012 transactions that are
  all matched, by one byte (`PartialMerkleSizes.TooBig`), and for every tree with more than 65535
  hashes; `PartialMerkleSizes.SizeGuarantee` is the exact condition.
- `ExtractMatches` accepts trees that the program does not build (src/merkleblock.cpp:98-181), so the same
  matches have several encodings: a node may be open with no match under it.
  `PartialMerkleShapes.AcceptedIsPruned` and `PrunedIsAccepted` say exactly what is accepted,
  `BuiltIffTight` which of it is built, and `LooseTree` is the smallest example.
- `a *= a` gives zero (src/arith_uint256.cpp:70-71): `BaseUint.base_uint.MulAssign`.
- A division by zero leaves zero in the receiver, which is cleared before the test
  (src/arith_uint256.cpp:88-92): `BaseUint.base_uint.DivAssign`.
- `FromData` makes sentences of 15 and 21 words, from 20 and 28 bytes, that `Check` rejects
  (src/bip39.cpp:48, 95): `Mnemonic.SentenceAccepted` is the exact condition.
- `SpendCoin` returns true for a cached coin that is already spent (src/coins.cpp:98-112); its effect
  on the view is right: `CoinsViewCache.CoinsViewCache.SpendCoin`, `Coins.SpendIsRemoval`. The entry
  that it then finds is there after spending any coin that was loaded from the base
  (`Coins.SpendLeavesEntry`).
- A non-overwriting `AddCoin` of a coin that the base still has is not noticed and breaks the FRESH
  flag (src/coins.cpp:67-86): `Coins.AddNeedsAbsence` is the exact condition. With an empty cache over
  a disk that has the coin, adding and spending it brings the disk's coin back (`Coins.AddHidesCoin`).

## Model

| member | source | states |
|---|---|---|
| Coins.RunRefines | src/coins.cpp:41-215 | over any legal run of push, pop, flush, fetch, add, spend, uncache and best-block operations nothing throws, flags and memory counters stay right, every layer shows the coins and has the best block hash of its own that a stack of plain layers would, and the block the top reports is theirs |
| Coins.StepRefines | src/coins.cpp:41-215 | one legal operation keeps the invariant, throws nothing and does to all views and all best block hashes what it does to plain layers: a push gives no hash, a flush passes it on, asking is remembered, nothing else touches it |
| Coins.FlushPreservesViews | src/coins.cpp:145-206 | after a flush the parent shows what the child showed, and so does the child, which is empty and keeps its hash; the parent's flags are right against the grandparent |
| Coins.FlushNeverThrows | src/coins.cpp:165-171 | the "FRESH flag misapplied" exception cannot occur in a state the operations can reach |
| Coins.MergeKeepsFlags | src/coins.cpp:145-199 | merging a child's entries into a parent keeps DIRTY and FRESH true of the grandparent, and the overlay of both |
| Coins.AddIsUpdate | src/coins.cpp:67-86 | adding a coin that is absent, or may be overwritten, updates the view at that outpoint; an unspendable one changes nothing; the best block stays |
| Coins.AddNeedsAbsence | src/coins.cpp:67-86 | a non-overwriting add is safe if and only if the view has no such coin |
| Coins.AddHidesCoin | src/coins.cpp:67-112 | adding a coin that only the disk has does not throw; after spending it the disk's coin is in the view again |
| Coins.AddIsNoticedLate | src/coins.cpp:67-206 | with a layer between that has the coin cached, the same mistake is noticed by the flush |
| Coins.FlushThrowsExactly | src/coins.cpp:165-171 | a flush throws if and only if a coin marked as absent below would be written over one that the layer below has cached and shows |
| Coins.SpendIsRemoval | src/coins.cpp:98-112 | spending removes the coin from the view, whether the entry is erased or cleared, and keeps the best block |
| Coins.SpendLeavesEntry | src/coins.cpp:98-112 | spending a coin loaded from the base leaves a spent entry that is found again, with no coin in the view |
| Coins.FetchIsRead | src/coins.cpp:41-56 | loading a coin into every layer on the way changes no view and no best block; it is cached afterwards if and only if it was, or the base has it |
| Coins.LearnBestIsRead | src/coins.cpp:135-139 | asking for the best block changes no view and not the answer, which is the hash of the first layer that has one; every layer above that one learns it |
| Coins.UncacheIsInvisible | src/coins.cpp:208-215 | dropping a clean entry keeps the view, the best block and the invariant; only flagged entries stay cached |
| Coins.UnmarkFreshIsSafe | src/coins.h:109-116 | not marking FRESH changes neither the view nor what a flush writes |
| Coins.FlushBestBlock | src/coins.cpp:197-206 | the exact condition under which a flush hands on the best block |
| Coins.FlushLosesBestBlock | src/coins.cpp:135-206 | a legal run whose flush turns best block 2 back into 1 |
| Coins.UsageUpdate | src/coins.cpp:54-85 | replacing one entry changes the sum of cached bytes by the difference of the two coins |
| CoinsViewCache.CoinsViewDB.BatchWrite | src/txdb.cpp:86-109 | dirty entries are written or erased in any order with one effect, and the child's map is emptied; a null hash keeps the best block |
| CoinsViewCache.CoinsViewCache.FetchCoin | src/coins.cpp:41-56 | the in-place load has the effect of Fetch on the whole stack |
| CoinsViewCache.CoinsViewCache.GetCoin | src/coins.cpp:58-65 | found if and only if the view has the coin, and then that coin |
| CoinsViewCache.CoinsViewCache.HaveCoin | src/coins.cpp:125-128 | true if and only if the view has the coin |
| CoinsViewCache.CoinsViewCache.AccessCoin | src/coins.cpp:116-123 | the view's coin, or a spent one if and only if the view has none |
| CoinsViewCache.CoinsViewCache.AddCoin | src/coins.cpp:67-86 | throws exactly over a cached unspent coin, which stays but is no longer counted; else has the effect of Add |
| CoinsViewCache.CoinsViewCache.SpendCoin | src/coins.cpp:98-112 | has the effect of Spend; hands out the view's coin if there is one, and is true also for a cached spent entry |
| CoinsViewCache.CoinsViewCache.WriteEntry | src/coins.cpp:147-193 | one round of BatchWrite: the entry's new fate, or the exception, and the change of the memory counter |
| CoinsViewCache.CoinsViewCache.BatchWrite | src/coins.cpp:145-199 | throws if and only if some entry is misapplied, whatever the order of visits; then the entries visited before it are merged and gone from the child's map, and the others are left; else the effect does not depend on the order and the map is empty |
| CoinsViewCache.CoinsViewCache.Flush | src/coins.cpp:201-206 | has the effect of Flush on the stack; an exception leaves the child exactly the entries that were not visited, uncounted for, and the parent with the visited ones |
| CoinsViewCache.CoinsViewCache.Uncache | src/coins.cpp:208-215 | has the effect of Uncache |
| CoinsViewCache.CoinsViewCache.GetBestBlock | src/coins.cpp:135-139 | the stack's best block, remembered by every layer that was asked |
| CheckQueue.BatchSizeBounds | src/checkqueue.h:105-110 | a batch has at least one check, no more than are queued and no more than the batch limit |
| CheckQueue.BatchIsFairShare | src/checkqueue.h:105-110 | a batch is the largest number within the limit that every thread could take, with the waiting ones counted twice, or one |
| CheckQueue.CCheckQueue.Add | src/checkqueue.h:146-158 | appends all checks, counts them as to be done, and notifies nobody for none, one worker for one and all of them for more |
| CheckQueue.CCheckQueue.Critical | src/checkqueue.h:77-120 | one critical section of the loop: clean-up, and then return, sleep or a batch, and whether the master is notified |
| CheckQueue.CCheckQueue.TakeBatch | src/checkqueue.h:111-117 | moves the newest checks, newest first, out of the queue |
| CheckQueue.CCheckQueue.IsIdle | src/checkqueue.h:164-168 | true exactly when everyone sleeps, nothing is left to do and the result is reset |
| CheckQueueProtocol.StepInv | src/checkqueue.h:69-158 | every step of every thread keeps the invariant: counters equal to what they count, each check queued or in one batch, verdicts right |
| CheckQueueProtocol.AddWakes | src/checkqueue.h:146-158 | after adding two checks or more no worker sleeps; after adding one there is one sleeper fewer if there was any; nobody else moves |
| CheckQueueProtocol.QueuedChecksHaveWorkers | src/checkqueue.h:69-158 | in no reachable state with a worker are checks queued while every worker sleeps |
| CheckQueueProtocol.FailureSkips | src/checkqueue.h:80-125 | once a round has failed, the checks of every batch taken later are skipped |
| CheckQueueProtocol.WaitCorrect | src/checkqueue.h:69-143 | in every interleaving Wait returns true if and only if every check added since the last return is good; then all of them ran, and none was run or skipped twice |
| CheckQueueProtocol.IdleMeaning | src/checkqueue.h:164-168 | the counters say idle if and only if nothing is queued, no thread has a batch and every check of the round was good |
| CheckQueueProtocol.IdleBetweenRounds | src/checkqueue.h:164-191 | before anything is added to a new round the queue is idle: nothing leaks from the last one |
| CheckQueueProtocol.NoDeadlock | src/checkqueue.h:76-126 | until Wait returns some thread can make a step other than a spurious wake-up |
| CheckQueueProtocol.WaitIsBounded | src/checkqueue.h:76-126 | steps inside one Wait are at most the work at its start and one for each spurious wake-up |
| CheckQueueProtocol.LastReportWakesMaster | src/checkqueue.h:80-85 | a sleeping master is woken exactly by the report that leaves nothing to do, and can return then |
| CheckQueueProtocol.CountersNonNegative | src/checkqueue.h:46-60 | the counters never go below zero |
| AddrManOperations.RunInv | src/addrman.cpp:105-354 | every state a new manager can reach, with any times, hashes and random choices, is consistent |
| AddrManOperations.RunTimes | src/addrman.cpp:214-354 | the times in every state of a run pass `Check_` if and only if every operation on a known address is told a time that passes |
| AddrManOperations.AddInv | src/addrman.cpp:266-332 | adding keeps the invariant on the known, kept, overwriting and deleted paths |
| AddrManOperations.GoodInv | src/addrman.cpp:214-264 | marking good keeps the invariant, with the eviction back to new |
| AddrManOperations.GoodTimes | src/addrman.cpp:214-264 | after marking good all times pass `Check_` if and only if the time was positive or the address not known |
| AddrManOperations.GoodRecords | src/addrman.cpp:214-264 | marking good records the time, forgets failures and makes the address tried; no other record changes, whoever is moved or displaced |
| AddrManOperations.GoodLoses | src/addrman.cpp:166-264 | at most one entry is lost over it, the one whose last reference is where the displaced address goes |
| AddrManOperations.GoodIsNotTerrible | src/addrman.cpp:50-68 | right after being marked good an address is not terrible |
| AddrManOperations.AttemptInv | src/addrman.cpp:334-354 | recording an attempt keeps the invariant |
| AddrManOperations.AttemptTimes | src/addrman.cpp:334-354 | after an attempt all times pass `Check_` if and only if the time was not negative or the address not known |
| AddrManOperations.AttemptRecords | src/addrman.cpp:334-354 | an attempt records its time, and is counted if none was since the last success of the manager; nothing else changes |
| AddrManOperations.SecondAttempt | src/addrman.cpp:345-353 | a second attempt is not counted before another success |
| AddrManOperations.ConnectedInv | src/addrman.cpp:502-520 | recording a connection keeps the invariant |
| AddrManOperations.SetServicesInv | src/addrman.cpp:522-538 | changing service bits keeps the invariant |
| AddrManOperations.ConnectionRecords | src/addrman.cpp:502-538 | a connection moves the time if it is more than 20 minutes later, services are replaced, and nothing else changes |
| AddrManOperations.TerribleWhen | src/addrman.cpp:50-68 | when an address not tried in the last minute is terrible, and when it is not |
| AddrManOperations.SweepClears | src/addrman.cpp:166-182 | after the sweep over all new buckets the entry has no references left, so the assertion after it holds |
| AddrManOperations.GoodMovesToTried | src/addrman.cpp:166-264 | a known new address ends in its tried slot, and whoever had that slot is in new exactly once |
| AddrManOperations.BucketIsFound | src/addrman.cpp:242-258 | some new bucket holds a new entry, so the bail-out is unreachable |
| AddrManOperations.AddKeepsExactly | src/addrman.cpp:304-331 | when an address for which true is returned is kept |
| AddrManOperations.AddRecords | src/addrman.cpp:266-332 | adding gives a known address what was heard and a new one a record of its own; no other record changes |
| AddrManOperations.RefreshIsForward | src/addrman.cpp:275-283 | hearing of an address never makes it look older, and newer only past the margin of an hour or a day; services are added |
| AddrManOperations.KnownGetsReference | src/addrman.cpp:285-324 | exactly when a known address gets another reference, and that nothing else in the new table changes |
| AddrManOperations.AddLoses | src/addrman.cpp:304-331 | only a terrible address with its last reference in the wanted slot can be lost to another one |
| AddrManOperations.AddForgets | src/addrman.cpp:304-331 | two additions to a new manager after which the second address is unknown though true was returned |
| AddrManConsistency.ClearedInv | src/addrman.h:456-475 | clearing leaves a consistent manager if and only if both maps were empty |
| AddrManCheck.Check_ | src/addrman.cpp:404-478 | the program's own check, with its counting loops, returns 0 if and only if every condition holds, and otherwise a code whose fault is there; addresses that are missing come into the map with 0 as they are looked up |
| AddrManCheck.CheckMeaning | src/addrman.cpp:404-478 | the invariant, with times that pass, is that check together with three facts it does not look at |
| AddrManCheck.CheckMends | src/addrman.cpp:428-429 | a `Check_` that passes puts back a missing address of entry 0, and no other |
| AddrManObject.CAddrMan.constructor | src/addrman.h:456-480 | a new manager is empty and consistent |
| AddrManObject.CAddrMan.Clear | src/addrman.h:456-475 | order, tables and counters are reset, the two maps are not |
| AddrManObject.CAddrMan.Create | src/addrman.cpp:105-115 | a new entry at the end of the random order, found by its IP |
| AddrManObject.CAddrMan.SwapRandom | src/addrman.cpp:117-135 | two ids trade places and their entries follow |
| AddrManObject.CAddrMan.Delete | src/addrman.cpp:137-149 | the entry leaves the random order, both maps and the count |
| AddrManObject.CAddrMan.ClearNew | src/addrman.cpp:151-164 | the slot is emptied, and its entry deleted if that was the last reference |
| AddrManObject.CAddrMan.MakeTried | src/addrman.cpp:166-212 | no assertion fails, and the effect is that of MakeTried on values |
| AddrManObject.CAddrMan.Good_ | src/addrman.cpp:214-264 | the effect of Good for any time, whatever bucket the search starts from |
| AddrManObject.CAddrMan.Add_ | src/addrman.cpp:266-332 | the effect of Add, and the returned flag exactly |
| AddrManObject.CAddrMan.Attempt_ | src/addrman.cpp:334-354 | the effect of Attempt |
| AddrManObject.CAddrMan.Connected_ | src/addrman.cpp:502-520 | the effect of Connected |
| AddrManObject.CAddrMan.SetServices_ | src/addrman.cpp:522-538 | the effect of SetServices |
| AddrManObject.CAddrMan.GetAddr_ | src/addrman.cpp:481-500 | the largest number of addresses within 23 percent and 2500, or all that are not terrible; none terrible, none twice; only the order of the entries changes |
| AddrManObject.CAddrMan.Serialize | src/addrman.h:296-343 | writes exactly Save of the state; neither counting assertion fails |
| AddrManObject.CAddrMan.Unserialize | src/addrman.h:346-449 | reads any well-formed file as Load does, collisions and unusable positions included, and refuses exactly those over the limits |
| AddrManStoreProofs.LoadSave | src/addrman.h:266-449 | saving a consistent manager and loading it loses nothing: the same entries, slots, counters and key with ids renumbered, consistent again, with times that pass if they did |
| AddrManStoreProofs.SavedWithinLimits | src/addrman.h:366-372 | a consistent manager never writes a file that the loader refuses |
| AddrManLoads.LoadIsConsistent | src/addrman.h:346-449 | any file that names no IP twice, with a key, loads into a consistent manager, whatever collides, is for another version or makes no sense in it; its times pass `Check_` if those in the file do |
| AddrManLoads.TwiceLoads | src/addrman.h:374-449 | a file that holds an address twice loads into a manager that passes `Check_` and is not consistent |
| AddrManLoads.ClearAfterFailure | src/net.cpp:2293-2299 | a load that failed after its first entry leaves a manager that Clear does not make consistent |
| PartialMerkle.NodeExists | src/merkleblock.h:65-68 | the computed width is exact: a node is within it if and only if it has a transaction |
| PartialMerkleProofs.ExtractMatchesSound | src/merkleblock.cpp:98-181 | whatever tree extracts to the Merkle root of a list, its matches are in that list, in list order |
| PartialMerkleProofs.ExtractsWhatWasBuilt | src/merkleblock.cpp:80-181 | any selection of distinct transactions, built, packed, unpacked and extracted, gives the Merkle root and exactly the selection |
| PartialMerkleProofs.UnpackPack | src/merkleblock.h:87-105 | unpacking packed flag bits gives them back, then false ones up to a whole byte |
| PartialMerkleProofs.HashesPerMatch | src/merkleblock.h:36-40 | hashes under a node are at most one and the height for each match under it |
| PartialMerkleShapes.AcceptedIsPruned | src/merkleblock.cpp:98-181 | whatever extracts to the Merkle root of a list is the encoding of that tree pruned somewhere, every hash and all flag bits but the padding included, with no two equal siblings; the matches are its marked leaves |
| PartialMerkleShapes.PrunedIsAccepted | src/merkleblock.cpp:98-181 | every such encoding is accepted and yields its marked leaves |
| PartialMerkleShapes.BuiltIffTight | src/merkleblock.cpp:80-96 | such an encoding is one the program builds if and only if every open node has a match under it |
| PartialMerkleShapes.LooseTree | src/merkleblock.cpp:98-181 | a tree over two transactions that is accepted and that the program would not build |
| PartialMerkleShapes.RefusedOutright | src/merkleblock.cpp:152-162 | a bad tree, one over no transactions or too many, and one with more hashes than transactions is refused |
| PartialMerkleShapes.PackedWeight | src/merkleblock.h:99-103 | flag bit p is worth 2^(p % 8) in byte p / 8 |
| MerkleLevels.RootByLevels | src/merkleblock.cpp:63-78 | the recursive root is what pairing up neighbours level by level leads to, the odd one out with itself |
| PartialMerkleProofs.BuildSizes | src/merkleblock.cpp:80-96 | under every node flag bits are twice the hashes less one, and one more for each single child; hashes are no more than transactions |
| PartialMerkleSizes.SizeBounds | src/merkleblock.h:36-47 | both documented bounds on hashes hold; flag bits are 2N-1 and one for each single child, so the third holds if and only if there is none |
| PartialMerkleSizes.TreeSingles | src/merkleblock.cpp:90-95 | nodes with a single child are the last ones at heights where the width below is odd and something under them is matched |
| PartialMerkleSizes.SizeGuarantee | src/merkleblock.h:31-47 | the encoded size is within 10 + ceil(32.25 N) if and only if N is at most 65535 and the single children fit into the slack |
| PartialMerkleSizes.TooManyBits | src/merkleblock.h:47 | three transactions with the last one matched take more than 2N-1 flag bits |
| PartialMerkleSizes.TooBig | src/merkleblock.h:31-34 | 1012 matched transactions take 32648 bytes against 32647 guaranteed |
| PartialMerkleTree.CPartialMerkleTree.Select | src/merkleblock.cpp:134-146 | the constructor fills bits and hashes with exactly the built tree |
| PartialMerkleTree.CPartialMerkleTree.TraverseAndBuild | src/merkleblock.cpp:80-96 | appends exactly the tree built under the node |
| PartialMerkleTree.CPartialMerkleTree.PackBits | src/merkleblock.h:99-103 | the packing loop computes Pack |
| PartialMerkleTree.CPartialMerkleTree.TraverseAndExtract | src/merkleblock.cpp:98-132 | counters, matches and the bad flag move as in Extract |
| PartialMerkleTree.CPartialMerkleTree.ExtractMatches | src/merkleblock.cpp:150-181 | root and matches as in ExtractMatches on values, with every guard |
| BaseUint.base_uint.AddAssign | src/arith_uint256.h:135-145 | addition modulo the range, also of a number to itself |
| BaseUint.base_uint.SubAssign | src/arith_uint256.h:147-151 | subtraction modulo the range |
| BaseUint.base_uint.Increment | src/arith_uint256.h:173-180 | one more, modulo the range |
| BaseUint.base_uint.Decrement | src/arith_uint256.h:190-197 | one less, modulo the range |
| BaseUint.base_uint.Negate | src/arith_uint256.h:77-84 | the additive inverse modulo the range |
| BaseUint.base_uint.Complement | src/arith_uint256.h:69-75 | the largest number minus this one |
| BaseUint.base_uint.MulAssign32 | src/arith_uint256.cpp:56-65 | the product with a 32-bit number modulo the range |
| BaseUint.base_uint.MulAssign | src/arith_uint256.cpp:68-81 | the product modulo the range, and 0 if both operands are one object |
| BaseUint.base_uint.DivAssign | src/arith_uint256.cpp:84-107 | the floor quotient for every divisor but 0, which throws and leaves 0 |
| BaseUint.base_uint.CompareTo | src/arith_uint256.cpp:110-119 | the order of the numbers |
| BaseUint.base_uint.EqualTo | src/arith_uint256.cpp:122-133 | equality with a 64-bit number |
| BaseUint.base_uint.ShlAssign | src/arith_uint256.cpp:22-36 | multiplication by a power of two modulo the range, for any shift |
| BaseUint.base_uint.ShrAssign | src/arith_uint256.cpp:39-53 | floor division by a power of two, for any shift |
| BaseUint.base_uint.Bits | src/arith_uint256.cpp:172-184 | the bit length |
| LimbShifts.ShlIsShift | src/arith_uint256.cpp:22-36 | limbs put together from two neighbours are the shifted number modulo the range |
| LimbShifts.ShrIsShift | src/arith_uint256.cpp:39-53 | the same to the right, without loss above the bits shifted out |
| LimbShifts.DivStep | src/arith_uint256.cpp:98-106 | one round of shift and subtract keeps quotient, divisor and rest adding up |
| Limbs.ColumnStep | src/arith_uint256.cpp:72-79 | one row added to a truncated product loses only multiples of the range |
| CompactTarget.SetCompact | src/arith_uint256.cpp:204-222 | mantissa * 256^(exponent-3) modulo the range, the sign, and overflow exactly when it does not fit |
| CompactTarget.OverflowIsExact | src/arith_uint256.cpp:216-220 | the three-part overflow test is right for every compact number |
| CompactTarget.GetCompact | src/arith_uint256.cpp:224-245 | the compact encoding, mantissa kept clear of the sign bit |
| CompactTarget.DecodeEncode | src/arith_uint256.cpp:204-245 | decoding an encoding clears only the lowest bytes and keeps the sign |
| CompactTarget.CompactRoundTrip | src/arith_uint256.cpp:204-245 | a number that came from a compact form survives re-encoding, sign included |
| CompactTarget.TargetLeavesRoom | src/chain.cpp:127 | no decoded target is all ones, so the divisor never wraps to 0 |
| CompactTarget.DivideByComplement | src/chain.cpp:123-127 | dividing the complement and adding one is dividing 2^256 |
| CompactTarget.GetBlockProof | src/chain.cpp:115-128 | floor(2^256 / (target + 1)), or 0 for a negative, overflowing or zero target |
| CompactTarget.WorkIsMonotone | src/chain.cpp:115-128 | a smaller target never stands for less work, a valid one always for some |
| CompactTarget.WorkIsShare | src/chain.cpp:115-128 | the work is how many times target + 1 goes into 2^256, and zero only for a negative, overflowing or zero target |
| SkipList.LongestWalk | src/chain.cpp:64-76 | below 2^k heights, for k from 9 on, no walk takes more than floor(k^2/4) + 2k - 7 rounds, which is 110 for 2^18, and one takes as many |
| SkipList.MaxSteps | src/chain.cpp:73-75 | below 2^18 heights no walk takes more than the documented 110 steps |
| SkipList.RoundsBound | src/chain.cpp:64-102 | the bound on the rounds from any height to any lower one |
| SkipList.OddRounds | src/chain.cpp:78-102 | the bound inside an aligned block of heights, from its end or from further down its odd heights |
| SkipList.WorstOdd | src/chain.cpp:78-102 | inside an aligned block the bound is reached, but for one round |
| BlockIndex.CBlockIndex.GetAncestor | src/chain.cpp:78-102 | the ancestor that walking back along pprev would reach, or none outside the branch, in as many rounds as the bound is about once all skip pointers are built |
| BlockIndex.CBlockIndex.BuildSkip | src/chain.cpp:109-113 | the pointer is the ancestor at the skip height, and no other block's pointers are disturbed |
| BlockIndex.CBlockIndex.PathIsLinked | src/chain.cpp:78-102 | walking back along pprev arrives at the block of each height, with its own path |
| BlockIndex.LocatorLength | src/chain.cpp:25-51 | a locator has one entry for each of the last blocks and then logarithmically many, exactly |
| BlockIndex.DoublingsIsLog | src/chain.cpp:46-47 | the number of doublings is the rounded-up logarithm |
| Chain.CChain.SetTip | src/chain.cpp:13-23 | from any earlier chain, with the early stop: slot i is the tip's ancestor at height i |
| Chain.CChain.FindFork | src/chain.cpp:53-62 | the highest block shared with the chain, and none if nothing is shared |
| Chain.CChain.GetLocator | src/chain.cpp:25-51 | hashes of one branch at the locator heights, whichever way ancestors are found |
| Chain.LocatorIsDescending | src/chain.cpp:25-51 | strictly descending heights of one branch from its end to genesis |
| Chain.CChain.ContainsIsAncestry | src/chain.h:438-441 | membership by slot is being the tip or one of its ancestors |
| Chain.CChain.NextIsSuccessor | src/chain.h:443-449 | the successor is the one block of the chain built on this one |
| BloomWords.WipePair | src/bloom.cpp:259-267 | masking a pair of words empties the cells of one generation and no others |
| BloomWords.SetPair | src/bloom.cpp:275-277 | storing a generation changes one cell of the pair |
| RollingBloom.CRollingBloomFilter.Insert | src/bloom.cpp:251-279 | every cell holds the generation of the last key that touched it, unless that was wiped |
| RollingBloom.CRollingBloomFilter.Contains | src/bloom.cpp:287-299 | true if and only if every cell of the key was last touched within the window; true for every recent key |
| RollingBloom.CRollingBloomFilter.RecentCovers | src/bloom.h:113-114 | recent keys are at least the last nElements and at most half as many again |
| RollingBloom.CRollingBloomFilter.Reset | src/bloom.cpp:307-315 | no key is left, whatever the tweak |
| BlockAssembler.BlockAssembler.CreateNewBlock | src/miner.cpp:198-386 | ends with parents before children, nothing twice, limits kept and counters exact; the coinbase gains the fees; nothing more fits, or the block is full. The rounds start with the whole pool queued by priority if and only if there is a priority area, each looks at the next transaction, and a best-priority transaction leads the block if all of them may |
| BlockAssembly.BestPriorityLeads | src/miner.cpp:221-346 | if every transaction of the best priority is final, without parents, small enough for the area and allowed free, one of them is the first in the block |
| BlockAssembly.AreaEnds | src/miner.cpp:281-286 | the priority area lasts from the first round until the first ready transaction that fills it or is not allowed free |
| BlockAssembly.LookIsGreedy | src/miner.cpp:238-254 | in the area nothing that could be added has a better priority than the one looked at; after it, unless some wait no longer, none has a better score |
| BlockAssembly.StopsExactly | src/miner.cpp:288-370 | the loop stops exactly at the limit on transactions, at one too big in the last 100 bytes or after 51 such in the last 1000, or when no signature check is left |
| BlockAssembly.LeftOutIsTooBig | src/miner.cpp:288-330 | what may be mined and is left out of a block to which nothing can be appended does not fit |
| BlockAssembler.BlockAssembler.Select | src/miner.cpp:238-371 | the loop ends: either nothing can be appended any more or a limit is nearly reached |
| BlockAssembler.BlockAssembler.Pick | src/miner.cpp:238-254 | the next transaction is the best of the priority heap in the priority area, or else the best that waits no longer, or else the next of the index |
| BlockAssembly.IndexIsBest | src/miner.cpp:235-250 | the next of an index by score is the best of all that were not looked at |
| BlockAssembler.BlockAssembler.LeavePriority | src/miner.cpp:281-286 | the priority area is left exactly when it is full or the last priority taken is too low |
| BlockAssembler.BlockAssembler.TryInclude | src/miner.cpp:288-370 | size, coinbase, finality and sigop tests leave block and queues consistent and stop only at a limit |
| BlockAssembler.BlockAssembler.WakeChildren | src/miner.cpp:348-365 | children that waited for the transaction, and no others, are queued again, in any order of visits |
| BlockAssembly.AddedOk | src/miner.cpp:262-346 | appending a transaction that passed the tests keeps order, uniqueness, totals and limits |
| BlockAssembly.AddedQueues | src/miner.cpp:346-365 | after waking children every transaction that can still be added is queued somewhere |
| BlockAssembly.TriedAll | src/miner.cpp:238 | when the queues run dry nothing can be appended |
| Base58.DecodeEncode | src/base58.cpp:23-107 | decoding an encoding gives the bytes back, leading zeros included |
| Base58.EncodeDecode | src/base58.cpp:23-107 | encoding a decoding gives any text over the alphabet back |
| Base58.EncodeIsNumber | src/base58.cpp:69-107 | the text is the number of the bytes, most significant digit first |
| Base58.DecodeTrims | src/base58.cpp:25-56 | white space around a text makes no difference |
| Base58.DecodeAccepts | src/base58.cpp:37-56 | only texts over the alphabet, with white space around them, are accepted |
| Base58.CheckRoundTrip | src/base58.cpp:119-169 | checked decoding yields some bytes if and only if the text is their checked encoding with any white space around it |
| Base58.EncodeFits | src/base58.cpp:79 | 138/100 base58 digits for each byte always suffice |
| Base58.DecodeFits | src/base58.cpp:35 | 733/1000 bytes for each base58 digit always suffice |
| Base58.AlphabetIsOne | src/base58.cpp:18-19 | the program's alphabet has 58 different letters in ascending order, none of them white space: exactly the ASCII digits and letters without 0, O, I and l |
| Base58Codec.EncodeBase58 | src/base58.cpp:69-107 | the carry loops over the digit buffer compute the encoding; the carry is always spent |
| Base58Codec.DecodeBase58 | src/base58.cpp:23-67 | the carry loops over the byte buffer compute the decoding, and reject exactly what it rejects; the carry is always spent |
| Base58Codec.MultiplyUsed | src/base58.cpp:82-95 | one multiply-and-add that stops early leaves the number exact and zeros ahead of it |
| Base58Codec.MultiplyAll | src/base58.cpp:42-49 | one multiply-and-add over the whole buffer is exact |
| MnemonicCodec.FromData | src/bip39.cpp:46-78 | the loops over bytes and masks make exactly the sentence of the entropy and its checksum, and an empty one for a bad length |
| MnemonicCodec.Check | src/bip39.cpp:80-149 | accepts if and only if the sentence is accepted by the definition |
| MnemonicCodec.FillBuffer | src/bip39.cpp:99-133 | before the hash the byte buffer is the bits of all words padded with zeros, if and only if all words are listed |
| MnemonicCodec.WriteIndex | src/bip39.cpp:119-125 | writes the eleven bits of an index behind those before it and nothing else |
| MnemonicCodec.ReadIndex | src/bip39.cpp:66-70 | the eleven masked bits read are the index |
| MnemonicCodec.CheckSum | src/bip39.cpp:134-148 | the byte saved before the hash takes the buffer's place decides the comparison |
| MnemonicCodec.MaskCompares | src/bip39.cpp:138-145 | two bytes agree under a mask of top bits if and only if those bits agree |
| MnemonicCodec.ReadWord | src/bip39.cpp:106-112 | a word of up to nine letters is read whole, a longer one given up |
| Mnemonic.DataRecovered | src/bip39.cpp:46-134 | the bits of a generated sentence are its entropy and checksum |
| Mnemonic.SentenceAccepted | src/bip39.cpp:46-149 | a generated sentence is accepted if and only if the entropy has 16, 24 or 32 bytes |
| Mnemonic.AcceptedIsSentence | src/bip39.cpp:80-149 | only generated sentences are accepted |
| NetMessages.FramingIgnoresChunks | src/net.cpp:693-743 | however a stream is cut, the same messages arrive and the same one is refused |
| NetMessages.FeedConserves | src/net.cpp:693-817 | the bytes of the received messages are the bytes of the stream, up to a refused header |
| NetMessages.Deliver | src/net.cpp:693-817 | the receiver gets exactly the messages that were sent |
| NetMessages.PrefixDelivered | src/net.cpp:693-871 | what has arrived complete is the beginning of what was sent |
| NetMessages.FinishedIsComplete | src/net.cpp:2893-2903 | size, little-endian, and checksum of a finished header are those of its data, the message is complete if and only if the size fits, and all else is untouched |
| NetMessages.RefusesOversize | src/net.cpp:718-721 | a header is refused if and only if it announces more than six million bytes |
| NetNode.CNode.ReceiveMsgBytes | src/net.cpp:693-743 | taking in a chunk in place does what the byte stream says; a completed message is reported exactly, and counted under its command |
| NetNode.CountAllConserves | src/net.cpp:727-736 | every byte of every completed message is counted once, under one command |
| NetNode.CountIs | src/net.cpp:727-736 | a message is counted whole under its command if that is known, and with the others if not |
| NetNode.CommandIs | src/net.cpp:731 | the command is what the header holds up to its first zero byte |
| NetNode.CNetMessage.readHeader | src/net.cpp:771-800 | copies what the header still needs; refuses a size over the limit |
| NetNode.CNetMessage.readData | src/net.cpp:802-817 | copies what the data still needs into a buffer that runs ahead |
| NetSend.CNode.SocketSendData | src/net.cpp:821-871 | the messages that the socket takes whole leave the queue, and of the next one what it has room for goes out: the call ends only with an empty queue, an answer below what was offered, or no connection; size and pause flag stay exact; an error that does not pass marks the peer for disconnection |
| NetSend.CNode.EverythingGoes | src/net.cpp:821-871 | if the socket has room for every message, the queue ends up empty and everything pushed is sent |
| NetSend.CNode.PushMessage | src/net.cpp:2905-2935 | the message is queued behind the others and counted under its command unless the connection is gone; with an empty queue it is offered at once, and what the socket has room for is sent |
| NetSend.CNode.WireIsPrefix | src/net.cpp:821-871 | what was sent is a prefix of what was pushed, and all of it exactly when the queue is empty |
| NetSend.CNode.PeerGetsPrefix | src/net.cpp:693-871 | over all partial sends the peer's complete messages are the first ones pushed |
| NetSend.CNode.CloseSocketDisconnect | src/net.cpp:437-446 | the connection goes away and the peer is marked; queue and counters stay as they are |

## Left out

- CheckQueueProtocol.WaitIsBounded: counts steps; that a scheduler gives every thread its turn is not modelled. `fQuit` is never set in the program and is left out.
- AddrManOperations.RunInv: the key is not the null key, which is drawn with negligible probability and which `Check_` refuses.
- AddrManObject.CAddrMan.Unserialize: on a manager whose two maps are empty, as the program calls it; with stale entries in them its assertions can fail. A file that ends early is not modelled but for `AddrManLoads.ClearAfterFailure`, nor are negative counts.
- AddrManLoads.LoadIsConsistent: one direction; a file that names an IP twice may still load well, as when one copy collides in the tried table.
- AddrManObject.CAddrMan.Serialize: the encoding of single entries and numbers is assumed to read back as written.
- AddrManCheck.Check_: of several faults any one may be reported; the program reports the one it meets first, by ascending id.
- PartialMerkleProofs.ExtractMatchesSound: the pair hash is a parameter, assumed injective; the number of transactions is that of the list.
- PartialMerkleTree.CPartialMerkleTree.Select: for a non-empty list; widths are not wrapped at 32 bits.
- Base58Codec.DecodeBase58: reads a C string; an embedded NUL in a `std::string` ends the text, as in the program's `c_str()` overload.
- Base58.CheckRoundTrip: the four checksum bytes are a function of the data; which hash is used makes no difference.
- Mnemonic.SentenceAccepted: the hash is a parameter; `Generate` and `ToSeed`, which draw random bytes and stretch the seed, are not modelled.
- RollingBloom.CRollingBloomFilter.Contains: sizing from a false-positive rate is floating point; the filter size, the number of hash functions and the hash are parameters, and words are naturals below 2^64.
- BlockAssembler.BlockAssembler.CreateNewBlock: scores and priorities are given numbers, and ties are broken in any way; the payouts of the coinbase and TestBlockValidity are not modelled, and the memory pool is an arbitrary graph of parents.
- NetSend.CNode.SocketSendData: a connection lost by another thread between two sends of one call is not modelled; the socket's answers, and which of its errors pass, are a parameter.
- NetNode.CNode.ReceiveMsgBytes: time stamps are not modelled; a command without a zero byte is read up to the end of its header and no further.
- BaseUint.base_uint.MulAssign: hexadecimal and floating-point conversions of the class are not modelled.
- Address buckets: the keyed hashes are arbitrary functions with the right ranges; a table is a map of its occupied slots.
- Memory use of a script: computed from its length.
- `Select_` and `GetChance` of the address manager: random selection by floating-point chances.
- `GetBlockProofEquivalentTime`, retargeting and proof-of-work checks: easy arithmetic on top of what is here.
- `CBloomFilter`, `CacheMultiMap`, `limitedmap` and amount compression: they would add only easier members.
- Disk, sockets, clocks, randomness and logging are parameters or not modelled; integers are unbounded except where a width matters.
