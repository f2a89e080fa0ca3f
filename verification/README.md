# BlakeBitcoin node core: a verified model

This project models ten parts of the BlakeBitcoin node (a C++ full node derived from
Bitcoin Core) and proves what those parts are for. Nothing of the node itself is executed;
the statements below are about the model, which follows the C++ branch by branch.

| file | what it models |
|---|---|
| `Coins.dfy` | the stack of coin caches over the coin database, with their DIRTY and FRESH flags, and the batched write to disk |
| `CoinsRecovery.dfy` | connecting and disconnecting blocks on a coin view, and the replay of blocks after a crash |
| `AddrTables.dfy`, `AddrMan.dfy`, `AddrCheck.dfy` | the address manager: five indexes over one set of entries, its operations, and its own consistency check |
| `AddrDisk.dfy`, `AddrRoundTrip.dfy` | saving and loading the address manager |
| `HeadersSync.dfy` | the two-phase download of headers from an untrusted peer |
| `CheckQueue.dfy` | the parallel script-check queue, as a state machine over all interleavings |
| `AuxPow.dfy` | the check of a merged-mining proof |
| `SkipList.dfy`, `Chain.dfy` | skip lists in the block tree, the active chain, forks and locators |
| `Limbs.dfy`, `Congruence.dfy`, `Arith256.dfy`, `Compact.dfy` | 256-bit arithmetic on 32-bit limbs, the compact form of targets, the work of a block |
| `Cuckoo.dfy` | the cuckoo cache for validated signatures and scripts |
| `Radix.dfy`, `Base58.dfy` | Base58 text with and without a checksum |
| `Basics.dfy` | what several files share |

How the model relates to the C++:

* Objects that update their fields are classes; containers they own are `seq`, `map` or `set`
  fields, fixed buffers are arrays. Pure computations are functions. The check queue is a
  transition system whose steps are the sections executed under its mutex.
* Hashes are function-typed parameters. Where a result needs freedom from
  collisions, its `requires` says so, and only of the pairs hashed for the proofs at hand.
  Clocks, random choices, keys and the sizes of database batches are parameters or
  nondeterministic choices.
* Integers are unbounded except where the width matters: limbs, compact encodings, the slot
  computation of merged mining, `FastRange32`, the epoch size of the cuckoo cache and the
  length limit of Base58Check are computed modulo 2^32 or saturated as in the C++.

Results that a reader of the code might not expect:

* A FRESH flag is safe exactly when the parent does not have the coin
  (`Coins.FreshIsSafeIffAbsent`), which is why `AddCoin` may set it only for entries that are
  not DIRTY.
* A coinbase script can be read in one way only if and only if it carries the merged-mining
  header or has at most one offset up to 20 at which a root and a tree size can be found
  (`AuxPow.OneReadingExactly`). Two such offsets with tree size 1 let a single proof pass for
  two different blocks, whatever the hash functions (`AuxPow.TwoPlacesTwoBlocks`, with a
  concrete script in `AuxPow.WithoutHeaderTwoBlocks`).
* The cuckoo cache's comments say that a first eviction takes location 0; the code takes
  location 1 (`Cuckoo.FirstEviction`). The comments also say that the entry just placed is not
  moved again. It is taken out in the next round exactly when there is a next round, the
  evicted element has no free location, and its next location is the same slot
  (`Cuckoo.LeavesPlacedAlone`); a new cache reaches this with two insertions
  (`Cuckoo.PlacedIsTakenOut`).
* `GetCompact` is the left inverse of `SetCompact` exactly on normal encodings that do not
  overflow (`Compact.Reencode`), and no encoding stands for 2^256 - 1, so `GetBlockProof` never divides
  by zero.
* When `AddCoin` throws, the usage total has already been reduced (`Coins.CoinsCache.AddCoin`).
* The Base58 decoder does not compare an empty result with its length limit, so a blank string
  is accepted even under a negative limit (`Base58.Allowed` in `Base58.DecodeExactly`).

## Model

| member | source | states |
|---|---|---|
| `Coins.CoinsDb.BatchWrite` | src/txdb.cpp:115-171 | wherever the batches are cut, the database ends with the overlay of the cache on its old coins, marked with the new block; after every batch but the last, all of which are on record, it is marked as on the way between the two blocks, a marker left by an earlier interruption is kept, and every coin is either the old or the new one; the passed map is emptied exactly when erasing |
| `Coins.PartIsMixed` | src/txdb.cpp:139-161 | writing any part of a cache leaves every coin old or new |
| `Coins.CoinsCache.OverCache` | src/coins.cpp:35-38 | a new layer, at any depth, shows what the layer below shows |
| `Coins.CoinsCache.FetchCoin` | src/coins.cpp:44-59 | looking a coin up through every layer changes no layer's visible coins, keeps all layers legal, and caches the visible coin as an entry without flags, touching no other entry |
| `Coins.CoinsCache.GetCoin` | src/coins.cpp:61-68 | returns exactly the coin of the visible map, or nothing |
| `Coins.CoinsCache.GetBestBlock` | src/coins.cpp:172-176 | the first block set on the way down the stack, remembered without changing any view |
| `Coins.CoinsCache.SetBestBlock` | src/coins.cpp:178-180 | a block just set is the one found, until a write-back from above sets another |
| `Coins.CoinsCache.HaveCoin` | src/coins.cpp:162-165 | true exactly for outpoints of the visible map |
| `Coins.CoinsCache.AddCoin` | src/coins.cpp:70-108 | the visible map gains exactly this coin, or nothing if it is unspendable; fails exactly when an unspent coin would be overwritten without permission; the layers below see nothing; the new entry is DIRTY, and FRESH exactly if the old one was or no coin below can be hidden |
| `Coins.CoinsCache.AddCoins` | src/coins.cpp:118-127 | the visible map gains all spendable outputs of a transaction |
| `Coins.CoinsCache.SpendCoin` | src/coins.cpp:129-149 | the visible map loses exactly this coin, the removed coin is handed out, and the layers below see nothing; a FRESH entry is erased, another becomes a DIRTY empty one |
| `Coins.CoinsCache.AddThenSpend` | src/coins.cpp:70-149 | a coin made and spent again in one layer leaves no entry to write back |
| `Coins.CoinsCache.Uncache` | src/coins.cpp:281-294 | no visible coin changes, and the entry, no other, is dropped exactly when it carries no flag |
| `Coins.CoinsCache.MergeEntry` | src/coins.cpp:184-250 | merging one child entry keeps the parent legal and makes its visible map the overlay of that entry; what happens to the flags and when the entry vanishes; the misapplied-FRESH error is unreachable |
| `Coins.CoinsCache.BatchWrite` | src/coins.cpp:182-252 | for any legal child map the parent's new visible map is the child's overlay on the old one, every entry is merged by the same rule whatever the order, and the parent stays legal |
| `Coins.CoinsCache.Flush` | src/coins.cpp:254-262 | the parent comes to show the child's coins and to stand for its block, the child still shows them, and the child is empty; over the database, an interruption leaves the disk on the way |
| `Coins.CoinsCache.Sync` | src/coins.cpp:264-279 | the same, while the child keeps exactly its unspent entries, all clean |
| `Coins.CoinsCache.FlushToDisk` | src/coins.cpp:254-262 | flushing a stack of any depth leaves the database with the coins and the block of the top layer, without a transition marker |
| `Coins.CoinsCache.SanityCheck` | src/coins.cpp:320-335 | succeeds exactly for the five legal flag states and an exact usage total, hence on every reachable cache |
| `Coins.CoinsCache.Replay` | src/coins.cpp:44-294 | any sequence of lookups, additions, spends, uncachings and write-backs shows the same coins as a plain map |
| `Coins.FreshIsSafeIffAbsent` | src/coins.h:116-126 | erasing a FRESH entry on spending has the right effect if and only if the parent lacks the coin |
| `Coins.SyncedEntries` | src/coins.cpp:264-279 | entries cleaned by a sync are legal over the new parent and hide nothing |
| `Coins.UsageSet` | src/coins.cpp:86-105 | setting an entry moves the recomputed usage sum by exactly the difference the code books |
| `Coins.MallocRoundsUp` | src/memusage.h:49-59 | the heap charge is the least multiple of 16 with 16 bytes to spare, and nothing for nothing |
| `Coins.UnspendableExactly` | src/script/script.h:549-552 | unspendable are exactly the scripts of more than 10000 bytes and those starting with OP_RETURN |
| `CoinsRecovery.RollforwardBlock` | src/validation.cpp:4386-4405 | spends the inputs and enters the outputs of every transaction, whatever was there before |
| `CoinsRecovery.AccessByTxid` | src/coins.cpp:340-349 | the first unspent output of the transaction, or a spent coin if none of the possible ones is there |
| `CoinsRecovery.ApplyTxInUndo` | src/validation.cpp:1871-1897 | the input is restored, unclean exactly if it was there; missing metadata is taken from the first unspent output of the same transaction, and it fails exactly if there is none |
| `CoinsRecovery.DisconnectBlock` | src/validation.cpp:1901-1972 | fails if the undo data does not fit; with complete undo data all outputs are removed and all inputs restored, and the answer is clean exactly when every output was as the block made it and no input was there |
| `CoinsRecovery.DisconnectThenConnect` | src/validation.cpp:1901-1972 | a block disconnected cleanly is connected again back to the same coins |
| `CoinsRecovery.ConnectedComesBack` | src/validation.cpp:1901-1972 | a block whose inputs were the unspent coins of its undo data and whose outputs were new is, once connected, disconnected cleanly back to the same coins |
| `CoinsRecovery.ReplayedOverMixture` | src/validation.cpp:4443-4467 | rolling back and forward over any mixture of old and new coins gives the same as over the old coins, for any blocks |
| `CoinsRecovery.BackToFork` | src/validation.cpp:4440-4460 | rolling back a branch of connectable blocks of any length leads to the coins of its fork |
| `CoinsRecovery.ReplayBlocks` | src/validation.cpp:4407-4473 | a consistent database is left alone; otherwise, from the coins of the old tip, the new branch ends up connected on the coins of the fork and the new block is marked, or nothing is written if undo data does not fit |
| `CoinsRecovery.FinishInterrupted` | src/validation.cpp:4407-4473 | replaying finishes an interrupted write-back exactly, and when it is interrupted itself the disk is again such that replaying finishes it |
| `CoinsRecovery.FinishReorganization` | src/validation.cpp:4407-4473 | a write-back from one branch to another, interrupted anywhere and any number of times, ends with exactly the new branch connected on the coins of the fork |
| `AddrMan.AddrMan.Create` | src/addrman.cpp:421-435 | a fresh id, with every index extended consistently |
| `AddrMan.AddrMan.SwapRandom` | src/addrman.cpp:437-459 | exchanges two positions of the random order and keeps it the inverse of the entries' positions |
| `AddrMan.AddrMan.Delete` | src/addrman.cpp:461-476 | removes one unreferenced entry from all indexes and changes only positions of the others |
| `AddrMan.AddrMan.ClearNew` | src/addrman.cpp:478-494 | frees a slot; its occupant has one reference less, or is gone if that was the last |
| `AddrMan.AddrMan.EvictTried` | src/addrman.cpp:519-546 | moves a tried entry back to the new slot of its own address and source, the only new slot that changes, losing at most one address, which had a single reference |
| `AddrMan.AddrMan.MakeTried` | src/addrman.cpp:496-553 | the entry leaves all its new slots and ends in its tried slot, a displaced tried entry gets the new slot of its own source, no other slot changes, and at most one third entry, a new one with a single reference, is lost |
| `AddrMan.AddrMan.Good` | src/addrman.cpp:631-683 | moves an entry to tried exactly when it is new and no occupied slot has to be tested first, otherwise records the collision if there is room; both tables are given exactly, success times are set, all other records stay, and at most one single-reference address is lost |
| `AddrMan.AddrMan.AddSingle` | src/addrman.cpp:555-629 | an offer is filed exactly when its address is routable and its slot is free or its occupant yields, and for a known address also the offer is news and the random test passes; one slot changes at most, the record is fresh or refreshed, all others stay, and at most one single-reference address is lost |
| `AddrMan.AddrMan.Add` | src/addrman.cpp:685-695 | every offer in order is treated as a single one from the state the one before it left, and the answer is true exactly if one of them was filed; only routable offered addresses become known |
| `AddrMan.AddrMan.Attempt` | src/addrman.cpp:697-715 | touches one record; the failure count grows only for the first attempt since the last success of any peer |
| `AddrMan.AddrMan.Connected` | src/addrman.cpp:824-841 | touches one record's time, and only if it is more than twenty minutes old |
| `AddrMan.AddrMan.SetServices` | src/addrman.cpp:843-857 | touches one record's services |
| `AddrMan.AddrMan.GetAddr` | src/addrman.cpp:786-822 | distinct entries that are not terrible and of the network asked for, within the limit, and all such if the limit is not reached; only the random order changes |
| `AddrMan.AddrLimitExactly` | src/addrman.cpp:790-796 | the limit is the largest number within both the absolute limit and the percentage, zero meaning no limit |
| `AddrMan.RefreshedExactly` | src/addrman.cpp:570-579 | the time of a known entry moves only if the offer is younger by more than an hour or a day, less the penalty and never below zero; services are united |
| `AddrMan.AddrMan.ResolveOne` | src/addrman.cpp:866-917 | a collision is settled exactly when the entry is gone or one of the time rules decides, and the entry is promoted, with both tables given exactly, exactly when it wins; otherwise nothing changes; the branches for an invalid entry and a free slot are proved unreachable |
| `AddrMan.ReplacesExactly` | src/addrman.cpp:887-907 | the time rules in seconds |
| `AddrMan.AddrMan.ResolveCollisions` | src/addrman.cpp:859-920 | every pending collision is visited once, and stays pending exactly if it could not be settled in the state it was visited in; none is added and no tried slot is emptied |
| `AddrMan.AddrMan.SelectTriedCollision` | src/addrman.cpp:922-948 | returns the tried occupant a collision id competes with, which always exists, and drops ids of deleted entries |
| `AddrMan.AddrMan.CheckAddrman` | src/addrman.cpp:1010-1113 | on every reachable manager the consistency check reports no error |
| `AddrMan.AddrMan.Replay` | src/addrman.cpp:421-948 | over any run of public operations all indexes agree, at most ten collisions are kept, no entry has more than eight references, every live collision has its tried slot occupied by another entry, and an occupied tried slot stays occupied |
| `AddrMan.NoReferences` | src/addrman.cpp:500-514 | the sweep over all buckets of an address finds every slot it occupies, so its reference count ends at zero |
| `AddrTables.TriedBucketsOfGroup` | src/addrman.cpp:46-51 | the tried entries of one address group are in at most eight buckets |
| `AddrTables.NewBucketsOfSource` | src/addrman.cpp:53-59 | whatever one source group offers reaches at most 64 new buckets, and what it offers for one group only one |
| `AddrTables.TerribleExactly` | src/addrman.cpp:67-91 | the four reasons to give an entry up, in seconds and attempts, and the minute of grace |
| `AddrCheck.CheckAddrman` | src/addrman.cpp:1010-1113 | reports no error if and only if every index, slot, reference count and network count is consistent, for any tables at all; each of its 21 error codes names something that is wrong |
| `AddrCheck.ScanTried` | src/addrman.cpp:1062-1077 | the scan of the tried buckets accepts exactly the right tried tables |
| `AddrCheck.ScanNew` | src/addrman.cpp:1079-1092 | counting down references over the new buckets accepts exactly the right new tables |
| `AddrCheck.AgreeingIsConsistent` | src/addrman.cpp:1010-1113 | the invariant of the operations implies what the check tests |
| `AddrDisk.Unserialize` | src/addrman.cpp:230-404 | whatever the stream holds, the result is consistent or rejected; every stream with distinct addresses and sensible success times is accepted, and of its valid entries one is missing only if its slots are taken; a stream saved under the same bucketing restores every entry and every slot |
| `AddrDisk.BuiltAgrees` | src/addrman.cpp:230-404 | what is built from such a stream satisfies every index invariant and lost only entries that collided |
| `AddrDisk.Prune` | src/addrman.cpp:383-393 | removes exactly the entries that are in no table, keeping every index |
| `AddrDisk.Restore` | src/addrman.cpp:344-381 | refiling keeps reference counts equal to the slots in use, and reproduces the saved table if no two saved positions clash |
| `AddrDisk.CleanAgrees` | src/addrman.cpp:230-404 | what is loaded from a clean stream satisfies every index invariant and needs no pruning |
| `AddrRoundTrip.Serialize` | src/addrman.cpp:131-227 | writes each new and each tried entry once and the bucket of every new slot, numbered by the order of writing |
| `AddrRoundTrip.SavedIsClean` | src/addrman.cpp:131-227 | what is saved from a consistent manager is a clean stream |
| `AddrRoundTrip.RoundTrip` | src/addrman.cpp:131-404 | loading what was saved gives the same entries, tables, reference counts and network counts up to the numbering of ids |
| `AddrRoundTrip.SaveAndLoadManager` | src/addrman.cpp:131-404 | every reachable manager can be saved and loaded back, the same up to ids |
| `AddrRoundTrip.NewFits` | src/addrman.cpp:273-286 | a consistent manager never holds more than 65536 new and 16384 tried entries, the limits enforced on loading |
| `HeadersSync.HeadersSyncState.ValidateAndProcessSingleHeader` | src/headerssync.cpp:178-214 | a presync header is taken exactly when its difficulty is permitted and the commitment limit allows, and its bit is committed at its height |
| `HeadersSync.HeadersSyncState.ValidateAndStoreHeadersCommitments` | src/headerssync.cpp:140-176 | a message is taken whole exactly if the chain with it is linked and permitted and has no more commitment heights than the limit, and the second phase starts exactly when the work reaches the minimum |
| `HeadersSync.HeadersSyncState.ValidateAndStoreRedownloadedHeader` | src/headerssync.cpp:216-279 | a redownloaded header is taken exactly when it links to the previous one, has a permitted difficulty and, below the minimum work, matches the committed bit of its own height |
| `HeadersSync.HeadersSyncState.PopHeadersReadyForAcceptance` | src/headerssync.cpp:281-295 | releases, restored field by field, the next accepted headers, leaving a full buffer behind unless the work is proved |
| `HeadersSync.HeadersSyncState.ProcessNextHeaders` | src/headerssync.cpp:69-138 | in each phase, exactly which messages succeed, exactly when more is requested and which phase follows, what is released and how much stays buffered; an ended sync keeps nothing |
| `HeadersSync.BitOfHeight` | src/headerssync.cpp:196-207 | the n-th queued bit is the bit of the n-th commitment height |
| `HeadersSync.NextCommitment` | src/headerssync.cpp:257-271 | the queue front is the bit committed in the first phase for the very height being checked, and the queue is empty exactly past the first chain's end |
| `HeadersSync.FrontOfBuffer` | src/headerssync.h:22-57 | a compressed header with its predecessor's hash gives back the full header |
| `HeadersSync.AnyPeer` | src/headerssync.cpp:69-295 | for any messages whatever, all headers released together are a prefix of a linked, permitted chain that agrees with the committed bits, before the work is proved each has 13959 accepted successors with 23 commitments among them, and never more than the buffer and the limit on commitments is stored |
| `HeadersSync.CommitmentsAbove` | src/headerssync.cpp:16-20 | any 13959 consecutive heights have at least 23 commitments, one in every 584 |
| `HeadersSync.HonestRedownload` | src/headerssync.cpp:216-279 | once enough work was seen, every part of the same chain passes the second phase, also beyond what the first phase saw |
| `HeadersSync.HonestPeer` | src/headerssync.cpp:69-295 | a peer serving a permitted chain with enough work twice, cut into messages differently and full except possibly the last, brings a new sync to its end and gets all it served the second time released |
| `CheckQueue.GrabSize` | src/checkqueue.h:114 | a grab takes at least one check and never more than are queued or than the batch size |
| `CheckQueue.GrabExactly` | src/checkqueue.h:114 | beyond one check, it is the largest grab within a batch that leaves as much for every other thread |
| `CheckQueue.StepKeeps` | src/checkqueue.h:70-127 | every step of any thread keeps the books, the verdict flags and the sleeping master safe |
| `CheckQueue.VerdictsAreRight` | src/checkqueue.h:70-182 | under every interleaving a round's verdict is true exactly when every check added in that round passes, and then all of them were called |
| `CheckQueue.TodoIsExact` | src/checkqueue.h:78-121 | nTodo always equals the checks queued plus those grabbed and not yet booked |
| `CheckQueue.MasterNotStranded` | src/checkqueue.h:78-105 | a master asleep with no wake-up on its way implies a worker that holds a batch and can go on |
| `CheckQueue.WorkDrops` | src/checkqueue.h:70-127 | every step of the queue but an idle wake-up lowers a measure of the work left, and none raises it |
| `CheckQueue.SomeoneCanGoOn` | src/checkqueue.h:70-127 | while the master waits, some thread can take such a step |
| `CheckQueue.WaitEnds` | src/checkqueue.h:70-162 | under every interleaving the steps taken in a wait, idle wake-ups apart, are bounded by the work at its start, and until the master is back another is possible |
| `CheckQueue.RoundsDoNotOverlap` | src/checkqueue.h:92-103 | when a verdict is returned nothing is queued, in progress or failed, so no batch reaches into the next round |
| `AuxPow.CheckMerkleBranch` | src/auxpow.cpp:98-114 | computes the root a leaf and its branch fold to, and the zero hash for index -1 |
| `AuxPow.BranchLeadsToRoot` | src/auxpow.cpp:98-114 | in a perfect Merkle tree of any height the branch of every leaf, folded at its index, gives the root |
| `AuxPow.FoldInjective` | src/auxpow.cpp:98-114 | unless computing the two roots meets a collision, equal roots at an equal index mean equal leaves and branches |
| `AuxPow.Search` | src/auxpow.cpp:46-47 | finds the first occurrence of a pattern, or reports none |
| `AuxPow.ExpectedIndex` | src/auxpow.cpp:88-96 | the slot of a chain is a leaf of a tree of that height |
| `AuxPow.SameSlotIff` | src/auxpow.cpp:88-96 | two chains share a slot if and only if their ids agree modulo the size of the tree |
| `AuxPow.SlotTaken` | src/auxpow.cpp:88-96 | every slot is the slot of some chain id below the size |
| `AuxPow.ConcreteSlots` | src/auxpow.cpp:88-96 | the slots of some concrete inputs |
| `AuxPow.Check` | src/auxpow.cpp:19-86 | accepts exactly the proofs that meet all conditions on chain id, branch length, coinbase, script layout, tree size and slot |
| `AuxPow.EveryChainIsServed` | src/auxpow.cpp:19-114 | whatever blocks are in a tree that a parent coinbase commits to, the block in the slot of any chain gets an accepted proof |
| `AuxPow.IndexPerChain` | src/auxpow.cpp:19-96 | in one tree, proofs for two chains are accepted at the same index if and only if the chain ids agree modulo its size |
| `AuxPow.FirstLeafUnique` | src/auxpow.cpp:98-114 | first leaves with one root are the same leaf with the same branch, for branches of any lengths, unless a leaf is an inner node or hashes collide |
| `AuxPow.SamePlaceIffSame` | src/auxpow.cpp:46-86 | two accepted readings of a script agree in root, height and slot exactly if their roots are found at the same place |
| `AuxPow.HeaderFixesRoot` | src/auxpow.cpp:46-86 | a script with the merged-mining header fixes the chain root, the height of the tree and the slot |
| `AuxPow.OneReadingExactly` | src/auxpow.cpp:46-86 | a script has one accepted reading at most if and only if it has the header or at most one possible place for a root |
| `AuxPow.SameBlockIffSamePlace` | src/auxpow.cpp:19-114 | two accepted proofs with one coinbase prove the same block, branch and slot exactly if their roots are found at the same place |
| `AuxPow.OneBlockPerCoinbase` | src/auxpow.cpp:19-114 | two accepted proofs with one coinbase that has a single reading, and one chain id, prove the same block, with the same branch and slot, unless the two checks themselves meet a hash collision |
| `AuxPow.OneBlockPerParent` | src/auxpow.cpp:19-114 | the same from one parent block, with coinbase branches of any lengths, if no coinbase is an inner node of the tree |
| `AuxPow.TwoPlacesTwoBlocks` | src/auxpow.cpp:53-62 | for every script without the header and with two places for trees of size one, one proof is accepted for two different blocks |
| `AuxPow.OneSingleSlotBlockExactly` | src/auxpow.cpp:19-114 | a coinbase script proves at most one block alone in its tree if and only if it has the header or at most one place for such a tree, without any assumption on hashes |
| `AuxPow.WithoutHeaderTwoBlocks` | src/auxpow.cpp:53-62 | a concrete script with which one proof is accepted for two different blocks |
| `SkipList.InvertLowestOneMeaning` | src/chain.cpp:98-99 | the bit trick clears the lowest set bit, stated digit by digit |
| `SkipList.GetSkipHeight` | src/chain.cpp:102-110 | a skip link always leads strictly back |
| `SkipList.WalkIsShort` | src/chain.cpp:112-137 | from any height below 2^(b+1) the walk of GetAncestor reaches any lower height in at most 2b(b+1)+1 steps |
| `Chain.BlockIndex.GetAncestor` | src/chain.cpp:112-137 | with links made by BuildSkip it terminates and returns the block reached by following pprev; with all links set its loop runs exactly as often as the walk bounded above |
| `Chain.BlockIndex.BuildSkip` | src/chain.cpp:144-148 | the new link keeps the tree well linked and leads to the ancestor at the skip height |
| `Chain.WalkIsPath` | src/chain.cpp:112-137 | following pprev n times gives the n-th block before the end of the path |
| `Chain.LastCommonAncestor` | src/chain.cpp:182-199 | returns the block on both paths from genesis that is above every other such block, or none for different trees |
| `Chain.ActiveChain.SetTip` | src/chain.cpp:40-48 | in spite of its early stop the chain becomes the new tip's full path |
| `Chain.ActiveChain.FindFork` | src/chain.cpp:79-88 | returns the highest block of the active chain on the path of the given block |
| `Chain.LocatorEntries` | src/chain.cpp:50-67 | the hashes of ancestors at strictly falling heights from the tip to genesis, with the prescribed gaps |
| `Chain.LocatorIsShort` | src/chain.cpp:50-67 | a locator of n entries, n at least 13, needs a chain higher than 2^(n-13) |
| `Chain.LocatorStepGrows` | src/chain.cpp:64 | from the tenth gap on, gaps double |
| `Limbs.ValInjective` | src/arith_uint256.h:28-29 | equal numbers have equal limbs |
| `Arith256.SetUint64` | src/arith_uint256.h:80-87 | assigns a 64-bit number |
| `Arith256.GetLow64` | src/arith_uint256.h:237-241 | the number modulo 2^64 |
| `Arith256.AddAssign` | src/arith_uint256.h:127-137 | addition modulo 2^256, also of a number to itself |
| `Arith256.Not` | src/arith_uint256.h:61-67 | 2^256 - 1 minus the number |
| `Arith256.Increment` | src/arith_uint256.h:165-172 | adds one modulo 2^256 |
| `Arith256.Negate` | src/arith_uint256.h:69-76 | the additive inverse modulo 2^256 |
| `Arith256.SubAssign` | src/arith_uint256.h:139-143 | subtraction modulo 2^256, exact if nothing is borrowed |
| `Arith256.CompareTo` | src/arith_uint256.cpp:109-118 | the sign of the difference of the numbers |
| `Arith256.Bits` | src/arith_uint256.cpp:179-191 | the bit length of the number |
| `Arith256.ShlAssign` | src/arith_uint256.cpp:21-36 | multiplies by a power of two modulo 2^256, for any shift |
| `Arith256.ShrAssign` | src/arith_uint256.cpp:38-52 | divides by a power of two, rounding down, for any shift |
| `Arith256.MulWordAssign` | src/arith_uint256.cpp:54-64 | the product with a 32-bit word modulo 2^256 |
| `Arith256.MulAssign` | src/arith_uint256.cpp:66-80 | the schoolbook loop gives the product modulo 2^256, also of a number with itself |
| `Arith256.DivAssign` | src/arith_uint256.cpp:82-106 | shift, compare and subtract give the exact floor quotient; fails exactly for divisor zero |
| `Compact.SetCompact` | src/arith_uint256.cpp:198-216 | the encoded magnitude modulo 2^256; the overflow flag means exactly that the magnitude needs more than 256 bits, the negative flag a signed nonzero magnitude |
| `Compact.GetCompact` | src/arith_uint256.cpp:218-239 | the normal encoding of the largest encodable value not above the number, signed only if nonzero; the asserts hold |
| `Compact.RoundDown` | src/arith_uint256.cpp:198-239 | encoding and decoding raises no flag and gives the largest encodable value not above the number |
| `Compact.Magnitude` | src/arith_uint256.cpp:211-214 | the three-case overflow test is equivalent to exceeding 2^256 - 1 |
| `Compact.ConcreteTargets` | src/test/arith_uint256_tests.cpp:477-521 | the magnitudes and signs of some encodings |
| `Compact.Closest` | src/arith_uint256.cpp:218-239 | cutting off the low bytes loses nothing that any encoding could have kept |
| `Compact.RoundingIsMonotone` | src/arith_uint256.cpp:198-239 | the round trip keeps the order of numbers |
| `Compact.RoundingIsIdempotent` | src/arith_uint256.cpp:198-239 | a second round trip changes nothing |
| `Compact.NormalUnique` | src/arith_uint256.cpp:218-239 | a value and a sign have one normal encoding |
| `Compact.Reencode` | src/arith_uint256.cpp:198-239 | decoding and encoding gives back the same 32 bits exactly for normal encodings that do not overflow |
| `Compact.GetBlockProof` | src/chain.cpp:150-163 | the floor of 2^256 / (target + 1), or zero for a zero, negative or overflowing target; the division never fails |
| `Compact.WorkIsAntitone` | src/chain.cpp:150-163 | valid targets count at least one hash, and a lower target never counts less |
| `Cuckoo.FastRange32` | src/util/fastrange.h:19-22 | maps a 32-bit hash below any nonzero range |
| `Cuckoo.NearlyUniform` | src/util/fastrange.h:10-22 | each result is given by one stretch of the 32-bit numbers, and the stretches differ in length by at most one |
| `Cuckoo.LocationOfHash` | src/cuckoocache.h:241-251 | one location for each of the eight hash functions, in their order |
| `Cuckoo.Cache.Setup` | src/cuckoocache.h:337-350 | an empty table whose slots may all be overwritten, with the wrapped 45 percent epoch size |
| `Cuckoo.Cache.EpochCheck` | src/cuckoocache.h:287-319 | the counter and flags after a check, proved against the aging rule |
| `Cuckoo.CheckLeavesRoom` | src/cuckoocache.h:287-319 | a check never touches the table, never marks an entry of the current generation, never unmarks one, and leaves counter room for an insertion |
| `Cuckoo.TurnoverFreesOld` | src/cuckoocache.h:287-319 | a turnover marks exactly the old generation and makes the current one old; any other check changes no flag |
| `Cuckoo.GoneAfterTwo` | src/cuckoocache.h:287-319 | an entry left alone through two turnovers may be overwritten |
| `Cuckoo.Cache.Contains` | src/cuckoocache.h:476-486 | finds an element exactly when it is stored anywhere in the table; erasing marks only its slot |
| `Cuckoo.Cache.Insert` | src/cuckoocache.h:399-447 | a stored element is renewed in place; otherwise table, kept entries and their generations are conserved up to one dropped entry, and all invariants hold again |
| `Cuckoo.DisplaceConserves` | src/cuckoocache.h:413-446 | the eviction chain of any depth conserves the table as a multiset, the kept entries with their generations, and the location of every element |
| `Cuckoo.NotHeld` | src/cuckoocache.h:476-486 | looking at the eight locations of an element is as good as searching the table |
| `Cuckoo.StaysUnique` | src/cuckoocache.h:399-447 | an insertion never stores an element twice |
| `Cuckoo.Replay` | src/cuckoocache.h:287-486 | over any use no element is stored twice, every element is found exactly when stored, and the current generation never exceeds its size by more than a sixteenth |
| `Cuckoo.InsertThenErase` | src/cuckoocache.h:449-466 | an element inserted and then erased is still found afterwards |
| `Cuckoo.FirstEviction` | src/cuckoocache.h:423-437 | the first eviction takes the second location |
| `Cuckoo.RoundByRound` | src/cuckoocache.h:413-446 | an eviction chain is its first round followed by a shorter chain with the evicted element |
| `Cuckoo.LeavesPlacedAlone` | src/cuckoocache.h:413-446 | the entry just placed survives the next round if and only if there is none, the evicted element has a free location, or its next location is another slot |
| `Cuckoo.PlacedIsTakenOut` | src/cuckoocache.h:413-446 | a new cache and two insertions after which the element inserted last, though placed on the way, is not stored |
| `Radix.Fits` | src/base58.cpp:52 | with a^p at most b^q, digits of base b in ratio q/p hold digits of base a |
| `Radix.EncodeEstimate` | src/base58.cpp:97 | 138/100 digits per byte plus one are enough for every length |
| `Radix.DecodeEstimate` | src/base58.cpp:52 | 733/1000 bytes per digit plus one are enough for every length |
| `Radix.MulAdd` | src/base58.cpp:62-68 | the carry loop multiplies and adds exactly, tracks the digits in use, and ends without a carry |
| `Radix.DigitsOfNum` | src/base58.cpp:114-123 | a digit string without leading zeros is the only one for its number |
| `Base58.EncodeBase58` | src/base58.cpp:87-125 | one '1' per leading zero byte, then the base-58 digits of the rest without leading zeros |
| `Base58.DecodeBase58` | src/base58.cpp:38-133 | returns what the text stands for, and fails exactly for NUL characters, characters outside the alphabet, anything behind trailing white space, or results over the limit |
| `Base58.EncodeThenDecode` | src/base58.cpp:38-133 | every byte string within the limit comes back from its encoding, with any white space around it |
| `Base58.DecodeThenEncode` | src/base58.cpp:38-133 | an accepted text is the encoding of its result up to white space around it |
| `Base58.DecodeExactly` | src/base58.cpp:38-133 | the decoder accepts exactly the padded encodings of byte strings within the limit |
| `Base58.EncodeInjective` | src/base58.cpp:87-125 | different byte strings have different encodings |
| `Base58.AlphabetIs` | src/base58.cpp:17-36 | the alphabet is the letters and digits without 0, I, O and l |
| `Base58.AlphabetOrder` | src/base58.cpp:17-36 | digits are in ASCII order |
| `Base58.ConcreteEncodings` | src/test/data/base58_encode_decode.json:2-14 | some encodings worked out |
| `Base58.EncodeBase58Check` | src/base58.cpp:135-147 | the encoding of the payload followed by its checksum |
| `Base58.DecodeBase58Check` | src/base58.cpp:149-176 | the payload of a text whose checksum matches, otherwise nothing |
| `Base58.DecodeCheckExactly` | src/base58.cpp:135-176 | with a checksum too, exactly the padded encodings of payloads within the limit, whose length with the checksum fits an int, are accepted |

## Left out

- Coins: cursors, HaveInputs, ReallocateCache, EmplaceCoinInternalDANGER and the error-catching view; they add no interesting state.
- Coins.CoinsDb.BatchWrite: the size at which a batch is cut is a free choice; write errors of the database are not modelled.
- CoinsRecovery: reading blocks and undo data from disk and finding them in the block tree; they are parameters, and so is the list of blocks exempt from BIP30.
- CoinsRecovery.DisconnectBlock: for undo records without metadata, written by old versions, only the validity of the view is stated.
- Coins.CoinsCache.AddCoin: requires that an uncached coin added without permission to overwrite is not in the layers below, as the header demands of callers; the code cannot detect this.
- Address manager: Select, GetChance, Size, FindAddressEntry and logging; Select is a probabilistic loop without a bound.
- AddrMan.AddrMan.AddSingle: the outcome of the random test that makes further references rarer is a parameter, a free choice in Add.
- AddrMan.AddrMan.GetAddr: the random shuffle is a free choice of positions.
- AddrTables: buckets are maps of occupied slots instead of arrays filled with -1; ids and times are unbounded.
- AddrDisk.Unserialize: streams are values, so byte formats, versions, the hidden bucket count and I/O errors are not modelled; for streams with repeated addresses only consistency of the result is stated.
- HeadersSync: the request locator, the limit on commitments as a function of time, and logging; work totals and heights are unbounded.
- CheckQueue: stopping the workers, the control object, thread naming, and wake-ups of workers beyond their being allowed at any time.
- AuxPow: serialization, InitAuxPow and the proof-of-work check of the parent header.
- Chain: GetBlockProofEquivalentTime, FindEarliestAtLeast, the block status flags, and time fields.
- Arith256: bitwise operators, decrement, hexadecimal and floating-point conversions.
- Cuckoo: the bit packing and memory order of the collection flags, and setup_bytes.
- Cuckoo.Cache.Setup: the depth limit, a rounded floating-point logarithm of the size, is a parameter of at least one.
- Base58: the two look-up tables are given by ranges; lengths beyond a 32-bit int are not modelled.
- Block validation other than the coins a block spends and makes, script, mempool, wallet, networking, RPC, bech32, block filters and compact blocks are not part of this model.
