# go-norn: models and proofs

This project models the parts of the go-norn node that decide which blocks become part of the chain, and
proves what they keep over every run. It is self-contained: `dafny verify dfyconfig.toml` checks everything.

| Component | Modules | Source |
|---|---|---|
| Entities | `Types`, `Samples` | common/common_km.go, common/block.go |
| Block buffer | `BufferView`, `BlockBuffer`, `BufferRuns`, `BufferSafety`, `BufferVerified`, `BufferPriority`, `BufferDelivery`, `BufferPanic` | core/buffer.go |
| Codec | `Karmem`, `Codec`, `CodecRead`, `CodecObjects`, `TransactionVerify` | common/common_km.go, common/transaction.go |
| Chain store | `DbKeys`, `ChainStore`, `BlockChainStore` | utils/dbtools.go, core/blockchain.go |
| VDF and its pipeline | `Modular`, `Vdf`, `CalculatorRuns`, `CalculatorCallers`, `CalculatorObject` | crypto/calculator.go |
| VRF | `Vrf` | crypto/vrf.go |
| Synchronisers | `BlockSync`, `TimeSync` | node/block_syncer.go, node/time_syncer.go |
| The node | `Node` | core/blockchain.go |

**How concurrency is modelled.** The code between two points where another goroutine may run is one step of a
transition system (`BufferRuns`, `CalculatorRuns`, `BlockSync`). A run is any sequence of steps; a step that is
not enabled changes nothing. The height tests of `Process` and `secondProcess`, which run outside the lock, are
steps of their own. Next to each system stands a class with the source's fields, whose methods are proved to
make exactly these steps, and a method `Execute` that drives the object through any schedule.

**Assumptions.** A hash names one block, and a block sits one above the block it names as its predecessor
(`Types.HashTree`): core/blockchain.go:182-194 builds blocks so, but nothing checks it on arrival
(`BufferPanic.UncheckedHeightPanics` shows what one wrong height does). Inside the buffer the answer of the VDF
check is an arbitrary boolean. One buffer exists at a time: it and `BlockChain.InsertBlock`, which the handlers
use for blocks of height 0 (node/handler_funcs.go:58, node/handler_funcs.go:113, node/manager.go:420), are the only
senders on the store's channel; a second genesis block would start a second buffer on it. SHA-256, ECDSA and the
curve are parameters. The writer library is not part of the repository: `Alloc` is taken to append zero bytes and
return the old length, `Reset` to empty the buffer.

**Where the code does less than it seems to.** The model follows the code in each case, and the condition under
which the intended property holds is proved too.

- `updateTreeView` (core/buffer.go:332-349) lowers `bufferedHeight` before its loop, so it clears only one
  successor of a replaced block, while its comment and wiki/区块缓冲视图.md let a replacement take effect on
  all of them. Selecting a block leaves a gap exactly when it replaces a sibling under a block selected two
  heights up (`GapsComeFromBurying`); over whole runs too, the view stays gap-free (`GapFreeExactly`) and nothing
  selected is left above `bufferedHeight` (`CoveredExactly`) exactly when that never happens. Runs without it never
  reach a nil head, and some runs with it do (`StaleSuccessorPanics`, `PanicIsReachable`): `PopSelectedBlock` then
  dereferences nil, exactly when it is asked to pop an empty head (`PopAndPanicExactly`).
- The transaction cache is not transparent: a transaction included again gets a new database record but keeps
  its cached one, exactly when it is cached at the time (`StaleExactly`, `StaleIsPossible`). A stale record still
  names a stored block that holds the transaction (`OnceRecordedNames`).
- Height, block hash and index are part of what a signature covers and are overwritten in the stored record, so
  a record read back hashes to the signed bytes only if the sender had signed exactly the place the transaction
  got (`RecordKeepsPreimageExactly`).
- `run` installs seed and proof under a read lock, so after the second seed of a fresh node `GetSeedParams` can read
  a pair nobody appended (`TornReadIsPossible`). Where values do not repeat, the pair read is an appended one
  exactly when as many proofs as seeds were installed at the two reads, or the first seed was read with the initial
  proof 0 it was appended with (`ReadingExactly`); a reader that finds no seed queued or being installed once it
  holds the lock always reads an appended pair (`QuietReadIsInStep`).
- An install clears the interrupt flag even for a seed that arrived after the installed one
  (`PendingWithoutFlag`): the flag is set exactly when nothing was installed since the last append
  (`FlagExactly`), so pending seeds go unflagged exactly when something was (`PendingUnflaggedExactly`).
- A node that starts on a database initialises its calculator without appending the genesis seed
  (core/blockchain.go:116-126). Every other caller appends only what `VerifyBlockVDF` passed, so the seed stays 0
  for ever and only blocks with VDF result 0 pass (`NoFirstSeed`).
- Proof 0 verifies result 0 for every seed (`ZeroProofAcceptsZero`), so acceptance alone does not tie a result to
  its seed; with the honest proof it does (`HonestProofAcceptsExactly`).
- A signature over 73 bytes is cut by the reader, so the block cache disagrees with the database exactly when it
  holds a block with such a signature (`GetBlockByHash`); blocks read from bytes never have one
  (`DecodedIsShort`).
- With a time parameter of 0, `calculate` returns an unreduced seed, which verifies only when it happens to be
  reduced already (`NoRoundsExactly`).
- `insertBlock` compares hashes but not heights, and lets a genesis block in without a link test: the stored
  chain stays linear exactly on blocks whose heights fit (`LinearExactly`), and others are stored
  (`LinearCanBreak`).

## Model

| member | source | states |
|---|---|---|
| BufferView.CompareBlockByPriority | core/buffer.go:372-389 | the newcomer wins exactly against a sibling that does not strictly beat it in (transaction count, earlier timestamp), and neither of two siblings beats the winner |
| BufferView.WinnerIs | core/buffer.go:372-389 | of two siblings the newcomer stays exactly with more transactions, or as many and no later timestamp |
| BufferView.OutcomeExactly | core/buffer.go:121-162 | for every view, block and VDF answer: parked, discarded, refused by the VDF check or admitted, each exactly by what the predecessor is and what the answer is |
| BufferView.RefusedChangesNothing | core/buffer.go:125-162 | a block that is parked, discarded or fails the VDF check leaves the latest block, the selection, bufferedHeight and popChan as they were |
| BufferView.AdmittedExactly | core/buffer.go:164-181 | while the window has room: when an admitted block takes its height, which entry then goes, and that nothing else changes |
| BufferView.PoppedExactly | core/buffer.go:184-187 | past latest + 12: what is popped and what is left of the view |
| BlockBuffer.BlockBuffer.constructor | core/buffer.go:53-89 | a new buffer has empty queues and a view of the latest block alone |
| BlockBuffer.BlockBuffer.ProcessTake | core/buffer.go:92-117 | the unlocked half of Process: too low or known blocks stop here, others are marked known |
| BlockBuffer.BlockBuffer.SecondTake | core/buffer.go:195-216 | the unlocked half of secondProcess: too low blocks stop here |
| BlockBuffer.BlockBuffer.LockedBody | core/buffer.go:125-192 | the locked half of both goroutines leaves the view, the parked block and the popped block the step function says, in every branch |
| BlockBuffer.BlockBuffer.AdmitBlock | core/buffer.go:164-187 | select, update and pop of a verified block |
| BlockBuffer.BlockBuffer.PopSelectedBlock | core/buffer.go:284-301 | the head becomes the latest block and the entry below it goes; None exactly where the source dereferences nil |
| BlockBuffer.BlockBuffer.UpdateTreeView | core/buffer.go:332-349 | the loop clears exactly the entry above the start, because the bound moved first |
| BlockBuffer.BlockBuffer.GetPriorityLeaf | core/buffer.go:310-328 | the highest selected block below the given height, or the latest block when there is none |
| BlockBuffer.BlockBuffer.SelectBlockFromList | core/buffer.go:352-367 | nil exactly for the empty list, else the fold of compareBlock |
| BufferRuns.Execute | core/buffer.go:92-279 | under any schedule of the two goroutines the object passes through the states of the transition system |
| BufferPriority.BestOfIsUnbeaten | core/buffer.go:352-389 | over siblings the selected block is a member no member strictly beats |
| BufferPriority.OrderIndependentExactly | core/buffer.go:352-389 | the selection is the same for every order of the list if and only if one block alone is unbeaten |
| BufferPriority.DistinctKeysOrderIndependent | core/buffer.go:352-389 | distinct (count, timestamp) keys make every permutation select the same block |
| BufferSafety.BlocksAreConserved | core/buffer.go:102-139 | in every state of every run, a hash admitted by knownBlocks is in exactly one of: a hand, the second queue, processed, dropped; any other hash is in none |
| BufferVerified.OnlyVerifiedBlocks | core/buffer.go:155-161 | in every run each selected, popped or latest block but the root passed the VDF check in some body that held it |
| BufferSafety.ComparesOnlySiblings | core/buffer.go:164-176 | in every run compareBlock is only ever called on blocks with one parent |
| BufferSafety.SelectedViewIsLinked | core/buffer.go:119-190 | in every run: bufferedHeight lies in [latest, latest + 12] and so does every selected height; neighbouring selected blocks are hash-linked, the one above latest points to latest, nothing else at or below latest is selected |
| BufferSafety.SelectedSiblingIsBest | core/buffer.go:114-181 | every accepted block whose parent is latest or selected has a selected sibling it does not strictly beat |
| BufferSafety.PoppedBlocksClimb | core/buffer.go:284-301 | what popChan received climbs from the root one height and one hash link at a time and ends in latest |
| BufferSafety.PopAndPanicExactly | core/buffer.go:184-187 | in every reachable view a body pops exactly when it accepts a block at latest + 13, and panics exactly when the head is nil then |
| BufferSafety.LeafChildIsAdmitted | core/buffer.go:310-328 | a block built on the priority leaf is neither parked nor discarded by the view it was built on |
| BufferSafety.GapsComeFromBurying | core/buffer.go:332-349 | selecting a block into a gap-free view opens a gap if and only if it replaces a block that has a selected block two heights above |
| BufferSafety.GapFreeExactly | core/buffer.go:332-349 | over whole runs: the view is gap-free in every state if and only if nothing is ever buried, and then the run never panics |
| BufferSafety.CoveredExactly | core/buffer.go:332-349 | over whole runs: nothing selected ever lies above bufferedHeight if and only if nothing is ever buried |
| BufferDelivery.QuiescentRunIsDetermined | core/buffer.go:92-279 | fork-free chain, any order, duplicates and interleaving: once nothing waits, the first max(0, n - 12) blocks were popped in order and the rest are selected |
| BufferDelivery.ViewAfterExactly | core/buffer.go:119-190 | that state in full: latest block, the heights and blocks selected, the processed hashes, bufferedHeight and bufferFull |
| BufferDelivery.DeliveryOrderIsIrrelevant | core/buffer.go:92-279 | from any state of any run in which the chain was delivered: finishing the hands, the first queue and (q + 2)^2 iterations of secondProcess, for q queued or parked blocks, ends with nothing waiting, in that same state |
| BufferPanic.StaleSuccessorPanics | core/buffer.go:284-301 | for every chain of 14 blocks above the root and every sibling usurping its first one, a certain arrival order ends in the nil dereference |
| BufferPanic.PanicIsReachable | core/buffer.go:332-349 | such blocks exist: a fresh buffer can panic on well-formed, VDF-valid blocks |
| BufferPanic.UncheckedHeightPanics | core/buffer.go:164-187 | a verified child of latest claiming a height beyond the window panics the buffer exactly when the head is empty |
| Karmem.WordRoundTrip | common/common_km.go:655-673 | little-endian words of any width read back |
| Karmem.WordBytes | common/common_km.go:655-673 | the four bytes of a word lowest first, and the eight of an int64 as its two's complement |
| Karmem.Int64RoundTrip | common/common_km.go:853-864 | an int64 written by its bits reads back, negative values included |
| Codec.WriteBody | common/common_km.go:62-156 | TransactionBody.Write into any table, wherever it lies in the buffer, leaves exactly the fields there and the slices behind everything, and changes nothing else |
| Codec.WriteHeader | common/common_km.go:540-578 | the same for BlockHeader.Write |
| Codec.WriteBodyAsRoot | common/common_km.go:58-60 | on an empty writer the result is the image EncodeBody |
| Codec.WriteTransaction | common/common_km.go:271-291 | the slot names a body appended behind everything written so far; nothing else changes |
| Codec.WriteBlockAsRoot | common/common_km.go:645-680 | Block.Write, loop included, leaves EncodeBlock: root, header, slots, bodies, all disjoint |
| CodecRead.HeadFields | common/common_km.go:71-80 | the wire offsets of the fixed fields of a written body |
| CodecRead.HeadWords | common/common_km.go:82-105 | address, length and element size of the first two slices, the first right behind the 256-byte table |
| CodecRead.MoreHeadWords | common/common_km.go:106-129 | the same for the next two |
| CodecRead.RestFields | common/common_km.go:130-153 | the wire offsets of its fields after the slices, and of the signature's address, length and element size |
| CodecRead.HeaderFields | common/common_km.go:549-575 | the wire offsets of a written header |
| CodecRead.BlockItems | common/common_km.go:645-671 | the wire words of a block root: its size, the address of the header, address, length and element size of the slots |
| CodecRead.BodyIsReadExactly | common/common_km.go:812-825 | body and header are there exactly if their size word and as many bytes as it says are |
| CodecRead.ShortBodyReadsZero | common/common_km.go:826-985 | each field of a body that its size word leaves out reads as zero or empty |
| CodecRead.BodyRoundTrip | common/common_km.go:162-249 | a body reads back from any surrounding bytes, with its signature cut to its first 73 bytes and nothing else changed |
| CodecRead.HeaderRoundTrip | common/common_km.go:584-622 | a header reads back from any surrounding bytes |
| CodecRead.BlockReadsBack | common/common_km.go:645-697 | every block under 4 GiB, with any number of transactions, reads back with all fields equal, signatures cut at 73 bytes |
| CodecRead.BlockRoundTrip | common/common_km.go:645-697 | Read after Write is the identity if and only if no signature is longer than 73 bytes |
| CodecRead.DecodedIsShort | common/common_km.go:967-985 | a block read from any bytes has no signature over 73 bytes |
| CodecRead.TransactionReadsBack | common/common_km.go:267-299 | the same for a transaction written as root |
| CodecObjects.ReadSlice | common/common_km.go:183-192 | growing, reslicing and copying leaves exactly the source bytes, whatever the destination slice held |
| CodecObjects.ReadArray | common/common_km.go:163-168 | a fixed array holds the source bytes and zeros behind them |
| CodecObjects.TransactionBodyObject.Read | common/common_km.go:162-249 | after Read the object holds what the bytes decode to, whatever it held before |
| CodecObjects.BlockHeaderObject.Read | common/common_km.go:584-622 | the same for a header |
| CodecObjects.BlockObject.ReadAsRoot | common/common_km.go:682-697 | the same for a block that had any transactions before, more or fewer |
| TransactionVerify.Preimage | common/transaction.go:43-65 | write, read back, blank hash and signature, reset, write again yields the bytes of the body with hash zero, signature empty and every other field as it was, for signatures of any length |
| TransactionVerify.Verify | common/transaction.go:18-80 | Verify accepts exactly when the digest of those bytes is the stated hash and the signature fits it |
| TransactionVerify.BuildThenVerify | core/test_tools.go:15-50 | what buildTransaction signs, Verify accepts |
| TransactionVerify.PreimageDeterminesContent | common/transaction.go:44-66 | two bodies hash the same bytes if and only if they agree on everything but hash and signature |
| DbKeys.FormatIntInjective | utils/dbtools.go:14-18 | decimal heights, negative ones included, are distinct |
| DbKeys.DigitsAreDecimal | utils/dbtools.go:14-18 | heights are written in decimal without a leading zero |
| DbKeys.KeyBytes | utils/dbtools.go:10-27 | the five key families byte for byte |
| DbKeys.KeysAreDistinct | utils/dbtools.go:10-27 | block, height, transaction, data and latest keys are injective and mutually disjoint |
| ChainStore.BatchIsStore | core/blockchain.go:477-573 | the keys/values batch of a block is its three index entries followed by its records, the last of equal hashes winning |
| ChainStore.StoreExtends | core/blockchain.go:477-573 | storing a block extends what every key of the database means by that block and nothing else |
| ChainStore.DataDoesNotDisturb | utils/dbtools.go:24-27 | a contract data record changes no chain key |
| ChainStore.BlockReadsTrue | core/blockchain.go:334-348 | a database read by hash finds the stored block with that hash, its signatures cut, or none |
| ChainStore.RecordNamesStoredBlock | core/blockchain.go:499-521 | a stored record names by block hash, height and index a stored block holding that transaction there, otherwise unchanged; no record means no stored block holds it |
| ChainStore.RecordFinds | core/blockchain.go:499-521 | of repeated transactions the record is the last one |
| ChainStore.RecordKeepsPreimageExactly | core/blockchain.go:502-505 | the stored copy hashes to the signed bytes if and only if its height, block hash and index are the signed ones |
| BlockChainStore.LinearExactly | core/blockchain.go:435-472 | an accepted block keeps the chain linear from height 0 if and only if its height fits its place |
| BlockChainStore.LinearCanBreak | core/blockchain.go:435-472 | a concrete accepted block that breaks the line |
| BlockChainStore.BlockChain.constructor | core/blockchain.go:74-131 | starting on a database recovers the chain stored in it, the latest block and the base of the buffer |
| BlockChainStore.BlockChain.GetBlockByHash | core/blockchain.go:322-348 | cache transparency for every eviction choice: the answer is the stored block, and it is the database's answer if and only if no cached block with a signature over 73 bytes is hit |
| BlockChainStore.BlockChain.GetBlockByHeight | core/blockchain.go:356-399 | the same by height, refused above the latest height once there is one |
| BlockChainStore.BlockChain.GetLatestBlock | core/blockchain.go:285-314 | the last stored block, from the field or from the database |
| BlockChainStore.BlockChain.GetTransactionByHash | core/blockchain.go:629-656 | a miss is the database's answer, a hit a record that once was; equal to the database's while the cache is fresh |
| BlockChainStore.BlockChain.InsertBlock | core/blockchain.go:427-573 | exactly the acceptable blocks extend chain and database, by themselves alone; a new genesis block replaces the buffer; exactly when the transaction cache stays fresh |
| BlockChainStore.BlockChain.InsertData | utils/dbtools.go:24-27 | a data record leaves the store valid and its chain as it was |
| BlockChainStore.StaleExactly | core/blockchain.go:499-521 | inserting a block keeps the transaction cache fresh if and only if it repeats no cached transaction |
| BlockChainStore.StaleIsPossible | core/blockchain.go:629-656 | a concrete chain on which the cache goes stale |
| BlockChainStore.OnceRecordedNames | core/blockchain.go:629-656 | even a stale cached record names a stored block holding the transaction there |
| Vdf.Calculate | crypto/calculator.go:239-275 | calculate gives up exactly when a round reads the flag set; otherwise, for t >= 1, it returns seed^(2^t) mod n and the proof seed^(2^t div l) mod n, which the verifier accepts |
| Vdf.Verify | crypto/calculator.go:279-300 | Verify accepts exactly pi^l * seed^(2^t mod l) mod n |
| Vdf.HonestProofAcceptsExactly | crypto/calculator.go:239-300 | with the honest proof the verifier accepts the honest output and no other result |
| Vdf.NoRoundsExactly | crypto/calculator.go:249-274 | for t = 0, exactly which seeds verify |
| Vdf.ZeroProofAcceptsZero | crypto/calculator.go:279-300 | with proof 0 exactly result 0 verifies, for every seed |
| CalculatorRuns.InstalledPairsWereAppended | crypto/calculator.go:147-230 | in every run: the installed seed and proof were appended together, and the seed before them is the one appended before |
| CalculatorRuns.AppendedWereJustified | crypto/calculator.go:147-166 | every appended pair was let in because the seed installed then was 0 or verified it |
| CalculatorRuns.InterruptedSendsNothing | crypto/calculator.go:217-252 | in every run: once the flag is up in the middle of a calculation, the next round gives it up, and until another install nothing is sent |
| CalculatorRuns.UninterruptedSends | crypto/calculator.go:219-227 | from any state of a run with the flag down, the rest of the rounds send seed^(2^t) mod n and seed^(2^t div l) mod n |
| CalculatorRuns.TakenInOrder | crypto/calculator.go:98-108 | GetSeedParams takes the outputs in the order they were computed, each result with its own proof |
| CalculatorRuns.TakenPairsVerify | crypto/calculator.go:98-108 | every (result, proof) pair taken from the result channels is the output of one appended seed and verifies against it |
| CalculatorRuns.ChangedMeansPending | crypto/calculator.go:160-216 | the flag is set only while a seed is still to be installed |
| CalculatorRuns.FlagExactly | crypto/calculator.go:160-216 | in every run the flag is set if and only if something was appended and nothing installed since |
| CalculatorRuns.PendingUnflaggedExactly | crypto/calculator.go:160-216 | while seeds are pending the flag is down if and only if some seed was installed after the last append |
| CalculatorRuns.ReadingsInStep | crypto/calculator.go:110-116 | a pair read under the lock was appended together whenever as many seeds as proofs were installed at the two reads, and the proof lags by one at most |
| CalculatorRuns.ReadingExactly | crypto/calculator.go:110-116 | where no appended value repeats and no seed is 0, the pair read is an appended one if and only if those counts agree and are not 0, or no proof was installed yet and the first seed was appended with proof 0 |
| CalculatorRuns.QuietReadIsInStep | crypto/calculator.go:110-116 | a reader that finds no seed queued, held or being installed reads an appended pair, whatever happens between its reads |
| CalculatorRuns.PassesExactly | crypto/calculator.go:124-166 | VerifyBlockVDF and AppendNewSeed side by side: passed and refused are exactly the repeats, neither is exactly a first seed, and with the honest proof exactly the honest output and the repeats pass |
| CalculatorRuns.OutputsPass | crypto/calculator.go:124-140 | in every run a result computed for the seed still in force passes |
| CalculatorCallers.TornReadIsPossible | crypto/calculator.go:205-220 | on a fresh node any second seed with a non-zero proof can be read with the genesis proof: a pair nobody appended |
| CalculatorCallers.PendingWithoutFlag | crypto/calculator.go:205-216 | on a fresh node two seeds that pass while the genesis seed is installed can leave the second pending with the flag down |
| CalculatorCallers.FirstPairIsGenesis | core/blockchain.go:574-587 | in every run of a fresh node the first appended pair is the genesis seed with proof 0 |
| CalculatorCallers.NoFirstSeed | core/blockchain.go:116-126 | in every run of a node started on a database nothing is ever appended, the seed stays 0 and only seed 0 passes |
| CalculatorObject.Calculator.VerifyBlockVDF | crypto/calculator.go:124-140 | repeats of the last two seeds pass and are what AppendNewSeed refuses among what passes; with the honest proof, besides them exactly the honest output of a non-zero seed |
| CalculatorObject.Propose | crypto/calculator.go:124-166 | what one node computed passes at every node with the same seed installed and is queued there unless it is a repeat |
| CalculatorObject.Calculator.AppendNewSeed | crypto/calculator.go:147-166 | a refused pair changes nothing, any other sets the flag and enters both channels |
| CalculatorObject.Execute | crypto/calculator.go:98-230 | under any schedule the object passes through the states of the transition system |
| Vrf.MulMod | crypto/vrf.go:53-57 | scalars count modulo the group order |
| Vrf.Calculate | crypto/vrf.go:34-83 | value, challenge and response as made from key and random number, the challenge from the encodings of both points |
| Vrf.Verify | crypto/vrf.go:155-183 | the test the verifier makes, with the product of both recomputed points' encodings |
| Vrf.SecondPointCounts | crypto/vrf.go:169-180 | where the first encoding is invertible, two second points give one challenge if and only if their encodings are congruent modulo the order |
| Vrf.VerifyUnderBoth | crypto/vrf.go:155-183 | a proof that passes under one public key passes under another exactly in that case |
| Vrf.EligibleExactly | crypto/vrf.go:96-108 | a digest is eligible exactly if its thousandfold reaches 2^256 |
| Vrf.HonestProofVerifies | crypto/vrf.go:59-81 | in any group of that order the verifier recomputes the owner's challenge: completeness for every key, message and random number |
| Vrf.CheckHonest | crypto/vrf.go:117-143 | every other node finds the owner eligible exactly when the owner does |
| BlockSync.HandedInOrder | node/block_syncer.go:206-234 | in every run the heights handed to the chain are 0, 1, 2, ..., each once, and knownHeight <= max(-1, remoteHeight) |
| BlockSync.HandedOnlyGrows | node/block_syncer.go:304-321 | what was handed over stays handed over and peer height never drops |
| BlockSync.HandedHadArrived | node/block_syncer.go:287-321 | only blocks that arrived are handed over or kept |
| BlockSync.ArrivedIsKept | node/block_syncer.go:287-321 | in every run an arrived block stays until it is handed over at its height, unless a later arrival at that height takes its place |
| BlockSync.RemoteIsHighest | node/block_syncer.go:158-166 | in every run the peer height is the highest one reported |
| BlockSync.TargetIsHighest | node/block_syncer.go:168-173 | in every run the target is the highest buffered height reported while blocks were being downloaded |
| BlockSync.SyncedExactly | node/block_syncer.go:158-189 | in every run the status is synced exactly if some report found the stored chain at the target of that moment and nothing started the synchroniser again since |
| BlockSync.SweepHandsOver | node/block_syncer.go:206-225 | an uninterrupted sweep hands over every consecutive block that had arrived |
| BlockSync.FirstWanted | node/block_syncer.go:263-285 | the height selected is missing, within range and not asked for lately, and no lower one is |
| BlockSync.SelectedExactly | node/block_syncer.go:263-285 | the height asked for is missing and not asked for in the last 3 s, no lower one is, and no other time stamp moves |
| BlockSync.AskedApart | node/block_syncer.go:263-285 | in every run with a clock that does not go back, two requests for one height lie more than 3 s apart |
| BlockSync.BlockSyncer.SelectBlockHeight | node/block_syncer.go:263-285 | the loop returns that height, stamps it, gives the heights passed over the zero time and changes nothing else |
| BlockSync.Execute | node/block_syncer.go:81-234 | under any schedule of its goroutines the object passes through the states of the transition system |
| BlockSync.BlockSyncer.HandleStatus | node/block_syncer.go:158-189 | one status message updates peer height, target and status as the step function says |
| BlockSync.BlockSyncer.InsertBlock | node/block_syncer.go:304-321 | the block at the height is handed over and forgotten, or nothing happens |
| TimeSync.ErrorAfterExchange | node/time_syncer.go:113-135 | an applied response leaves the node off its peer by half the delay difference and half of both clocks' movements, within truncation |
| TimeSync.ErrorIsBounded | node/time_syncer.go:113-135 | the offset left is at most half the delay difference and half of both movements plus 1 ms, whatever it was before |
| TimeSync.Synchronise | node/time_syncer.go:93-150 | two objects with any skew of their physical clocks: asking, both stamps of the peer, other responses meanwhile at either node and the processing of the answer produce that exchange; if it is applied, the two logic clocks are within the bound, and within half the delay difference plus 1 ms where neither moved |
| TimeSync.BoundIsTight | node/time_syncer.go:120-120 | the bound is reached |
| TimeSync.SyncedExactly | node/time_syncer.go:125-149 | SYNCED if and only if some five consecutive valid responses after the first were within tolerance, that is strictly between -1000 and 1000 ms (`FiveInARowExactly`) |
| TimeSync.UnappliedKeepsDelta | node/time_syncer.go:113-142 | a response with an error code changes nothing, one out of tolerance only resets the count |
| TimeSync.MovesExactly | node/time_syncer.go:119-142 | in every run a response moves the clock by its estimate if it is valid and the first such or within 1000 ms, otherwise not at all |
| TimeSync.DeltaIsSum | node/time_syncer.go:119-142 | in every run the clock is off its start by the sum of exactly those estimates |
| TimeSync.SyncedStays | node/time_syncer.go:125-149 | SYNCED is never left |
| TimeSync.TimeSyncer.ProcessSyncRespond | node/time_syncer.go:113-150 | the method makes exactly the step of the state machine |
| TimeSync.TimeSyncer.HandleRequest | node/handler_funcs.go:188-199 | a request leaves with the peer's logic clock at its arrival and at its answer, which other responses may move in between, otherwise unchanged |
| TimeSync.TimeSyncer.HandleRespond | node/handler_funcs.go:201-212 | a response is stamped on arrival and processed by the state machine |
| Node.PoppedAreStored | core/blockchain.go:137-143 | in every run of the buffer, however far popChan is consumed and whatever blocks of height 0 the other sender put in between (core/blockchain.go:618), the store accepts every popped block and stays linear from height 0 |
| Node.ReceivedExactly | core/blockchain.go:137-143 | what the store's channel delivers: the next popped block at each turn of the buffer while there is one, and every block of height 0 |
| Node.BufferThenStore | core/blockchain.go:137-143 | the same for the two objects, starting on any stored chain: the store ends in the buffer's latest block once popChan is empty |
| Node.FreshNodeStoresTheChain | core/blockchain.go:603-611 | fresh node: if the synchroniser handed over a linked chain 0..k and the buffer is idle, the store holds exactly 0..max(0, k - 12) and bufferedHeight is k |

## Left out

- Queue and channel capacities, timers and request intervals in real time: queues are unbounded and any schedule is a run.
- Eviction from `knownBlocks` and `processedBlocks` (LRU caches of fixed size in core/buffer.go): both are sets here.
- The VDF check inside the buffer is an arbitrary answer at each body, not the calculator's state at that moment.
- BufferSafety.SelectedViewIsLinked: stated up to a panic, which ends the process; so are the other results about the view.
- `insertBlock` is one step for readers: the window between its cache update and its database batch is not split.
- BlockChainStore.BlockChain.InsertBlock: asks for a block whose image fits 32-bit offsets; a second genesis block is told by `bufferBase` only, not by running a second buffer.
- BlockBuffer.BlockBuffer.LockedBody: the `AppendNewSeed` call after a block is admitted belongs to the calculator's own transition system and is not repeated in the buffer's.
- Codec.WriteBlockAsRoot: `Block.Write` into a table allocated by a caller, which nothing in the repository does.
- Codec.WriteTransaction: word writes above 4 GiB keep their low 32 bits as in the source, but the round trips ask for images under 4 GiB.
- CodecRead.BlockReadsBack: reads that fail an offset check fall back to a null viewer in raw memory (common/common_km.go:812-821); they decode to None here.
- CodecObjects.ReadSlice: the destination's backing memory is a value, so two slices sharing memory are not modelled.
- TransactionVerify.Verify: decompression of the public key is part of the signature parameter.
- Vdf.Calculate: negative time parameters and a zero modulus or proof parameter, which panic or take modular inverses in big.Int.
- Vrf.Verify: a value that is no point is rejected here; the source continues with nil coordinates. The point at infinity has no compressed form, so `CheckHonest` asks for a value that survives compression.
- TimeSync.SyncedExactly: the genesis node, whose status is set by `Start`, and int64 overflow of clock values.
- BlockSync.BlockSyncer.HandleStatus: `SetSynced` on the genesis node, which a later status message can undo, and peer bookkeeping in `run`.
- TimeSync.Synchronise: drift of the physical clocks during an exchange; their skew is constant there.
- Hardness of the VDF and unforgeability of the VRF, which are cryptographic assumptions.
- GeneralParams, GenesisParams and DataCommand records: the same codec pattern with smaller structs.
- Contract data processing beyond its key (core/data.go), the transaction pool, the Merkle root (core/merkle.go), networking, RPC, metrics and logging.
