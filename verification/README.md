# ForgeChain in Dafny

A model of the node of ForgeChain, a small proof-of-work blockchain, and proofs about it.

The heart of the model is `ChainManager`: the block list with its hash index, the
ledger, the mempool, the orphan pool and the storage mirror, together with the
consensus rules that judge blocks. Each of these is a class whose methods update its
fields in place, as in the program, and each method is proved against a function or
relation on values. `NodeModel` puts them together into one state machine: a step is
one submitted block, one submitted transaction, one answered catch-up or one restart
on the node's own database. The class
`Manager.ChainManager` is proved to perform only these steps, and the theorems are
about every state of every run of them, in any order.

Around that core stand the wire formats, the catch-up protocol between two nodes, the
miner, the restart from disk, and the rule for crossed connections.

| file | what it holds |
|---|---|
| `Types.dfy` | blocks, transactions, hashes, 64-bit wrap-around, the cryptographic oracles |
| `Ledger.dfy`, `Reorg.dfy`, `Supply.dfy` | applying and reversing transactions; what a reorganisation does to the ledger; money and nonces |
| `Consensus.dfy` | target, coinbase rule, difficulty, median time past |
| `Chain.dfy`, `Orphans.dfy`, `Forks.dfy` | the chain and its index, the orphan pool, tracing and judging branches |
| `Mempool.dfy`, `Storage.dfy`, `Codec.dfy`, `Layout.dfy` | pending transactions, the block table, the byte formats and where each field lies in them |
| `Node.dfy`, `Invariant.dfy`, `Runs.dfy` | the state machine, what every step keeps, and what that means for whole runs |
| `Tracking.dfy`, `Guarantees.dfy` | exactly when the ledger keeps up with the chain; money, nonces and restarts over whole runs |
| `Waiting.dfy`, `Offers.dfy` | what becomes of blocks that wait for a missing parent, and of transactions |
| `Witnesses.dfy`, `Siblings.dfy`, `Towers.dfy` | runs in which the node does not do what one might expect |
| `Manager.dfy` | the class that performs the steps |
| `Sync.dfy`, `Locators.dfy`, `Rounds.dfy`, `Noise.dfy`, `CatchUp.dfy` | locators and how close they lead, convergence of two nodes in one answer or in many, answers with other blocks among them, one catch-up over bytes |
| `Template.dfy`, `Restart.dfy`, `Dials.dfy` | mining, starting on an existing database, duplicate connections |

## Assumptions

- Hashing and signature verification are unknown total functions (`Types.Crypto`).
  Injectivity is assumed only on the blocks in play (`known`) and on the transactions
  of the branches concerned, and no block in play hashes to the zero hash.
  `Codec.BlockHashesCollisionFree` and `Codec.TxHashesCollisionFree` reduce both to
  collision-freedom of the digest on the serialized bytes. No signature is valid for the
  coinbase sender.
- 64-bit arithmetic wraps in the model as it does in the program. Where a theorem needs
  that some sum does not reach 2^64, that is one of its hypotheses.
- Two ledgers are compared address by address with absent counted as zero (`Same`);
  `Covers` says in addition that no known address was lost. The two differ only for
  transactions that cost nothing, and the theorems on whole runs are about `Same`.
- Parent links in the orphan pool are assumed acyclic only where the ends of branches
  are claimed to be pairwise unrelated or to be exactly the leaves.

## Where the program does not do what one might expect

For each of these there is the exact condition, proved for all inputs, and a run of the
node that violates it.

- A reorganisation ignores refused reversals and applications, so the ledger can leave
  the chain behind. `LedgerReorg.ReorgDrift` says by exactly how much and
  `Tracking.SwitchTracks` when not. In `Witnesses.SpentRewardIsKept` a miner is rewarded
  on both branches and has spent the reward in a signed payment that both contain.
- A refused block is rolled back, but a reversal in the rollback is itself refused when
  the credit it takes back had wrapped (`Accounting.BlockAtomicity`,
  `LedgerReorg.RollbackMatches`; `Witnesses.WrappedCreditStays`).
- A reversal leaves an address at zero, and a sender at zero may send what costs nothing,
  where a sender without an entry may not. The ledger and a replay then disagree about a
  block (`Tracking.ExtendTracks`; `Witnesses.FreeTransactionDivides`).
- `adopt_branch` does not ask the ledger, so a node can hold a chain that does not
  replay, and its own database then stops it from starting again
  (`Restart.RestartRebuilds`; `Witnesses.UnfundedIsAdopted`).
- `adopt_branch` repeats neither the target nor either coinbase check (`Runs.AdoptChecked`,
  `Runs.RunChecked`; `Witnesses.UncheckedIsAdopted`).
- A missing parent that extends the tip wakes none of the blocks that wait for it. One
  that joins the chain further down does, but only the heaviest branch through it is
  tried, and if that is not signed, a lighter one that is valid, signed and heavier than
  the tip is not adopted either (`Waiting.ParentArrives`, `Waiting.ParentAlwaysHelps`;
  `Siblings.WaitsOnInVain`, `Siblings.UnsignedBranchBlocks`).
- A heavier node's answer to a catch-up is adopted exactly when the block it builds on is
  still on the chain, and a switch in the meantime can take it away (`Sync.LateAdoption`;
  `Witnesses.AnswerComesTooLate`).
- A heavier node stays out of reach when the part of its chain that one answer carries
  does not outweigh the tip, since the next answer is the same (`Rounds.LimitedAnswer`;
  `Towers.NeverReached`).
- Everything the chosen peer sends during a catch-up is taken for its answer, and one block
  that does not belong spoils it (`Noise.NoisyAnswer`; `Witnesses.StrayBlockSpoils`).

Two more things a reader of the documentation should know:

- A switch leaves the transactions of the new branch in the mempool. While the ledger
  tracks the chain, they are not selected for another block (`Mining.SelectedIsFresh`).
- docs/protocol.md section 8.1 lists parameters (15 bits, 8 bits, 10 s) that differ from
  include/consensus/ConsensusParams.hpp (18 bits, 18 bits, 1 s), and section 3.5 caps a
  locator at 64 hashes where include/network/GetBlocks.hpp says 1028. The model follows
  the code; parameters are arbitrary in every theorem.

## Model

| member | source | states |
|---|---|---|
| Accounting.ReverseUndoesApply | src/core/Ledger.cpp:21-48 | reversing an applied transaction succeeds if and only if its credit did not wrap, and then restores every balance and next nonce, self-transfers and coinbase included |
| Accounting.ApplyUndoesReverse | src/core/Ledger.cpp:21-48 | a reversed transaction applies again if and only if giving the sender back its cost did not wrap, and then every entry is as before |
| Accounting.BlockAtomicity | src/chain/ChainManager.cpp:206-223 | a block is applied exactly when all its transactions are authentic and apply in order; refused after any number of them, these are reversed, no reversal is refused if and only if no credit among them wrapped, and then every balance and next nonce is as before |
| Accounting.UndoIsExact | src/chain/ChainManager.cpp:215-217 | undoing a cleanly replayed list newest first is never refused if and only if no credit in it wrapped, and then gives the ledger from before |
| Accounting.ReplayRespectsCovers | src/core/Ledger.cpp:21-34 | zero entries left behind by reversals change nothing: what replays on the clean ledger replays on the other with the same result |
| Accounting.Ledger.Nonce | src/core/Ledger.cpp:59-63 | the next nonce, 0 for an unknown address |
| Accounting.Ledger.ApplyTransaction | src/core/Ledger.cpp:21-34 | in place: refused without effect or applied, as the specification function says |
| Accounting.Ledger.ReverseTransaction | src/core/Ledger.cpp:35-48 | in place: refused without effect or reversed |
| Accounting.Ledger.ApplyTransactions | src/chain/ChainManager.cpp:206-223 | the loop with its rollback loop computes the block-level specification |
| LedgerReorg.ReplayEffect | src/core/Ledger.cpp:21-34 | a clean replay moves every address by the sum of the effects of the transactions, up to whole turns of 2^64 |
| LedgerReorg.CleanBranchNoReplays | src/core/Ledger.cpp:27-30 | in a list that replays cleanly from any ledger no transaction other than a coinbase occurs twice |
| LedgerReorg.ReorgDrift | src/chain/ChainManager.cpp:302-328 | with shared transactions skipped and refusals ignored, every address ends where replaying the new branch puts it, plus what refused reversals kept, minus what refused applications withheld |
| LedgerReorg.ReorgMatchesReplay | src/chain/ChainManager.cpp:302-328 | the ledger after a reorganisation agrees with replaying the new branch from the ancestor if and only if the refused calls cancel out |
| LedgerReorg.DisjointReorgClean | src/chain/ChainManager.cpp:302-328 | if the branches share no transaction and both replay cleanly, no call is refused and the ledger is that of the new branch |
| LedgerReorg.NothingRefusedCancels | src/chain/ChainManager.cpp:312-328 | if every reversal and application of a reorganisation succeeds, the condition of ReorgMatchesReplay is met, shared transactions or not |
| LedgerReorg.RollbackMatches | src/chain/ChainManager.cpp:206-223 | a refused block leaves every balance and next nonce as it was if and only if what its rollback failed to take back comes to nothing |
| ChainLaws.ReplayTotal | src/core/Ledger.cpp:21-34 | a replay changes the sum of all balances by exactly what was minted less the fees, and no credit wraps |
| ChainLaws.CoinbaseBoundsMinted | src/consensus/ProofOfWork.cpp:131-154 | a block that passes the coinbase rule mints at most the reward plus the fees paid in it, whatever the position of its coinbase |
| ChainLaws.CoinbaseExact | src/consensus/ProofOfWork.cpp:131-154 | where nothing wraps a block passes the coinbase rule if and only if it has at most one coinbase and mints at most 50 and the fees paid in it |
| ChainLaws.SupplyLaw | src/consensus/ProofOfWork.cpp:131-154 | on a chain that passes the coinbase rule and replays cleanly all balances together are what was minted less the fees, and at most 50 per block |
| ChainLaws.NonceLaw | src/core/Ledger.cpp:59-63 | along a clean chain every sender's nonces are 0, 1, 2, ... in order, the next nonce counts them, and nothing but a coinbase occurs twice |
| Consensus.TargetIsBound | src/consensus/ProofOfWork.cpp:18-39 | counting leading zero bits decides whether the hash, read as a number, is below 2^(bits - difficulty) |
| Consensus.CountMeetsTarget | src/consensus/ProofOfWork.cpp:18-39 | the loop over bytes and mask bits counts the leading zero bits |
| Consensus.LeadingZeros | src/consensus/ProofOfWork.cpp:22-32 | the mask loop counts the leading zero bits of a byte |
| Consensus.ValidateCoinbaseAmount | src/consensus/ProofOfWork.cpp:131-154 | true exactly when there is no coinbase, or a single one claiming at most reward plus the other fees, in 64 bits |
| Consensus.StepIsRoundedLog2 | src/consensus/ProofOfWork.cpp:101-109 | the integer tests of expected squared against 2 and 8 times actual squared, and their mirrors, decide the rounded and clamped logarithm |
| Consensus.NearestLog2Exists | src/consensus/ProofOfWork.cpp:101-104 | every positive ratio has a nearest power of two, so the rounded logarithm is defined |
| Consensus.RetargetStep | src/consensus/ProofOfWork.cpp:93-129 | one adjustment moves the difficulty by the rounded base-2 logarithm of expected over actual time, two bits at most, saturating at both ends of 32 bits, and not at all if nothing is expected |
| Consensus.RequiredDifficulty | src/consensus/ProofOfWork.cpp:156-172 | what the rule demands at each kind of height: the initial difficulty up to N or without an interval, the parent's between multiples of N, and bounds at them |
| Consensus.AdjustedDifficulty | src/consensus/ProofOfWork.cpp:93-172 | at a multiple of N the required difficulty is the parent's moved by the rounded base-2 logarithm of expected over taken time, two bits at most, cut to 32 bits and raised to the floor; taken is the time from the block N below to the parent, at least 1, and expected is N-1 block times in 64 bits; where nothing is expected it is the parent's raised to the floor |
| Consensus.PaceDecides | src/consensus/ProofOfWork.cpp:93-172 | it rises, unless at the top, exactly when the blocks came at least sqrt(2) times too fast, and falls, unless at the floor, exactly when they came more than sqrt(2) times too slowly |
| Consensus.DifficultyPath | src/consensus/ProofOfWork.cpp:156-172 | along a valid chain the difficulty changes only at multiples of N from 2N on, by at most two bits, stays at or above the floor and at most initial plus 2(h/N) |
| Consensus.ComputeMedianTimePast | src/consensus/ProofOfWork.cpp:174-190 | collecting, sorting and taking the middle entry gives the median of the window |
| Consensus.CheckTimestamp | src/consensus/ProofOfWork.cpp:191-204 | true exactly when the timestamp is above the median and at most the drift ahead of the clock |
| Consensus.MedianReaches | src/consensus/ProofOfWork.cpp:174-190 | the median reaches m if and only if at most half of the window's timestamps lie below m |
| Consensus.MedianNeverDecreases | src/consensus/ProofOfWork.cpp:174-204 | along a valid chain the median never decreases, while the window grows and once it is full |
| Consensus.MedianAdvances | src/consensus/ProofOfWork.cpp:174-204 | after a further full window of blocks the median is strictly greater |
| Consensus.RulesReadBelow | src/consensus/ProofOfWork.cpp:156-190 | the difficulty and median rules at a height depend only on the contents of the blocks below it |
| Chain.CommonPrefix | src/core/Blockchain.cpp:15-29 | two chains that share a block hash are equal up to it, at the same height, cumulative work included |
| Chain.ProperChainDistinct | src/core/Blockchain.cpp:15-47 | all hashes of a linked chain are distinct, from injectivity of the hash and linkage alone |
| Chain.AppendAllWork | src/core/ForkResolution.cpp:47-54 | appending a branch leaves the tip with exactly the branch's work |
| Chain.AppendAllRebuilds | src/core/Blockchain.cpp:22-29 | adding again blocks that carry the fields and hashes of a chain's tail restores that chain, cumulative work included |
| Chain.WorkIsSum | src/core/Block.cpp:147-152 | every block's cumulative work is the exact sum of the work from height 1 on |
| Chain.WorkIsCapped | src/core/Block.cpp:147-152 | a block's work is 2 to its difficulty, or the largest 64-bit number where that does not fit |
| Chain.Blockchain.constructor | src/core/Blockchain.cpp:15-20 | a new chain is genesis, indexed |
| Chain.Blockchain.AddBlock | src/core/Blockchain.cpp:22-29 | appends with cumulative work set, and keeps the index exact |
| Chain.Blockchain.HasBlock | src/core/Blockchain.cpp:30-32 | the index lookup agrees with a search of the list |
| Chain.Blockchain.FindHeight | src/core/Blockchain.cpp:41-47 | the index lookup returns the height a linear search finds |
| Chain.Blockchain.ClassifyNewBlock | src/core/Blockchain.cpp:72-86 | invalid exactly when the hash is not its own or a coinbase stands behind the front; otherwise valid on the tip and a fork candidate anywhere else |
| Chain.Blockchain.Truncate | src/core/Blockchain.cpp:91-97 | drops the blocks above a height and exactly their index entries |
| Chain.Blockchain.ReorganizeTo | src/core/Blockchain.cpp:87-102 | keeps the chain up to the ancestor, adds the branch, returns what was discarded, and keeps the index exact; without effect if the ancestor is unknown |
| Orphans.WithOrphanOk | src/core/OrphanPool.cpp:10-27 | adding keeps order and map in step and the size within capacity, the new block is in the pool, a block already there keeps its place, and only the oldest goes when the pool is full |
| Orphans.PoolIsLastArrivals | src/core/OrphanPool.cpp:10-27 | after adding any different blocks the pool holds exactly the last `capacity` of them, in order of arrival |
| Orphans.WithoutOrphanOk | src/core/OrphanPool.cpp:50-56 | removing takes out exactly that block from order and map, and the others keep their order |
| Orphans.OrphanPool.constructor | src/core/OrphanPool.cpp:9-9 | a new pool is empty |
| Orphans.OrphanPool.AddOrphan | src/core/OrphanPool.cpp:10-27 | replaces a block with the same hash, else appends, evicting the oldest when full |
| Orphans.OrphanPool.RemoveOrphan | src/core/OrphanPool.cpp:50-56 | removes the block if it is there |
| Orphans.OrphanPool.ChildrenOf | src/core/OrphanPool.cpp:60-70 | exactly the blocks with that parent, each once, in no particular order |
| Forks.TraceForkShape | src/core/ForkResolution.cpp:13-38 | a traced branch has at most 100 blocks, ends in the tip, grows link by link from a block on the chain, passes through the pool only and leaves the chain at once |
| Forks.TraceForkFinds | src/core/ForkResolution.cpp:13-38 | conversely, a branch of that shape is the one that is traced |
| Forks.BuildForkChain | src/core/ForkResolution.cpp:13-38 | the loop back through the parents traces that branch, or fails |
| Forks.ForkWork | src/core/ForkResolution.cpp:47-54 | the loop adds the work of the branch to that of its ancestor, in 64 bits |
| Forks.ValidPrefixLength | src/chain/ChainManager.cpp:370-391 | the number of blocks before the first that fails the timestamp or difficulty rule, judged against the branch's own history |
| Forks.FindForkTips | src/chain/ChainManager.cpp:343-369 | the ends found form a cut of the tree of waiting descendants: every walk down meets one; without cycles each occurs once, none lies below another, and for at most 100 blocks they are exactly the leaves |
| Pending.RankedIsStableSort | include/core/Mempool.hpp:24-30 | the ranking is ordered by descending fee and keeps, for every fee, the transactions in order of arrival |
| Pending.MempoolIsTopK | src/core/Mempool.cpp:15-33 | after any run of offers the mempool is the first k of all distinct validly signed transactions offered, by fee and then arrival, even when dropped ones are offered again |
| Pending.RoomForAll | src/core/Mempool.cpp:15-33 | where the distinct validly signed offers and what was there fit, all of them are in the mempool, ranked by fee and then arrival |
| Pending.ResignedIsDuplicate | src/core/Mempool.cpp:15-33 | a copy of a pending transaction with another signature is refused |
| Pending.OfferOk | src/core/Mempool.cpp:15-33 | an offer keeps the mempool ordered by fee, free of repeated hashes, validly signed and within capacity |
| Pending.RemoveOk | src/core/Mempool.cpp:34-43 | so does a removal |
| Pending.RemoveAllIs | src/chain/ChainManager.cpp:69-71 | removing the transactions of a block leaves exactly those whose hash is not among them, in the order they had |
| Pending.Mempool.constructor | src/core/Mempool.cpp:13-13 | a new mempool is empty |
| Pending.Mempool.HasTransaction | src/core/Mempool.cpp:53-59 | whether a pending transaction has that hash |
| Pending.Mempool.AddTransaction | src/core/Mempool.cpp:15-33 | in place; the result says exactly when it was added |
| Pending.Mempool.RemoveTransaction | src/core/Mempool.cpp:34-43 | in place: the first transaction with that hash goes |
| Pending.Mempool.GetTransactionsForBlock | src/core/Mempool.cpp:45-50 | the best `limit` transactions |
| Codec.TxRoundTrip | src/core/Transaction.cpp:47-139 | every transaction whose lengths fit 32 bits survives serialization |
| Codec.TxCanonical | src/core/Transaction.cpp:60-139 | a payload that decodes as a transaction re-encodes to the same bytes |
| Codec.SigningBytesInjective | src/core/Transaction.cpp:19-46 | the signing bytes determine every field except the signature |
| Codec.BlockRoundTrip | src/core/Block.cpp:32-146 | every block whose lengths fit comes back with all wire fields, and its hash recomputed |
| Codec.BlockCanonical | src/core/Block.cpp:70-146 | a payload that decodes as a block re-encodes to the same bytes |
| Codec.WireInjective | src/core/Block.cpp:32-68 | the serialized bytes determine the block's wire fields |
| Codec.SerializeBlock | src/core/Block.cpp:32-68 | the loop that appends each transaction under its length produces the encoding |
| Codec.DeserializeBlock | src/core/Block.cpp:70-146 | the loop that advances through the payload decodes it, with every error case |
| Codec.BlockHashesCollisionFree | src/core/Block.cpp:28-30 | a digest without collisions on the serialized blocks makes block hashes collision-free |
| Codec.TxHashesCollisionFree | src/core/Transaction.cpp:140-142 | likewise for transactions, by their signing bytes |
| Codec.LocatorRoundTrip | src/network/GetBlocks.cpp:10-47 | a locator within the cap survives, and what decodes is within the cap and re-encodes to the same bytes |
| Codec.SerializeGetBlocks | src/network/GetBlocks.cpp:10-23 | the loop produces the encoding |
| Codec.DeserializeGetBlocks | src/network/GetBlocks.cpp:24-47 | the loop decodes it, refusing a wrong size or a count above the cap |
| Layout.LowestByteFirst | src/core/Transaction.cpp:22-23 | a word is the sum of its bytes weighed by 256 to the power of their position, lowest first |
| Layout.BodyLayout | src/core/Transaction.cpp:19-46 | the position and value of every field in the signing bytes: amount, the length and bytes of sender, recipient and public key, fee, nonce |
| Layout.TxLayout | src/core/Transaction.cpp:47-59 | a serialized transaction is its signing bytes, the length of the signature and the signature |
| Layout.BlockLayout | src/core/Block.cpp:32-68 | the position and value of every header field, the count at 84, and each transaction under its length from 88 on |
| Layout.LocatorLayout | src/network/GetBlocks.cpp:10-23 | the count at 0 and hash k at 4 + 32 k |
| Disk.SaveMirrors | src/storage/Storage.cpp:51-66 | saving the next block of a chain with distinct hashes extends the mirror of the chain, with no row lost to the unique hash column |
| Disk.SaveKeepsUnique | src/storage/Storage.cpp:51-66 | saving keeps the hash column unique: the block is in the table once, at its height, and only rows at that height or with its hash have gone |
| Disk.ReplaceMirrors | src/storage/Storage.cpp:94-128 | replacing the rows from a height on gives the mirror of the rewritten chain, to a shorter branch too |
| Disk.Storage.constructor | src/storage/Storage.cpp:21-29 | a new table is empty |
| Disk.Storage.SaveBlock | src/storage/Storage.cpp:51-66 | one row per height and per hash, replacing any that clash |
| Disk.Storage.SaveFirst | src/chain/ChainManager.cpp:36-38 | genesis is written if and only if the table is empty |
| Disk.Storage.LoadBlock | src/storage/Storage.cpp:67-80 | the decoded row, or nothing |
| Disk.Storage.ReplaceBlocksFrom | src/storage/Storage.cpp:94-128 | deletes from the height on and saves the blocks in order |
| NodeInvariant.ForkViewAgrees | src/chain/ChainManager.cpp:376-378 | the view a branch is judged against has, block by block, the contents of the chain after the switch |
| NodeInvariant.RulesAfterSwitch | src/chain/ChainManager.cpp:370-391 | a branch that passed against that view leaves a chain that obeys the difficulty and timestamp rules against itself |
| NodeInvariant.SwitchKeeps | src/chain/ChainManager.cpp:276-341 | a reorganisation keeps the whole invariant: links, work, rules, signatures, mempool and disk mirror |
| NodeInvariant.CandidateSound | src/chain/ChainManager.cpp:240-257 | every branch the fork choice considers is self-hashed, linked and passes the rules |
| NodeInvariant.ExtendKeeps | src/chain/ChainManager.cpp:56-84 | accepting or refusing a tip extension keeps the invariant |
| NodeInvariant.ForkKeeps | src/chain/ChainManager.cpp:224-275 | so does handling a fork candidate |
| NodeInvariant.SubmitKeeps | src/chain/ChainManager.cpp:45-92 | so does any submitted block |
| NodeInvariant.AdoptKeeps | src/chain/ChainManager.cpp:438-473 | so does any catch-up answer |
| Manager.CollectTransactions | src/chain/ChainManager.cpp:283-310 | the nested loops collect the transactions in order and the hashes of those that are not coinbases |
| Manager.CheckSignatures | src/chain/ChainManager.cpp:286-288 | true exactly when every transaction is authentic |
| Manager.UndoBranch | src/chain/ChainManager.cpp:312-322 | reverses the discarded transactions newest first, leaving out the shared ones, and offers them to the mempool again; what that leaves in the mempool is the subject of Offers |
| Manager.RedoBranch | src/chain/ChainManager.cpp:324-328 | applies the new transactions in order, leaving out the shared ones |
| Manager.CheckLinks | src/chain/ChainManager.cpp:455-458 | true exactly when the answer is linked |
| Manager.ChainManager.constructor | src/chain/ChainManager.cpp:25-43 | a new manager is at genesis; on an empty table it is in an initial state of the model |
| Manager.ChainManager.SubmitTransaction | src/chain/ChainManager.cpp:93-96 | only the mempool changes, by one offer; the result says exactly when the transaction was added |
| Manager.ChainManager.MoveLedger | src/chain/ChainManager.cpp:302-328 | the ledger and mempool after a switch are as the model says |
| Manager.ChainManager.MirrorFrom | src/chain/ChainManager.cpp:330-339 | the table is rewritten from the fork point with the new branch |
| Manager.ChainManager.SwitchTo | src/chain/ChainManager.cpp:297-340 | the whole state after a switch is as the model says |
| Manager.ChainManager.TryReorg | src/chain/ChainManager.cpp:276-341 | switches exactly when the branch is strictly heavier and its signatures hold, and keeps the invariant |
| Manager.ChainManager.ExtendTip | src/chain/ChainManager.cpp:56-84 | performs the model's extension step and keeps the invariant |
| Manager.ChainManager.ChooseBest | src/chain/ChainManager.cpp:237-257 | the loop keeps a heaviest candidate |
| Manager.ChainManager.HandleForkCandidate | src/chain/ChainManager.cpp:224-275 | performs the model's fork step and keeps the invariant |
| Manager.ChainManager.SubmitBlock | src/chain/ChainManager.cpp:45-92 | performs the model's submission step and keeps the invariant |
| Manager.ChainManager.AdoptBranch | src/chain/ChainManager.cpp:438-473 | performs the model's adoption step, or leaves everything as it was, and keeps the invariant |
| Manager.ChainManager.SkipKnown | src/chain/ChainManager.cpp:442-446 | the number of blocks at the front of the answer that are already on the chain |
| Manager.ChainManager.RestoreBlock | src/chain/ChainManager.cpp:101-108 | asks only the ledger; appends and counts the block if it applies |
| Runs.RunInvariant | src/chain/ChainManager.cpp:45-92 | in every state of every run, restarts included: linked from genesis, exact difficulty, timestamp above the median of the chain actually below, authentic transactions, exact work, consistent pools, disk equal to memory |
| Runs.RunGenesis | src/core/Blockchain.cpp:15-20 | in every state of every run the first block is the fixed genesis block: version 1, no parent, time, difficulty, nonce and work 0, no transactions |
| Runs.ReloadIs | src/app/Orchestrator.cpp:40-53 | a restart that is not refused gives the same chain, empty pools and the ledger of a replay, and keeps the invariant |
| Runs.SwitchWork | src/core/ForkResolution.cpp:39-54 | a switch leaves the tip with exactly the work computed for the branch |
| Runs.ForkChoice | src/chain/ChainManager.cpp:224-275 | the branch tried is heaviest among the valid prefixes of all traceable ends of a cut of the waiting tree; the chain switches if and only if it is strictly heavier and its signatures hold, and then no candidate outweighs the new tip |
| Runs.ReorgAnnounces | src/chain/ChainManager.cpp:259-270 | after a reorganisation through the pool the hashes announced are those of the new chain above the ancestor, in order; none of them is left in the pool, and every other orphan is |
| Runs.ParentAskedFor | src/chain/ChainManager.cpp:224-236 | the parent is asked for if and only if no branch of at most 100 blocks leads from the block through the pool to the chain; the block is then kept and nothing else changes |
| Runs.NextProgress | src/chain/ChainManager.cpp:45-92 | every step other than a restart leaves chain and version alone or raises the version by one and the tip work strictly |
| Runs.RunProgress | src/chain/ChainManager.cpp:276-341 | between restarts an unchanged tip version means an unchanged chain, and a changed one a strictly heavier tip |
| Runs.RunWork | src/chain/ChainManager.cpp:276-341 | along every run, restarts included, the chain stays the same or its tip becomes strictly heavier |
| Runs.NeverReturns | src/chain/ChainManager.cpp:45-92 | a tip once left is never returned to, not even after a restart |
| Runs.TipDetermines | src/core/Blockchain.cpp:22-29 | two nodes with the same tip hash have the same chain, cumulative work included |
| Runs.AdoptChecked | src/chain/ChainManager.cpp:438-473 | for each check on a block alone (target, coinbase amount, coinbase in front): a catch-up leaves every block passing it if and only if the blocks it adopts do; what it skips or cuts off does not matter |
| Runs.RunChecked | src/chain/ChainManager.cpp:45-51 | for each of these checks: up to any state of a run every block above genesis and every orphan passes it if and only if the blocks adopted in catch-ups do |
| Runs.AcceptedExactly | src/chain/ChainManager.cpp:45-92 | a submitted block is accepted if and only if it passes every check on itself, carries its own hash, names the tip, is above the median and within the drift, declares the required difficulty, and its transactions are authentic and apply in order; it is then on top of the chain, and otherwise a block on the tip changes nothing but what a failed rollback leaves |
| Runs.NextTimely | src/consensus/ProofOfWork.cpp:191-204 | every block that a step brings onto the chain, submitted or adopted, is at most the drift ahead of the clock of that step; steps without a clock add none |
| Runs.RunTimely | src/consensus/ProofOfWork.cpp:191-204 | in every state of a run no block above genesis is further than the drift ahead of the latest clock so far |
| Runs.QuietRun | src/chain/ChainManager.cpp:206-223 | between restarts, two states with the same tip version have chains and ledgers that say the same, refused blocks in between included |
| Tracking.ReplayRespectsSame | src/core/Ledger.cpp:23-26 | a list that replays on one ledger replays on one that says the same if and only if every sender has an entry there in time, and then to the same result; always if nothing in it is free |
| Tracking.ExtendTracks | src/chain/ChainManager.cpp:67-84 | an accepted block leaves the ledger equal to a replay of the chain if and only if the replay has an entry for each of its senders in time |
| Tracking.RefusalTracks | src/chain/ChainManager.cpp:206-223 | a refused block, if and only if its rollback comes to nothing |
| Tracking.SwitchTracks | src/chain/ChainManager.cpp:276-341 | a switch, shared transactions included, if and only if the new chain replays and the refused calls cancel out |
| Tracking.DisjointSwitchAgrees | src/chain/ChainManager.cpp:276-341 | it does when the branches share nothing, the new chain replays and no credit had wrapped |
| Tracking.StepTracks | src/chain/ChainManager.cpp:45-92 | for any step of a node whose ledger tracks its chain: it still does afterwards if and only if the condition of that kind of step is met |
| Tracking.RunTracks | src/chain/ChainManager.cpp:206-341 | up to any state of a run every ledger says exactly what replaying its chain from nothing says, if and only if every step so far met its condition |
| Guarantees.RunSupply | src/consensus/ProofOfWork.cpp:131-154 | in every state of a run whose steps met their conditions, and whose adopted blocks keep to the coinbase rule, the node's balances add up to what was minted less the fees, and to at most 50 per block above genesis |
| Guarantees.RunNonces | src/core/Ledger.cpp:59-63 | in every state of such a run the reported next nonce is the number of transactions the address has on the chain, none of them twice |
| Guarantees.RunRestarts | src/app/Orchestrator.cpp:40-53 | stopping in any state of such a run and starting on the database gives the same chain and a ledger that says the same |
| Guarantees.LedgersConverge | src/chain/ChainManager.cpp:438-473 | when a node adopts a heavier node's answer and both ledgers tracked their chains, the chains are equal and the ledgers say the same if and only if the adoption met its condition |
| Waiting.WalkIsTraced | src/core/ForkResolution.cpp:13-38 | a walk down the pool from a new block whose parent is on the chain is the branch that is traced from its end |
| Waiting.ForkArrives | src/chain/ChainManager.cpp:224-275 | when the missing parent of a waiting, valid and heavier branch is handled as a fork candidate, a heaviest branch through it to an end of the waiting tree is tried; signed, it becomes the chain and its weight the tip work; not signed, the chain stays as it is |
| Waiting.ParentOnTip | src/chain/ChainManager.cpp:56-84 | when the missing parent extends the tip, the pool stays as it is and the waiting branch outweighs the new tip, whether the parent is accepted or refused |
| Waiting.ParentArrives | src/chain/ChainManager.cpp:45-92 | when the missing parent is submitted, a heaviest branch through it is tried if and only if it passes the checks on itself and joins the chain below the tip; the new tip is at least as heavy as the waiting branch if and only if one is tried and is signed |
| Waiting.ParentAlwaysHelps | src/chain/ChainManager.cpp:45-92 | in whatever order the ends are found, submitting the missing parent leaves a tip at least as heavy as the waiting branch, if and only if the parent passes the checks on itself, joins the chain below the tip, and every heaviest branch through it is signed |
| Offers.SwitchIsTopK | src/chain/ChainManager.cpp:312-322 | after a reorganisation the mempool is the first k, by fee and then arrival, of everything ever offered and of what came off the chain, newest first |
| Offers.SwitchWithRoom | src/chain/ChainManager.cpp:312-322 | where they fit, its hashes are exactly those of before and of the signed transactions of the discarded blocks that the new branch lacks, ranked by fee and then arrival |
| Offers.AcceptedLeaves | src/chain/ChainManager.cpp:67-71 | after an accepted block a hash is pending if and only if it was and is none of the block's transactions, and the rest keep their order |
| Offers.NextKeepsTransactions | src/chain/ChainManager.cpp:45-96 | no step other than a restart loses a signed transaction: pending, on the chain or submitted before, it is pending or on the chain after, or the mempool is full of what pays at least as much |
| Offers.NextAddsOnly | src/chain/ChainManager.cpp:45-96 | what is pending after a step was pending, was signed on the chain, or was submitted and signed |
| Offers.RunKeepsTransactions | src/chain/ChainManager.cpp:276-341 | along a run without restart, while the mempool has room, what is pending or on the chain stays so through every reorganisation |
| Witnesses.SpentRewardIsKept | src/chain/ChainManager.cpp:276-341 | a run of one submitted block and one catch-up after which the ledger credits a miner with two rewards of which one is on the chain |
| Witnesses.FreeTransactionDivides | src/core/Ledger.cpp:21-48 | a run in which the node accepts a block that no replay of its chain accepts |
| Witnesses.UncheckedIsAdopted | src/chain/ChainManager.cpp:438-473 | a run in which a fresh node adopts a block that misses its target, overdraws its coinbase or has one behind the front |
| Witnesses.UnfundedIsAdopted | src/chain/ChainManager.cpp:438-473 | a run in which a fresh node adopts a block with a signed transaction of a sender who owns nothing; its chain does not replay and its database does not load |
| Witnesses.WrappedCreditStays | src/chain/ChainManager.cpp:206-223 | a run of one catch-up and one refused block after which the chain is the same and a balance is not |
| Witnesses.AnswerComesTooLate | src/chain/ChainManager.cpp:438-473 | runs of two nodes after which the heavier one's answer to the other's locator is not adopted, because the other has switched meanwhile |
| Witnesses.StrayBlockSpoils | src/chain/ChainManager.cpp:455-458 | a run in which a fresh node adopts a block that comes alone, and one in which it adopts nothing because a block that does not build on it follows |
| Siblings.UnsignedBranchBlocks | src/chain/ChainManager.cpp:224-275 | a run in which a valid, signed and heavier branch is complete and the chain stays where it is, whatever the order in which ends are looked at |
| Siblings.WaitsOnInVain | src/chain/ChainManager.cpp:56-84 | a run in which a block is accepted on top of the tip and its signed child goes on waiting, though it would make the chain heavier |
| Towers.NeverReached | src/chain/ChainManager.cpp:414-473 | runs of two nodes after which the heavier one's answer to the other's locator is not adopted, because it is cut off before it outweighs the other's chain |
| Sync.LocatorShape | src/core/BlockLocator.cpp:8-27 | a locator starts at the tip, descends strictly and ends at genesis |
| Sync.LocatorIsShort | src/core/BlockLocator.cpp:8-27 | for chains of up to 2^64 blocks it has at most 75 entries |
| Sync.BuildLocator | src/core/BlockLocator.cpp:8-27 | the loop with its doubling step builds that locator |
| Sync.FindLocatorMatch | src/core/BlockLocator.cpp:29-39 | the height of the first hash of the locator that is on the chain |
| Sync.MatchIsCommon | src/core/BlockLocator.cpp:29-39 | a match always exists between two nodes, and up to it their chains are equal block for block |
| Locators.LocatorIs | src/core/BlockLocator.cpp:8-27 | a locator lists exactly the tip, the nine blocks below it, then blocks at gaps of 2, 4, 8 and so on above genesis, and genesis |
| Locators.MatchIsClose | src/core/BlockLocator.cpp:8-39 | where two chains agree up to d below the asking node's tip, the match is at most max(d, 2d - 9) below it |
| Sync.LateAdoption | src/chain/ChainManager.cpp:438-473 | a node's complete answer from height m on is adopted, at whatever moment, if and only if its block at m is still on the chain and it is strictly heavier; the chain then equals the sender's, cumulative work included |
| Sync.Convergence | src/chain/ChainManager.cpp:414-473 | a node that adopts a strictly heavier node's answer to its locator ends with that node's chain, block for block |
| Rounds.CutAnswer | src/chain/ChainManager.cpp:438-473 | an answer cut off at some height is adopted if and only if its base is still on the chain and the sender's chain up to that height outweighs the tip; that part is then the chain |
| Rounds.LimitedAnswer | src/chain/ChainManager.cpp:418-436 | one answer of at most `limit` blocks to a node's locator is adopted if and only if the part it reaches outweighs that node's tip |
| Rounds.RoundsConverge | src/chain/ChainManager.cpp:414-473 | a node that is behind reaches the other's chain, however long the gap, in as many answers as it takes and no more |
| Rounds.ForkedRounds | src/chain/ChainManager.cpp:414-473 | a node on another branch reaches the other's chain in repeated answers if the part the first one reaches outweighs its tip, and adopts nothing otherwise |
| Noise.NoisyAnswer | src/chain/ChainManager.cpp:438-473 | a buffer that holds a heavier node's tip, whatever else is in it, is adopted if and only if after the known blocks at its front it goes on with exactly what is missing of that node's chain, all that follows is linked to it, and the valid part of that is signed; the chain is then that node's with that part on top |
| CatchUp.AnswerDecodes | src/network/Node.cpp:471-480 | what was sent as a run of messages decodes to the blocks with their hashes recomputed |
| CatchUp.AnswerRequest | src/network/Node.cpp:471-480 | a well-formed request is answered with what follows its locator, at most 2000 blocks; a malformed one with nothing |
| CatchUp.AfterLocator | src/chain/ChainManager.cpp:418-436 | the blocks after the match, up to the limit; none without a match |
| CatchUp.SyncNode.StartSync | src/network/Node.cpp:599-608 | starts a catch-up with an empty buffer unless one is active, and then changes nothing |
| CatchUp.SyncNode.HandleBlock | src/network/Node.cpp:418-459 | a block of the chosen peer is buffered and touches nothing else; any other is submitted |
| CatchUp.SyncNode.HandleAll | src/network/Node.cpp:418-459 | over any sequence of messages, each at its own time, the buffer is exactly the chosen peer's decodable blocks in order, and the node is where submitting the others takes it |
| CatchUp.SyncNode.FinishSync | src/network/Node.cpp:615-646 | when due, ends the catch-up and adopts the buffer; otherwise changes nothing |
| CatchUp.Synchronise | src/network/Node.cpp:571-646 | a whole catch-up over bytes, the answer mixed in any way with other blocks of the same peer, which are buffered, and with blocks of other peers, which are submitted: what is adopted is exactly what adopting the buffer gives, with both conditions above; otherwise the node stays as it is |
| Mining.SelectedReplays | src/chain/ChainManager.cpp:166-179 | the transactions selected for a block replay cleanly in order and all come from the candidates |
| Mining.SelectTransactions | src/chain/ChainManager.cpp:166-179 | the loop on a copy of the ledger makes that selection and leaves the node alone |
| Mining.SelectedPicks | src/chain/ChainManager.cpp:166-179 | the selection is read off the candidates at increasing positions, and a candidate is taken if and only if it applies to the ledger that the ones taken before it lead to |
| Mining.BlockTemplate | src/chain/ChainManager.cpp:393-408 | the template's parent, height, difficulty, timestamp, version and transactions |
| Mining.TemplateTakesAll | src/chain/ChainManager.cpp:393-408 | a template takes, in order, everything it can among the best pending transactions: what it leaves out is refused by the ledger that the ones taken before it lead to |
| Mining.TemplateIsNext | src/chain/ChainManager.cpp:393-408 | it names the tip, and its time is neither before the clock nor at or before the median, and is the clock or the median plus one |
| Mining.MineBlock | src/consensus/ProofOfWork.cpp:61-91 | returns the first attempt in order of timestamp bump and nonce that meets the target; gives up only if told to stop or if no attempt at all meets it |
| Mining.MineOn | src/app/Orchestrator.cpp:93-120 | a mined block has version 1 and carries the template's fields, the coinbase of reward plus fees in front if an address is set, and the Merkle root of these transactions, and meets its target |
| Mining.ApplyMonotone | src/core/Ledger.cpp:21-34 | what applies still applies on a richer ledger, and the result is still richer |
| Mining.ReplayMonotone | src/chain/ChainManager.cpp:166-179 | likewise for whole lists, so simulating without the coinbase is sound |
| Mining.TemplateAccepted | src/chain/ChainManager.cpp:45-84 | a block mined on a node's template is accepted while chain and ledger say the same, if it is within the drift |
| Mining.MinerIsPaid | src/app/Orchestrator.cpp:93-120 | when a block the miner filled is accepted, the money in existence grows by exactly 50 and the miner's address gets reward and fees; without an address the fees are destroyed |
| Mining.MinedBlockAccepted | src/app/Orchestrator.cpp:93-120 | in any run, a block mined on a template taken earlier is accepted if the tip version is unchanged and the node was not restarted |
| Mining.SelectedIsFresh | src/chain/ChainManager.cpp:166-179 | while the ledger tracks the chain, no transaction selected for a block is on the chain already |
| Restart.LoadAll | src/app/Orchestrator.cpp:40-53 | the load loop restores row by row, and fails on a missing, undecodable or inapplicable row |
| Restart.RestartRebuilds | src/app/Orchestrator.cpp:40-53 | for every state a run can reach, loading its table rebuilds the chain with its cumulative work and the ledger of a replay if and only if that replay is clean, and fails otherwise |
| Restart.RebuiltOk | src/chain/ChainManager.cpp:101-108 | the rebuilt state satisfies the invariant again |
| Dials.PeerTable.Register | src/network/Node.cpp:217-246 | the loop applies the duplicate rule to the first live match and says whether the connection was taken |
| Dials.NotListening | src/network/Node.cpp:217-246 | a peer without a listening port duplicates nobody |
| Dials.AlwaysOnePerAddress | src/network/Node.cpp:217-246 | in every run at most one live peer exists per host and nonzero port |
| Dials.CrossedDials | src/network/Node.cpp:217-246 | two nodes dialing each other, under every interleaving with anything else: the link dialed by the smaller id is never dropped, and once both ends have registered both links it is the only one live at both |

## Left out

- Sockets, threads, framing, the polling and ping loops and the RPC server; every public operation is one atomic step, and clock readings are parameters.
- Hashing, key derivation and signature verification themselves, and the exceptions they throw.
- The SQL statements and their failures; a storage transaction commits or has no effect, and the balances table is not modelled.
- Rounding of floating-point numbers inside the logarithm; the exact mathematical rounding is modelled.
- The command line, the wallet, configuration and logging.
- The address book, heartbeats, and the codecs of inventories, peer lists, versions and pings.
- `set_balance`, which only tests use and which cuts the ledger loose from the chain.
- The plain `mine_block` without cancellation, which the node does not call.
- The Merkle root is a field of the wire format; the receiving node does not recompute it, and the model leaves its value to the sender.
- Byte order is that of a little-endian host.
- The in-place `std::reverse` of a traced branch; the model prepends instead.
- Overflow of the tip version counter; it is a natural number.
- Mempool.AddTransaction: the multiset is a list kept in the multiset's iteration order, so iterators and node addresses are not captured.
- FinishSync: the idle timeout and the death of the peer are one parameter, `due`.
- CrossedDials: `already_connected`, which may avoid the second dial altogether, is not part of the model.
