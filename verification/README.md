# Zenotta network protocol: a verified model of its consensus-critical data logic

The Zenotta network is run by compute nodes, which agree through raft on blocks of transactions,
miners, which take part in a mining pipeline, and storage nodes, which keep the chain. This project
models the data those nodes must agree on and proves what every run keeps. Networking, timing and
the raft protocol are outside it.

`dafny verify dfyconfig.toml` checks the whole project.

| module | models |
|---|---|
| `Unicorn`, `ModularArithmetic` | the sloth delay function of `src/unicorn.rs` (section 3.3 of "A random zoo: sloth, unicorn, and trx" by Lenstra and Wesolowski, with other sign handling), on Fermat's theorem and Euler's criterion |
| `TrackedUtxo` | the set of unspent outputs with its address index |
| `BlockRules`, `LedgerCommits` | what a block is: greedy conflict-free selection, the ledger after each commit |
| `SupplyRuns`, `CommitRuns` | total supply, and what becomes of transactions and blocks, over every run of commits |
| `ComputeConsensused` | the code that builds blocks, proved against those rules |
| `DruidPool`, `Droplets` | collecting the transactions of droplets, and their way from reception through the pools into a block |
| `RaftStore` | the persistent raft log, snapshots and lagging compaction |
| `BlockPipeline` | the phases of mining, participants, the shuffle |
| `VoteTally`, `BlockVotes`, `CoordinatedVotes` | votes for stored blocks, for block parts and for coordinated commands |
| `ChainDb`, `StorageFetch`, `StorageNode` | keys of the chain database, catching up, and the "contiguous up to n" marker |
| `KeyAgreement` | the ring key agreement |
| `InFlight` | proposals in flight, their count, and the refusal of repeated ones |
| `Ledger`, `Collections`, `MachineIntegers`, `Wrappers` | transactions and outputs, sums and ordered keys, widths, results |

Each stateful component is a class whose methods are proved equal to a function on its abstract state
(`View()`); invariants and whole-run theorems are lemmas about those functions, over sequences of events
of any length.

Where the code and its documentation disagree, the model follows the code:

- `verify` negates in every round (`src/unicorn.rs:191`), whatever the residuosity of the value; so only seeds whose swapped residue is no square have a nonzero witness that verifies (`WitnessExact`).
- The modulus is checked to be prime, but not to be 3 modulo 4 (`src/unicorn.rs:204-207`). `OtherResidueClass` gives exactly what happens for the other primes.
- The modulus is meant to be at least 4^k at security level k, but that bound wraps at 64 bits (`src/unicorn.rs:205`). `GuardExact` gives what is asked for at each level.
- The cache of an address is documented to hold exactly its outpoints, but `retain` drops every entry that shares the hash or the position of the removed one (`src/tracked_utxo.rs:100`). `RemoveKeepsFullIndex` gives exactly when the index survives.
- The filters of `ignore_dedeup_b_num_less_than` keep the entries below the new minimum (`src/raft_util.rs:186`, `src/raft_util.rs:192`), where the comment speaks of clearing those no longer relevant. `ProposedAgain` gives exactly when a repeated proposal is no longer refused.
- `current_max_vote` is never updated (`src/compute_raft.rs:1641`), so not the command with most votes is taken but the greatest one that has any. `TakenIsDecided` gives exactly when the two agree.
- A DRUID droplet is meant to enter a block whole or not at all, but two droplets of one DRUID that share a transaction can split each other (`src/compute_raft.rs:1335-1342`). `DropletsWhole` and `SplitBySameDruid` give exactly when.
- A finished fetch is meant to leave the marker at the last stored block, but a key that is not UTF-8 leaves a gap (`src/storage.rs:777-824`). `RunSynced` gives exactly when.

## Model

| member | source | states |
|---|---|---|
| Unicorn.XorForOverflow | src/unicorn.rs:215-221 | The flip loop terminates with the other number of the same half if that is within 1..p-1, and with `w` itself if not; never with 0 |
| Unicorn.Eval | src/unicorn.rs:147-168 | A witness is returned exactly when the modulus passes the guard; every nonzero residue that verifies for the seed is plus or minus the returned witness |
| Unicorn.Verify | src/unicorn.rs:183-197 | Verification accepts exactly the pairs of `Accepts`, for primes p = 3 (mod 4) |
| Unicorn.NeighbourLaws | src/unicorn.rs:215-221 | The neighbour swap is an involution on 1..p-1 and commutes with negation modulo an odd p |
| Unicorn.NeighbourPairs | src/unicorn.rs:215-221 | Every value from 2 to p-2 is swapped with the other of its half; 0 goes to 1, and 1 stays, as does p-1 for odd p |
| Unicorn.EvalStepSquared | src/unicorn.rs:153-162 | Squaring one evaluation step returns the swapped value, up to the sign given by its quadratic residuosity |
| Unicorn.EvalStepRoot | src/unicorn.rs:153-162 | Which root a step takes: it is a square itself exactly if the swapped value is one or (p+1)/4 is even |
| Unicorn.EvalStepOnly | src/unicorn.rs:153-162 | No value but the one a step returns has its square and its residuosity |
| Unicorn.StepUndone | src/unicorn.rs:153-162 | One verification step undoes one evaluation step on a non-residue and negates it on a residue |
| Unicorn.VerifyStepEven | src/unicorn.rs:187-194 | A verification step does not see the sign of its argument: the negation at line 191 is always made |
| Unicorn.VerifyStepInjective | src/unicorn.rs:187-194 | Verification steps agree up to sign if and only if they started from values that do |
| Unicorn.RoundTrip | src/unicorn.rs:147-197 | After any number of rounds, verification of an evaluated witness ends in the seed or its negation, decided by the first step alone |
| Unicorn.VerifyInjective | src/unicorn.rs:183-197 | After any number of rounds, verification agrees up to sign if and only if the witnesses do |
| Unicorn.VerifyZero | src/unicorn.rs:183-197 | What a zero witness verifies: 1 after one round, -1 after more |
| Unicorn.WitnessExact | src/unicorn.rs:147-197 | A nonzero witness verifies a nonzero seed exactly when the swapped seed is a non-residue and the witness is plus or minus the evaluated one |
| Unicorn.VerifyExact | src/unicorn.rs:183-197 | The complete set of accepted pairs, zero seeds, zero witnesses and zero rounds included |
| Unicorn.HonestWitness | src/unicorn.rs:147-197 | The evaluated witness verifies exactly for the seeds whose swapped residue is no square |
| Unicorn.HonestWitnessTest | src/unicorn.rs:147-197 | The same condition as a test on the seed alone, by Euler's criterion |
| Unicorn.GuardExact | src/unicorn.rs:204-207 | The guard asks for p >= 4^k at security level k below 32 only; from 32 on the bound wraps to zero and any prime passes |
| Unicorn.OtherResidueClass | src/unicorn.rs:204-207 | For every prime the guard lets through that is not 3 modulo 4, the evaluated witness verifies for the seed residue -1 and no other |
| Unicorn.UncheckedResidueClass | src/unicorn.rs:204-207 | A concrete valid modulus, 5, for which evaluation and verification disagree on a non-residue |
| ModularArithmetic.Fermat | src/unicorn.rs:153-162 | Fermat's little theorem, which one evaluation step rests on |
| ModularArithmetic.EulerCriterion | src/unicorn.rs:153-162 | Euler's criterion for p = 3 (mod 4) |
| ModularArithmetic.RootSquared | src/unicorn.rs:155-156 | Raising to (p+1)/4 and squaring gives the value times its Euler symbol |
| ModularArithmetic.NoSquareIsNegative | src/unicorn.rs:187-194 | -1 is no square modulo p = 3 (mod 4), so one accepted root leaves out the other |
| TrackedUtxo.TrackedUtxoSet.constructor | src/tracked_utxo.rs:71-74 | A new set, and a reloaded one, carries the full index |
| TrackedUtxo.TrackedUtxoSet.ReAlign | src/tracked_utxo.rs:56-58 | Re-alignment leaves the base alone and makes the index full, whatever it had lost |
| TrackedUtxo.TrackedUtxoSet.Extend | src/tracked_utxo.rs:87-94 | Adding outputs adds exactly them to the base and to the index, and keeps a full index full |
| TrackedUtxo.TrackedUtxoSet.Remove | src/tracked_utxo.rs:97-106 | Removal takes one outpoint out of the base; the index stays sound but keeps only what differs in both hash and position |
| TrackedUtxo.WithoutExactly | src/tracked_utxo.rs:97-106 | A removal takes out of the cache, under the address of the removed outpoint, all that share its hash or its position, and nothing else |
| TrackedUtxo.TrackedUtxoSet.TrackedOutpointCount | src/tracked_utxo.rs:66-68 | The tracked count is at most the number of addressed outputs, and equals it exactly when the index is full |
| TrackedUtxo.TrackedUtxoSet.NeedReAlignment | src/compute_raft.rs:1074-1088 | At a due block, when every output has an address, the counts differ exactly when the index is not full |
| TrackedUtxo.CheckDueExactly | src/utils.rs:255-261 | The check is due at the positive multiples of the modulus |
| TrackedUtxo.TrackedUtxoSet.EventProcessedReAlign | src/compute_raft.rs:1006-1010 | After a due check the index is full |
| TrackedUtxo.TrackedUtxoSet.AddAddress | src/tracked_utxo.rs:109-137 | One address adds the amounts of its outpoints that were not known before, each once |
| TrackedUtxo.TrackedUtxoSet.BalanceForAddresses | src/tracked_utxo.rs:109-137 | Every lookup in the base succeeds; the total is the supply of the indexed outpoints of the addresses, each counted once even when an address repeats |
| TrackedUtxo.ExtendPkCache | src/tracked_utxo.rs:149-166 | Entering outputs adds exactly the addressed ones; from nothing it gives the full index |
| TrackedUtxo.ExtendKeepsIndex | src/tracked_utxo.rs:87-94 | Extension keeps the index sound, and full if it was |
| TrackedUtxo.RemoveKeepsSound | src/tracked_utxo.rs:97-106 | Removal keeps every cached outpoint in the base under its address |
| TrackedUtxo.RemoveKeepsFullIndex | src/tracked_utxo.rs:97-106 | Removal from a full index leaves it full if and only if no other outpoint of the address shares the hash or the position |
| TrackedUtxo.RemoveLosesSibling | src/tracked_utxo.rs:97-106 | A concrete removal after which a live output of the same transaction is no longer indexed |
| TrackedUtxo.IndexedFull | src/tracked_utxo.rs:61-68 | The number of indexed outpoints reaches that of addressed outputs exactly when the index is full |
| TrackedUtxo.FullIndexCovers | src/tracked_utxo.rs:109-137 | Over a full index the balance is exactly what the base holds for the addresses |
| BlockRules.AcceptedExactly | src/compute_raft.rs:1407-1429 | Greedy acceptance, declaratively: inputs distinct, in the set, and disjoint from those of every earlier accepted group |
| BlockRules.ValidTxsSpendable | src/compute_raft.rs:1407-1429 | What the greedy pass keeps can all be spent together |
| BlockRules.ValidTxsExactly | src/compute_raft.rs:1407-1429 | A pooled transaction is kept exactly when its inputs are distinct, in the set, and none is an input of a kept one with a smaller hash |
| BlockRules.SpendableAllValid | src/compute_raft.rs:1407-1429 | A pool that can be spent together loses nothing to the greedy pass |
| BlockRules.ApplyGroup | src/compute_raft.rs:1388-1400 | Taking a further spendable group into the block keeps the block conflict-free and the set equal to the old one without all inputs |
| BlockRules.ApplyDroplets | src/compute_raft.rs:1329-1344 | Accepting droplets in order keeps the same relation between ledger and block |
| BlockRules.MergeMember | src/compute_raft.rs:1329-1344 | A transaction is in the merged droplets exactly when some accepted droplet holds it |
| LedgerCommits.GeneratedBlock | src/compute_raft.rs:1313-1400 | A generated block spends each outpoint at most once and only outpoints of the set before it; the new set is the old one minus spent plus outputs |
| Droplets.DropletsWhole | src/compute_raft.rs:1329-1344 | A whole droplet enters the block whole exactly when accepted droplets hold all of its transactions, and not at all exactly when they hold none; an accepted one enters whole |
| Droplets.SplitBySameDruid | src/compute_raft.rs:1329-1344 | A droplet is split only by an accepted one of the same DRUID and size that shares some of its transactions but not all |
| Droplets.OnlyDropletWhole | src/compute_raft.rs:1329-1344 | The only pooled droplet of its DRUID enters whole if the greedy pass accepts it, and not at all otherwise |
| Droplets.OverlapSplits | src/compute_raft.rs:1329-1344 | Two concrete whole droplets of one DRUID that share a transaction, the second of which enters in part |
| Droplets.DropletMember | src/compute_raft.rs:1313-1366 | The transaction pool brings no DRUID transaction into a block |
| Droplets.CommitRouted | src/compute_raft.rs:504-581 | Every commit keeps DRUID transactions out of the transaction pool, and every pooled droplet whole: as many transactions as each announces, for one DRUID |
| Droplets.ComputeIntake.ReceiveTransactions | src/compute.rs:2154-2210 | Valid DRUID transactions go to their droplets and all others to the local pool; whole valid droplets are handed on; the response tells a full pool, nothing valid and partly invalid apart |
| Droplets.ReceiveRefused | src/compute.rs:2154-2181 | A submission is refused exactly when the pool would overflow or nothing in it is valid, and then changes nothing |
| Droplets.ReceivePools | src/compute.rs:2163-2184 | Otherwise exactly the valid transactions without DRUID join the local pool |
| Droplets.ReceiveKeepsDruids | src/compute.rs:2186-2196 | And every valid DRUID transaction is held or in a droplet that became whole; exactly the valid whole droplets join those to propose |
| Droplets.ComputeIntake.TakeLocalDruids | src/compute_raft.rs:819-825 | What is proposed as droplets is whole |
| Droplets.ReceiveRouted | src/compute.rs:2154-2195 | Reception keeps the two routes of a node apart |
| Droplets.RunRouted | src/compute.rs:2163-2195 | So does every run of a network of nodes that receive, propose, commit in any order and number, and restart |
| Droplets.RunDropletsWhole | src/compute_raft.rs:1313-1344 | Over every run from reception to the block: each pooled droplet is whole, the only one of its DRUID enters the next block whole or not at all, and a split one has an accepted twin |
| Droplets.NewNetworkDropletsWhole | src/compute_raft.rs:1313-1344 | The same for nodes that started with empty pools, with no assumption on the state |
| Droplets.OverlapReached | src/compute.rs:2154-2195 | The split happens at the end of a concrete run: one node receives, proposes and commits two overlapping droplets |
| LedgerCommits.PoolSplit | src/compute_raft.rs:1685-1692 | The pool splits without loss into the n smallest hashes and the rest |
| LedgerCommits.LeftoverSpendable | src/compute_raft.rs:1351-1366 | After a block the leftover pool is conflict-free and spendable against the new set, so none of it is invalid |
| LedgerCommits.GenerateKeepsAccepted | src/compute_raft.rs:1351-1366 | Every pooled transaction that the greedy pass accepts is in the block or in the pool after it; the block takes 2000 of them, those with the smallest hashes, or all if there are no more; all others are dropped |
| LedgerCommits.OutputsSupply | src/utils.rs:429-435 | The outputs of transactions hold their coinbase total |
| LedgerCommits.BlockBalanced | src/compute_raft.rs:1388-1400 | Balanced, conflict-free transactions take out of the set exactly what they put in |
| LedgerCommits.GenerateKeepsSupply | src/compute_raft.rs:1313-1322 | Generating a block of balanced transactions keeps the token supply |
| SupplyRuns.MadeOnce | src/compute_raft.rs:1313-1322 | A transaction that pays out tokens enters no block twice, since an input of it is spent for good |
| SupplyRuns.BlockTraced | src/compute_raft.rs:1388-1400 | So the outputs of a block overwrite none that hold tokens, and what was spent stays spent |
| SupplyRuns.CommitKeepsSupply | src/compute_raft.rs:504-581 | One commit keeps supply equal to circulation, and raises it by the first block or by stored mining transactions only; of a commit it asks that transactions pay out what their named inputs hold and that coinbases are new |
| SupplyRuns.RunKeepsSupply | src/compute_raft.rs:504-581 | Over every run of such commits, shutdown blocks included, the set holds what circulates, and that is what was issued |
| SupplyRuns.NewLedgerSupply | src/compute_raft.rs:504-581 | The same from the empty ledger, with no other assumption |
| CommitRuns.AppliedBlock | src/compute_raft.rs:551-581 | A due stored block: its mining outputs enter, the next block takes out what it spends and adds its outputs, the next number is due |
| CommitRuns.OtherBlock | src/compute_raft.rs:551-581 | Any other stored block changes nothing, but that a due shutdown block sets the mark |
| CommitRuns.FirstBlock | src/compute_raft.rs:521-541 | The first block is applied to a ledger without one, and to no other |
| CommitRuns.PooledFate | src/compute_raft.rs:1351-1366 | One commit leaves a pooled transaction in the pool, puts it into the block it makes, or rejects it for an input that is missing, repeated or taken |
| CommitRuns.CommittedFate | src/compute_raft.rs:542-546 | Over every run, a committed transaction is in the pool, entered a block since, or was rejected at a block it could not enter |
| CommitRuns.PoolCommitted | src/compute_raft.rs:542-546 | The pool holds committed transactions only |
| CommitRuns.DropletsPooled | src/compute_raft.rs:547-550 | Over every run, the droplet pool is exactly what was committed since the last block, in order |
| CommitRuns.BlocksInOrder | src/compute_raft.rs:551-581 | Over every run, the stored blocks applied are 0, 1, 2, ..., each once |
| ComputeConsensused.ComputeConsensused.InsertInputs | src/compute_raft.rs:1407-1429 | Inserting the inputs of one transaction succeeds exactly when they are distinct, in the set and not yet removed; else the roll-back restores the removed set |
| ComputeConsensused.ComputeConsensused.FindInvalidNewTxs | src/compute_raft.rs:1407-1429 | The insert-and-rollback pass lists, ascending, exactly the hashes that greedy selection does not accept |
| ComputeConsensused.ComputeConsensused.UpdateWithValidTxs | src/compute_raft.rs:1388-1400 | Inputs leave the set, transactions enter the block in hash order |
| ComputeConsensused.ComputeConsensused.TakeDroplet | src/compute_raft.rs:1329-1344 | A droplet is taken whole exactly when it can be spent as a whole |
| ComputeConsensused.ComputeConsensused.UpdateCommittedDdeTx | src/compute_raft.rs:1329-1344 | The droplet loop accepts exactly the greedy choice among droplets, and empties the droplet pool |
| ComputeConsensused.ComputeConsensused.UpdateCurrentBlockTx | src/compute_raft.rs:1351-1366 | The pool loses its invalid transactions; the first of the rest, up to the block size, enter the block |
| ComputeConsensused.ComputeConsensused.SelectBlockTx | src/compute_raft.rs:1313-1322 | Droplets first, then the pool: the transactions of the specified block, listed in that order |
| ComputeConsensused.TakeFirstN | src/compute_raft.rs:1685-1692 | The split at the n-th key returns the n smallest keys and the rest |
| ComputeConsensused.ComputeConsensused.SetCommittedMiningBlock | src/compute_raft.rs:1233-1246 | The outputs of the block enter the set, and the block is the current one |
| ComputeConsensused.ComputeConsensused.GenerateFirstBlock | src/compute_raft.rs:1299-1307 | The first block holds the initial transactions, whose outputs enter the set |
| ComputeConsensused.ComputeConsensused.GenerateBlock | src/compute_raft.rs:1313-1322 | The code arrives at the specified next ledger; the block lists the hashes of its transactions, under the previous hash and the current number |
| ComputeConsensused.ComputeConsensused.TotalCoinbaseTokens | src/utils.rs:429-435 | The sum of all output tokens |
| ComputeConsensused.ComputeConsensused.ApplyStoredBlock | src/compute_raft.rs:1595-1625 | A shutdown block only sets the shutdown mark; any other adds its mining transactions and moves to the next number |
| ComputeConsensused.ComputeConsensused.FirstBlockCommitted | src/compute_raft.rs:521-541 | The first block is applied once, and refines the specified commit |
| ComputeConsensused.ComputeConsensused.BlockCommitted | src/compute_raft.rs:551-581 | A decided stored block refines the specified commit, and at a due number leaves the address index full |
| DruidPool.DruidCollector.EnterTx | src/compute.rs:478-506 | One transaction enters the droplet of its DRUID; the droplet is handed out and forgotten exactly when it has as many transactions as it announced |
| DruidPool.DruidCollector.ValidateDdeTxs | src/compute.rs:478-506 | Every droplet handed out is whole; droplets handed out and pooled hold together exactly the transactions pooled before and received |
| DruidPool.StepValid | src/compute.rs:478-506 | Pooled droplets stay short of their announced size |
| DruidPool.StepKeepsTxs | src/compute.rs:478-506 | Entering a transaction loses none and invents none |
| DruidPool.CollectKeeps | src/compute.rs:478-506 | The same over all transactions received |
| RaftStore.RaftStore.ApplySnapshot | src/raft_store.rs:74-89 | A newer snapshot replaces log and disk entries; an older one is refused and changes nothing |
| RaftStore.RaftStore.CreateSnapshot | src/raft_store.rs:92-112 | A snapshot of a logged entry is stored, and the disk entries before it are dropped |
| RaftStore.RaftStore.Compact | src/raft_store.rs:116-121 | Compaction shortens the log in memory only, and forgets older proposal contexts |
| RaftStore.RaftStore.Append | src/raft_store.rs:124-149 | Appending truncates the tail in memory and overwrites it on disk, with the last index and the contexts in step |
| RaftStore.RaftStore.DiscardEntriesBeforeSnapshot | src/raft_store.rs:288-298 | Exactly the entries from the old first index up to the new one are deleted |
| RaftStore.RaftStore.LoadInMemoryOrDefault | src/raft_store.rs:153-206 | Loading returns what the reload specification gives, or its error |
| RaftStore.RaftNode.SnapshotCommand | src/raft.rs:253-268 | Snapshot, then compaction up to the snapshot before: neither unwrap can fail on a legal command |
| RaftStore.RaftNode.UpdateReadyMutStore | src/raft.rs:362-380 | Snapshot, entries and hard state of a ready update are stored in this order |
| RaftStore.AppendKeeps | src/raft_store.rs:124-149 | Appending keeps disk and memory consistent, tail truncation included |
| RaftStore.AppendHolds | src/raft_store.rs:124-149 | After an append the log holds each entry at its index, ends at the last, and is as before below the first |
| RaftStore.AppendContexts | src/raft_store.rs:124-149 | After an append no proposal context points at a truncated entry |
| RaftStore.CreateSnapshotKeeps | src/raft_store.rs:92-112 | A snapshot is refused exactly when it is not newer; else consistency is kept |
| RaftStore.ApplySnapshotKeeps | src/raft_store.rs:74-89 | An applied snapshot keeps disk and memory consistent |
| RaftStore.CompactKeeps | src/raft_store.rs:116-121 | Compaction below the snapshot loses nothing after it |
| RaftStore.ReloadConsistent | src/raft_store.rs:153-206 | A consistent store reloads without a missing entry to the last snapshot and exactly the entries after it |
| RaftStore.TakeSnapshotKeeps | src/raft.rs:253-268 | The compaction lags the snapshot by one, and is never refused |
| RaftStore.StepKeeps | src/raft.rs:253-268 | Every legal step of the loop, restart included, keeps the node valid |
| RaftStore.RunReloads | src/raft_store.rs:74-206 | After every legal run, restarts included, reloading finds every entry, and no entry below the snapshot index is on disk |
| RaftStore.NewNodeReloads | src/raft_store.rs:44-206 | The same for a node that started on an empty database |
| RaftStore.RunReturnsGiven | src/raft.rs:362-380 | Over every legal run, restarts included, a reload returns the snapshot last taken or applied with its data, at each index above it exactly the entry last handed over for it, and the hard state last given |
| BlockPipeline.MiningPipelineInfo.HandleMiningPipelineItem | src/block_pipeline.rs:233-289 | Each item is recorded in its phase only, then the reset vote goes before the phase votes |
| BlockPipeline.MiningPipelineInfo.StartItemsIntake | src/block_pipeline.rs:206-223 | A new phase selects the participants of the intake, if there are any, and clears votes and entries |
| BlockPipeline.MiningPipelineInfo.StartWinningPowHalted | src/block_pipeline.rs:457-472 | The winner is one of the entries, picked by the number, and the pipeline halts |
| BlockPipeline.SwapWithUnicorn | src/block_pipeline.rs:550-556 | In place, in bounds for any number, and a permutation of the items |
| BlockPipeline.SelectWithUnicorn | src/block_pipeline.rs:434-445 | Participants beyond the partition size are cut after the shuffle |
| BlockPipeline.CleanupAll | src/block_pipeline.rs:297-318 | Inactive addresses leave both the list and the lookup of every proposer |
| BlockPipeline.ShufflePermutes | src/block_pipeline.rs:550-556 | The shuffle permutes its input for any number |
| BlockPipeline.ShufflePlaces | src/block_pipeline.rs:550-556 | Each position receives the element the number picks among those not yet placed |
| BlockPipeline.ShuffleStages | src/block_pipeline.rs:550-556 | Every position of the shuffle ends with the element picked among those unplaced when its turn came |
| BlockPipeline.PushValid | src/block_pipeline.rs:78-85 | Pushing keeps the list duplicate-free and the lookup equal to its set |
| BlockPipeline.WithoutValid | src/block_pipeline.rs:297-318 | So does the clean-up of inactive miners |
| BlockPipeline.KeepOrder | src/block_pipeline.rs:297-318 | Participants kept by a clean-up stay in the order given |
| BlockPipeline.SelectValid | src/block_pipeline.rs:434-445 | Selection yields the smaller of intake and partition size, all of them intake miners, with list and lookup in step |
| BlockPipeline.SelectPicks | src/block_pipeline.rs:434-445 | Up to the partition size all are selected as they are; beyond it the number picks each place in turn |
| BlockPipeline.StepValid | src/block_pipeline.rs:206-318 | Every event keeps all participant collections valid |
| BlockPipeline.RunAccounted | src/block_pipeline.rs:206-289 | Over every run, each vote and entry held was cast in the current phase, which kept its status |
| BlockPipeline.VotesExact | src/block_pipeline.rs:206-289 | Over every run, the completion and reset votes and the entries held are exactly those cast and submitted in the phase, the entries in order |
| BlockPipeline.IntakeProposers | src/block_pipeline.rs:390-398 | The intake has an entry for exactly the proposers that brought participants in the phase |
| BlockPipeline.IntakeExact | src/block_pipeline.rs:297-306 | An address is in the intake of a proposer exactly if it was brought in the phase and no clean-up named it since |
| BlockPipeline.UnanimousResets | src/block_pipeline.rs:429-431 | An event resets the pipeline exactly if with it as many distinct proposers as unanimity asks for have voted for that in the phase |
| BlockPipeline.MajorityOpensPow | src/block_pipeline.rs:423-426 | In participant intake an event opens the proof-of-work phase exactly if with it a sufficient majority has voted and as many have brought participants; each of these then mines with its selection |
| BlockPipeline.MajorityHalts | src/block_pipeline.rs:448-472 | In the proof-of-work phase an event halts the pipeline exactly if with it a sufficient majority has voted and an entry was submitted; the number picks the winner among the entries |
| BlockPipeline.HaltedByVotes | src/block_pipeline.rs:448-472 | Halting takes completion votes of a majority of distinct proposers cast in the proof-of-work phase; the winner was submitted in it by a then selected participant of its proposer |
| BlockPipeline.ResetLands | src/block_pipeline.rs:330-343 | A reset takes the votes of all distinct proposers of the phase, and lands in participant intake with no participants, votes or entries |
| VoteTally.MaxAgreeing | src/compute_raft.rs:1484-1490 | The largest number of agreeing votes |
| VoteTally.TakeMax | src/compute_raft.rs:1628-1635 | The bucket with most votes, the last among equals |
| VoteTally.VoteDecides | src/compute_raft.rs:1577-1592 | With all buckets below the threshold, a vote can bring only its own bucket to it, and that bucket alone wins |
| VoteTally.HeldVotes | src/compute_raft.rs:1577-1592 | In every run a bucket holds exactly the proposers that voted for its content since the last decision |
| VoteTally.DecidedByThreshold | src/compute_raft.rs:1463-1490 | In every run a decision is for the content just voted for, with exactly the threshold of distinct proposers since the last decision |
| VoteTally.DecidesExactly | src/compute_raft.rs:1463-1490 | In every run a vote of the round decides exactly if with it the threshold of distinct proposers has voted for its content since the last decision |
| VoteTally.HeldWords | src/storage_raft.rs:446-458 | A bucket keeps for each proposer what it last said along with its vote |
| VoteTally.DecisionsConsecutive | src/storage_raft.rs:461-478 | Rounds are decided one after the other, each once |
| VoteTally.RunValid | src/compute_raft.rs:1577-1635 | In every run all buckets are below the threshold before each vote |
| BlockVotes.ComputeVotes.HasBlockStoredInfoReady | src/compute_raft.rs:1464-1472 | Ready exactly when some bucket has reached the majority: all nodes for the first block, more than half after it |
| BlockVotes.ComputeVotes.VoteCommitted | src/compute_raft.rs:521-581 | A committed vote outside the current block is ignored; one that completes its bucket applies its own content |
| BlockVotes.ComputeVotes.CountVote | src/compute_raft.rs:1577-1635 | Vote, check and take refine one step of the vote rules |
| BlockVotes.ComputeDecides | src/compute_raft.rs:1464-1472 | A vote for the first block decides exactly when all nodes agree, one for a stored block exactly when it is due and more than half of them do |
| BlockVotes.StorageConsensused.PartBlockCommitted | src/storage_raft.rs:236-262 | A committed part refines one step of the vote rules; the completed block carries the content voted for and is a shutdown only if every voter said so |
| BlockVotes.StorageDecides | src/storage_raft.rs:429-478 | A part completes a due block exactly when more than half of the nodes have sent it; it is a shutdown exactly if each of them last said so |
| BlockVotes.StorageConsensused.HasBlockReadyToStore | src/storage_raft.rs:429-438 | Ready exactly when some bucket has reached the majority |
| BlockVotes.StorageConsensused.GenerateCompleteBlock | src/storage_raft.rs:461-478 | The bucket with most votes is taken, and the number moves on by one |
| CoordinatedVotes.CoordinatedVotes.HasReady | src/compute_raft.rs:1459-1461 | Ready exactly when some command has the votes of all nodes |
| CoordinatedVotes.CoordinatedVotes.TakeReady | src/compute_raft.rs:1638-1648 | The greatest command that has a vote is taken, and the votes are cleared |
| CoordinatedVotes.CoordinatedVotes.VoteCommitted | src/compute_raft.rs:606-622 | A committed vote refines one step of the vote rules; when it decides, the greatest command with a vote is taken |
| CoordinatedVotes.RankOrdered | src/compute_raft.rs:40-48 | The order of the commands: pauses by block, then resuming, then the shared configuration |
| CoordinatedVotes.TakenIsDecided | src/compute_raft.rs:1638-1648 | In every run the command taken is the unanimous one if and only if no greater command got a vote since the last decision |
| CoordinatedVotes.WrongCommandTaken | src/compute_raft.rs:1638-1648 | A concrete run in which a command with one vote is taken instead of the unanimous one |
| ChainDb.BlockKeysOrdered | src/storage.rs:1257-1259 | Index keys of blocks are injective and sort as the numbers |
| ChainDb.TxKeysOrdered | src/storage.rs:1267-1269 | Index keys of transactions are injective and sort by block, then position |
| ChainDb.KeyKindsDiffer | src/constants.rs:25-38 | Block keys, transaction keys and the last-block key never collide |
| ChainDb.KeysRead | src/storage.rs:1257-1269 | The digits of an index key are lower-case hexadecimal of full width, and stand for the numbers |
| ChainDb.PointerRoundTrip | src/storage.rs:1244-1282 | A version pointer decodes to its column and the key up to its first separator |
| ChainDb.ReadBack | src/storage.rs:1141-1236 | A stored item reads back under its index key if and only if its key has no separator; under its own key too unless that starts like a name |
| ChainDb.LookupKept | src/storage.rs:1141-1166 | Storing another item leaves a lookup as it was |
| StorageFetch.FetchReceive.ReceiveBlockchainItems | src/storage_fetch.rs:75-121 | An item is taken only if it is the next one; the last one of a block hands the block out |
| StorageFetch.FetchReceive.GetKey | src/storage_fetch.rs:34-42 | The key asked for is that of the next item |
| StorageFetch.ReceiveKeeps | src/storage_fetch.rs:75-121 | A block handed out is its block item followed by exactly its transactions in order |
| StorageFetch.ReceiveProgress | src/storage_fetch.rs:75-121 | Every accepted item decreases what remains, lexicographically; any other changes nothing |
| StorageFetch.DeliveredInOrder | src/storage_fetch.rs:55-121 | Whatever items arrive, blocks come out as start, start + 1, ... without gap, each whole |
| StorageFetch.WholeReceived | src/storage_fetch.rs:75-121 | The items of the block waited for, received in order, are delivered as that block, and the next one is waited for |
| StorageFetch.StorageFetch.FetchMissingBlockchainItems | src/storage_fetch.rs:176-196 | A fetch starts after the contiguous marker, unless one is running or nothing is missing |
| StorageFetch.StorageFetch.ReceiveBlockchainItems | src/storage_fetch.rs:244-265 | An empty answer moves to the next peer; a finished fetch ends |
| StorageFetch.StorageFetch.ChangeToNextFetchPeer | src/storage_fetch.rs:234-241 | The peer index stays within the list and moves one step around it |
| StorageFetch.PeersVisited | src/storage_fetch.rs:234-241 | Of n peers, n changes reach each exactly once and lead back to the first |
| StorageNode.StorageNode.HandleCommittedBlock | src/storage.rs:513-535 | A committed block is stored, the marker advances if it is the next one, and a running fetch is extended to it |
| StorageNode.StorageNode.HandleCommittedSnapshot | src/storage.rs:536-552 | A snapshot sets the last stored block and starts the fetch of what is missing |
| StorageNode.StorageNode.ReceiveBlockchainItem | src/storage.rs:1012-1072 | A fetched block is stored only up to the last stored block, and the marker advances only with a successful store |
| StorageNode.StoreCompleteBlock | src/storage.rs:652-767 | Transactions, block, last-block name and marker are written in one batch |
| StorageNode.StoreFetchedCompleteBlock | src/storage.rs:777-824 | The batch of a fetched block, or the error for a malformed key or a missing block item |
| StorageNode.StoredCompleteStores | src/storage.rs:652-767 | A live block is stored under its number, nothing stored is dropped, and the marker moves only to it |
| StorageNode.StoredFetchedStores | src/storage.rs:777-824 | So is a fetched block, when storing it succeeds |
| StorageNode.StepJustified | src/storage.rs:513-557 | Each event keeps the marker justified, whatever it brings |
| StorageNode.RunJustified | src/storage.rs:1018-1050 | In every interleaving of live commits, snapshots and fetched items, a persisted marker n means blocks 0..n are stored |
| StorageNode.RunReadable | src/storage.rs:1205-1236 | With items named by their hashes and keys free of separators, reading the index key of any block up to the marker finds the block item of that number, with the stored data |
| StorageNode.RunWhole | src/storage.rs:1205-1236 | When committed blocks come with all their transactions, each transaction of a block up to the marker reads back too, by its position, with the stored data |
| StorageNode.CommittedNamesLast | src/storage.rs:733-733 | After a committed block, reading the last-block name gives that block exactly if its hash has no separator |
| StorageNode.FetchedLast | src/storage.rs:777-824 | Storing a fetched block names it as the last one if it is, and leaves the name alone if not |
| StorageNode.RunNamesLast | src/storage.rs:1174-1176 | Over every run, once the last stored block was committed here or fetched with well formed keys, reading the last-block name gives the block item of its number |
| StorageNode.HandedOutMarks | src/storage.rs:1018-1050 | A fetched block moves the marker to it exactly when it is the next one and all its keys are UTF-8 |
| StorageNode.StepTracked | src/storage.rs:513-557 | Every in-order event, whatever items it brings, keeps the marker next to the fetch exactly while all keys of the blocks handed out are UTF-8 |
| StorageNode.FetchEnds | src/storage_fetch.rs:169-196 | The step that ends a fetch leaves the marker at the last stored block if and only if every key of an accepted item is UTF-8 |
| StorageNode.RunSynced | src/storage_fetch.rs:273-287 | Over every in-order run, whatever items arrive: whenever nothing is being fetched, all blocks up to the last stored one are stored and marked if and only if every key that the last fetch accepted is UTF-8 |
| StorageNode.StartSynced | src/storage.rs:969-994 | A node starting on a justified database satisfies what these runs start from |
| StorageNode.MalformedKeyLeavesGap | src/storage.rs:777-824 | A concrete malformed key after which the fetch is finished and the marker left behind |
| KeyAgreement.BytesRoundTrip | src/key_creation.rs:192-218 | A published value reads back as the number it was |
| KeyAgreement.BytesAt | src/key_creation.rs:161-163 | A published value has its most significant byte first |
| KeyAgreement.DigitsRoundTrip | src/key_creation.rs:192-218 | The digits hashed for a share tell the number they stand for |
| KeyAgreement.ShareIs | src/key_creation.rs:192-218 | A share is the hash of g to the product of both secrets |
| KeyAgreement.DescendingOrder | src/key_creation.rs:316-358 | The table is taken from the greatest identifier down |
| KeyAgreement.XorCancels | src/key_creation.rs:316-358 | Adjacent masks cancel the share between them |
| KeyAgreement.SharesMeet | src/key_creation.rs:192-218 | Two neighbours compute the same share |
| KeyAgreement.NeighboursMeet | src/key_creation.rs:192-218 | The share to the right is the right neighbour's share to the left, in a ring of any size |
| KeyAgreement.Telescope | src/key_creation.rs:316-358 | Folding the masks around the ring replaces one share by the next |
| KeyAgreement.RingRecovers | src/key_creation.rs:316-358 | Every participant of a ring of any size recovers its own value, cut to the digest length: the panic is unreachable if and only if the value is no longer than a digest |
| KeyAgreement.TableRecovers | src/key_creation.rs:316-358 | The same from the table a participant holds |
| KeyAgreement.KeyAgreement.FirstRound | src/key_creation.rs:115-163 | The value is the concatenation, and g to the secret is published at 64 bits |
| KeyAgreement.KeyAgreement.SecondRound | src/key_creation.rs:132-218 | Both shares, the mask between them, and the masked value |
| KeyAgreement.KeyAgreement.ComputeKJ | src/key_creation.rs:316-358 | The fold over the table rotated to start after the own entry |
| KeyAgreement.KeyAgreement.ThirdRound | src/key_creation.rs:142-144 | In a ring that exchanged its values, the round agrees exactly when the value is no longer than a digest |
| InFlight.RaftInFlightProposals.ReceivedCommitProposal | src/raft_util.rs:47-70 | A commit removes its key once; one that does not decode changes nothing |
| InFlight.RaftInFlightProposals.ProposeItem | src/raft_util.rs:79-114 | A proposal gets the next key, unless it is a duplicate or too old |
| InFlight.RaftInFlightProposals.RemoveAllKeys | src/raft_util.rs:117-123 | All keys and the duplicates recorded under them are forgotten |
| InFlight.RaftInFlightProposals.IgnoreDedupBNumLessThan | src/raft_util.rs:180-195 | After it a repeat is proposed again exactly when its number and the recorded one are no less than the new minimum |
| InFlight.IgnoringForgets | src/raft_util.rs:180-228 | The same as a statement on the proposals: the filters keep only records that refuse nothing the minimum lets pass |
| InFlight.RecordLasts | src/raft_util.rs:79-228 | In every run, the record of a proposal lasts until a block commit or an applied snapshot with a minimum no later than its number, a reset that its key is listed for, or a restart |
| InFlight.ProposedAgain | src/raft_util.rs:206-228 | In every run, the next time an item is proposed with the number it was proposed with, it is proposed again if and only if an event in between forgot it and the minimum does not refuse it |
| InFlight.SnapshotReadmits | src/raft_util.rs:180-195 | Unless the minimum passes its number, one block commit or applied snapshot is enough for a repeat to be proposed again |
| InFlight.ListedForReset | src/compute.rs:962-987 | In every run, a key is listed for a reset if and only if a pipeline proposal or an applied snapshot listed it and no reset, block commit, applied snapshot or restart came since |
| InFlight.ResetSparesEarlierBlocks | src/compute.rs:1864-1891 | A reset spares what was proposed before the last block commit, unless an applied snapshot lists it |
| InFlight.ProposedTwice | src/raft_util.rs:180-195 | A concrete run, with a shutdown commit in between, that has the same item in flight twice |
| InFlight.NothingReProposed | src/raft_util.rs:162-173 | Once the minimum is at a block, nothing is left to re-propose for that block or a later one |
| InFlight.ComputeProposals.HandleBlockCommitted | src/compute.rs:962-987 | A block commit leaves in the pool what block generation leaves, sets the minimum and drops the listed pipeline keys |
| InFlight.ComputeProposals.GenerateSnapshot | src/compute_raft.rs:1013-1034 | Taking a snapshot sets the minimum |
| InFlight.ComputeProposals.ResetMiningBlockProcess | src/compute.rs:1864-1891 | The listed pipeline keys are dropped |
| InFlight.ComputeProposals.ApplySnapshot | src/compute_raft.rs:471-500 | Applying a snapshot replaces the committed pool and the listed pipeline keys, and sets the minimum |
| InFlight.ComputeProposals.constructor | src/compute.rs:1938-1957 | A node starts a new run of keys with nothing in flight and the transactions of its database |
| InFlight.ComputeProposals.ProposeLocalTransactionsAtTimeout | src/compute_raft.rs:802-815 | The first local transactions that fit are proposed and counted |
| InFlight.ComputeProposals.ProposeMiningPipelineItem | src/compute_raft.rs:736-748 | A pipeline proposal is recorded under its key, for a later reset |
| InFlight.ComputeProposals.ReceivedCommitProposal | src/compute_raft.rs:509-517 | A commit of own transactions lowers the count; a reset forgets the pipeline proposals |
| InFlight.MadeFresh | src/raft_util.rs:93-100 | A new proposal is made under a key no earlier one had |
| InFlight.CommittedAccounted | src/compute_raft.rs:509-517 | A commit keeps the count exact, so the subtraction does not underflow |
| InFlight.StepAccounted | src/compute_raft.rs:504-608 | Every event keeps the count exact |
| InFlight.RunAccounted | src/compute_raft.rs:802-815 | In every run, restarts and applied snapshots included, the count is the number of transactions in the node's in-flight proposals, never below zero, and no two proposals ever share a key |
| InFlight.ProposingRespectsLimit | src/compute_raft.rs:802-815 | Proposing takes exactly as many local transactions as fit below both limits, those with the smallest hashes, and loses none |
| InFlight.LocalFate | src/compute_raft.rs:802-815 | A local transaction stays in the local pool until it is proposed or the node restarts |
| InFlight.ComputeProposals.AppendToTxPool | src/compute_raft.rs:932-934 | Transactions are added to the local pool |
| InFlight.InFlightLasts | src/raft_util.rs:47-123 | In every run, what is proposed stays in flight under its key until its commit, a reset that it is listed for, or a restart |
| InFlight.ReProposedExactly | src/raft_util.rs:162-173 | In every run, a proposal is re-proposed for its block exactly if nothing took it out of flight and no minimum no later than its block was set since |
| InFlight.FirstProposal | src/raft_util.rs:206-228 | An item never proposed for deduplication is refused by the minimum only |

## Left out

- Networking, peers, routes, user interface, timeouts and asynchronous scheduling; node start-up except for what is loaded from the database; miner, user, wallet and pre-launch nodes; upgrade import and export; pause and resume; runtime data, API keys and the whitelist.
- The raft protocol. The in-memory storage of the raft crate is an abstract log that refuses a snapshot that is not newer and a compaction at or below its offset; commits are in order and appended entries are consecutive above the snapshot.
- Signatures, scripts, transaction validation, Merkle roots, header construction beyond number and previous hash, proof-of-work search, rewards and genesis display data.
- Hashes and serialization are injective. Transaction hashes and addresses are numbers: hash strings have a fixed width, so their order is a number order. For the ledger, a hash names one transaction.
- The pseudo-random number generator and the unicorn seed: the numbers are parameters, and the properties hold for all of them. The hexadecimal text of a witness is not modelled.
- Unicorn.Eval: the primality test is taken to answer correctly; its rare false positives are not modelled.
- Integer widths, except where a property turns on them (the modulus guard of the delay function, published 64-bit values, index keys): amounts, block numbers, counters and identifiers are unbounded, so overflow of a token total is not modelled.
- Receipt and data assets: an output carries a token amount, 0 for other assets, and balances are token totals.
- SupplyRuns.RunKeepsSupply: that committed transactions pay out what their inputs hold, and that coinbases are new, is what transaction validation and hashing provide; it is assumed of commits.
- Droplets.ComputeIntake.ReceiveTransactions: transaction validity and the meeting of droplet expectations are parameters; the local database is written by this method in the source and only read back at a restart here.
- BlockPipeline.Participants: modelled as a value inside the maps of the pipeline class, not as an object of its own; update in place and aliasing of single collections are not captured.
- RaftStore.AppendContexts: the proposal contexts are described for appends; applying a snapshot does not clear them, and they start empty after a reload, so no claim is made that they describe the whole log then.
- StorageNode.RunSynced: assumes that blocks commit one after the other and that a snapshot is no older than the node, as raft delivers them.
- StorageNode.StoreCompleteBlock: the genesis display log and its panic on a missing transaction are not modelled; the database is one map per column with atomic batches.
- KeyAgreement.RingRecovers: assumes that g to each secret fits 64 bits; the later session messages (`compute_M_iII`, the signatures over them and `compute_key`) are not modelled.
- InFlight.RunAccounted: a commit under a key of the node carries what the node proposed under it; re-proposals send the same key again and change no state.
- InFlight.ComputeProposals.HandleBlockCommitted: what block generation leaves in the pool is a parameter here; `LedgerCommits` says what it is.
- BlockVotes.ComputeVotes.CountVote: warnings about differing votes are log output only.
