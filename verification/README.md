# Verified models of Hylium Core components

Dafny models of the parts of the node where many small updates must add up to one simple promise, with
proofs of those promises for all inputs, all runs and all interleavings.

- **Cluster linearization** (`feerate`, `depgraph`, `linearization`, `chunking`, `topology`, `subsets`,
  `linearization_chunking`, `merge`, `candidates`, `linearize`, `postlinearize`, `postlinearize_lists`,
  `postlinearize_promises`, `postlinearize_trees`). Transactions with dependencies are put into an order,
  judged by its feerate diagram: the concave curve through the cumulative sizes and fees of its chunks.
  Linearizing from a given order, merging two orders and post-linearizing one are proved to give
  topological orders whose diagrams are nowhere below those they started from. Diagrams are compared
  through their dual, the best gain of a prefix for each slope; the two comparisons are proved the same.
  Post-linearized chunks are connected, a moved leaf is made up for, and trees get the best order there is.
- **Coins** (`coins`, `coins_cache`, `coins_stack`). A stack of write-back caches with DIRTY and FRESH
  flags, a linked list through the flagged entries and a memory count, over a database. Every run on the
  stack is proved to be the same run on one plain map of coins and one block hash per height, and to fail
  exactly where that run hands the database a null hash.
- **Check queue** (`checkqueue`). A master and any number of workers share a queue of verifications under
  one mutex. A step is one critical section or one verification; all schedules are covered.
- **Headers sync** (`headerssync`, `headerssync_state`, `headerssync_retarget`, `difficulty`). The
  two-phase download with one-bit commitments and a look-ahead buffer of headers stripped of their previous
  hash, and the rule for adjustments of the difficulty.
- **Block tree** (`chain`). Skip pointers against the plain walk back, common ancestors, the active chain.
- **Big integers** (`arithmetic`, `limbs`, `arith`, `compact`). Limb loops against mathematical integers,
  the compact form of targets, and the work of a block.
- **Bech32 and Bech32m** (`bech32`, `bech32_field`, `bech32_syndromes`, `bech32_errors`; BIP 173 and
  BIP 350). Encoding and decoding, and which errors the checksum finds: any within six consecutive symbols,
  and any three within a window of 1023. The latter goes through the field of 1024 elements, in which a
  multiplication is a table of ten images.
- **Base 58** (`digits`, `base58`), the **cuckoo cache** (`cuckoocache`) and the **address manager**
  (`addrman`, `addrman_check`, `addrman_impl`).

Objects that the source updates in place are classes, loops are loops with invariants, and each method is
tied to a function on values; the properties are proved of these functions and of runs of them. Hashes,
clocks and random draws are parameters.

Where code and comments of the source differ, the model follows the code:

- The comment of the cuckoo insert says that the first displaced place is the first of the eight; the
  index computed is that of the second (`src/cuckoocache.h:424-435`).
- Spending a coin is documented as having no effect without an unspent output. It has none on the view,
  but it reports success for an entry that is already spent (`Coins.SpendReports`).
- Sync and Flush hand the block hash down even when the cache has none. A cache below forgets its own
  (`Coins.WriteForgetsBest`); the database insists on one, so the write fails (`Coins.NewCacheFails`).
- The address manager's check is documented as a consistency check. It misses stale entries of the address
  index and networks without a count (`AddrManChecks.StaleAddressPasses`, `AddrManChecks.MissingCountPasses`).
- The look-ahead buffer of a headers sync may have any size. With size zero an honest peer is rejected where
  the difficulty has been adjusted (`HeadersSyncRetarget.ReplayRejectedAtRetarget`).
- A tried slot once filled never empties, so the branch that resolves a collision with an empty slot
  (`src/addrman.cpp:961-964`) is never taken.

`dafny verify dfyconfig.toml` checks the whole project.

## Model

| member | source | states |
|---|---|---|
| FeeRate.HigherIsRate | src/util/feefrac.h:157-175 | Comparing two fee/size pairs by cross products is comparing their feerates as real numbers |
| FeeRate.DiagramDuality | src/cluster_linearize.h:1333-1337 | One diagram is nowhere below another, at any real size, exactly if for every slope its best prefix gains at least as much |
| FeeRate.MirrorKeepsComparison | src/cluster_linearize.h:1172-1176 | Of two orders of the same transactions one is at least as good if it is so after reversing both and negating all fees: why a backward pass may reuse the forward one |
| DepGraphs.WithTransactionMeaning | src/cluster_linearize.h:129-147 | A new transaction gets the first free position, is its own only relative, and no other relation changes |
| DepGraphs.WithoutTransactionsMeaning | src/cluster_linearize.h:149-172 | After removal exactly the relations among the remaining transactions are left, a grandparent of a removed parent included |
| DepGraphs.WithDependenciesMeaning | src/cluster_linearize.h:174-199 | After adding parents to a child, one transaction is an ancestor of another exactly if it was before or there is a path through a new dependency |
| DepGraphs.WithDependenciesValid | src/cluster_linearize.h:174-199 | Adding dependencies keeps ancestors and descendants dual, reflexive and transitive |
| DepGraphs.WithDependenciesLeast | src/cluster_linearize.h:174-199 | The new relation is the least transitive one that contains the old relation and the new dependencies |
| DepGraphs.ApplyValid | src/cluster_linearize.h:134-199 | Each of the three operations keeps the graph closed |
| DepGraphs.RunValid | src/cluster_linearize.h:134-199 | Any run of adding transactions, adding dependencies and removing transactions keeps ancestors and descendants dual, reflexive and transitive on the used positions |
| DepGraphs.DepGraph.AddTransaction | src/cluster_linearize.h:134-147 | Updates the entries in place to the graph with the new transaction and returns its position |
| DepGraphs.DepGraph.RemoveTransactions | src/cluster_linearize.h:158-172 | Trims and masks the entries in place to the graph without the given transactions |
| DepGraphs.DepGraph.AddDependencies | src/cluster_linearize.h:178-199 | The three loops leave exactly the graph with the new dependencies |
| Chunking.ChunkLinearization | src/cluster_linearize.h:409-424 | The stack of absorbed feerates ends as the aggregate feerates of the chunks |
| Chunking.ChunksIsChunking | src/cluster_linearize.h:409-424 | Absorbing lower-feerate chunks partitions the order into groups no prefix of which beats the whole, with non-increasing feerates |
| Chunking.ChunkingUnique | src/cluster_linearize.h:409-424 | An order has one such partition, so any algorithm that finds one finds this one |
| Chunking.DiagramAbovePrefixes | src/cluster_linearize.h:409-424 | The diagram of the chunks lies on or above every cumulative point of the order |
| Chunking.DiagramLeast | src/cluster_linearize.h:409-424 | Every concave function on or above those points is on or above the diagram: chunking gives the least concave majorant |
| Chunking.ComparedByDiagrams | src/cluster_linearize.h:1333-1337 | Of two orders of the same transactions, one is at least as good exactly if the diagram of its chunks is nowhere below the other |
| Chunking.DropFirstChunk | src/cluster_linearize.h:496-516 | Dropping the first chunk leaves exactly the chunks of the order without it |
| LinearizationChunkings.LinearizationChunking.constructor | src/cluster_linearize.h:475-483 | Starts with all transactions left and their chunks |
| LinearizationChunkings.LinearizationChunking.BuildChunks | src/cluster_linearize.h:446-471 | Leaves the chunks, as sets with aggregate feerates, of the transactions still to do |
| LinearizationChunkings.LinearizationChunking.GetChunk | src/cluster_linearize.h:489-493 | The n-th chunk of what remains |
| LinearizationChunkings.LinearizationChunking.MarkDone | src/cluster_linearize.h:496-516 | The chunks kept are those of the remaining order, also when only one chunk is skipped instead of chunking again |
| LinearizationChunkings.LinearizationChunking.IntersectPrefixes | src/cluster_linearize.h:527-551 | Returns the first intersection of the subset with a prefix of the remaining chunks whose feerate is not below that of the subset, or the subset itself |
| Merging.IntersectionSafe | src/cluster_linearize.h:518-526 | What such an intersection takes from beyond any number of chunks is no loss at any slope below the first chunk: the reason it may go first |
| Merging.IntersectionImproves | src/cluster_linearize.h:518-526 | If a subset has feerate not below the first remaining chunk, moving its intersection to the front lowers the diagram nowhere |
| Merging.FirstChunkPartImproves | src/cluster_linearize.h:1354-1363 | Moving a part of the first chunk of an order to the front, whatever part the intersection leaves, lowers its diagram nowhere |
| Merging.NextSetClosed | src/cluster_linearize.h:1349-1371 | What a merge round moves to the front contains the ancestors of its transactions, so the order stays topological |
| Merging.MergeLinearizations | src/cluster_linearize.h:1338-1373 | The merge of two linearizations is a topological order of the same transactions, at least as good as both everywhere |
| Topology.AppendTopo | src/cluster_linearize.h:314-324 | Appends exactly the selected transactions, in an order in which none precedes its ancestors |
| Topology.SortedIsTopological | src/cluster_linearize.h:314-324 | On an acyclic graph an order by numbers of ancestors, ties by position, is topological |
| Topology.FixLinearization | src/cluster_linearize.h:1377-1405 | The in-place shifting from the back computes the repaired order |
| Topology.FixedPermutation | src/cluster_linearize.h:1377-1405 | The repaired order is a permutation of the given one |
| Topology.FixedTopological | src/cluster_linearize.h:1377-1405 | On an acyclic graph the repaired order of any permutation is topological |
| Topology.FixedUnchanged | src/cluster_linearize.h:1377-1405 | An order that is topological already is left as it is |
| Subsets.FeeRateOfSet | src/cluster_linearize.h:247-252 | Sums the fees and sizes of a set of transactions, each once |
| Subsets.DropKeptPrefix | src/cluster_linearize.h:506-509 | Dropping as many positions as transactions were done loses none of the remaining ones |
| PostLinearization.SwapImproves | src/cluster_linearize.h:1293-1305 | Swapping two adjacent groups, the later of higher feerate and not depending on the earlier, keeps the order topological and lowers the diagram nowhere |
| PostLinearization.SettleImproves | src/cluster_linearize.h:1261-1306 | Settling a new group at the end of the list, through all its merges and swaps, terminates and lowers the diagram nowhere |
| PostLinearization.GroupsImprove | src/cluster_linearize.h:1242-1330 | A forward pass returns a topological permutation with a diagram nowhere below the old one |
| PostLinearization.BackwardImproves | src/cluster_linearize.h:1242-1330 | So does a backward pass, which exchanges the roles of ancestors and descendants and negates fees |
| PostLinearization.PostLinearizeImproves | src/cluster_linearize.h:1242-1330 | Post-linearization returns a topological permutation of its input whose diagram is nowhere below the old one |
| PostLinearizeLists.SettleStep | src/cluster_linearize.h:1269-1306 | One turn of the inner loop on the linked lists is one merge, one swap or the end of the settling of the last group |
| PostLinearizeLists.BuildGroups | src/cluster_linearize.h:1244-1307 | The linked lists in the array represent the groups of the pass after every insertion |
| PostLinearizeLists.WriteBack | src/cluster_linearize.h:1309-1328 | Walking the lists from the sentinel writes the groups back into the linearization, in the right direction |
| PostLinearizeLists.PostLinearize | src/cluster_linearize.h:1242-1330 | Both passes on the linked lists leave the linearization as the two passes on lists of groups do |
| PostLinearizePromises.GroupsAreChunks | src/cluster_linearize.h:1242-1330 | The groups that a forward pass ends with are exactly the chunks of the order it returns |
| PostLinearizePromises.ChunksConnected | src/cluster_linearize.h:1138-1139 | The chunks of a post-linearized order are connected |
| PostLinearizePromises.FrontMakesUp | src/cluster_linearize.h:1242-1330 | A forward pass over an order with a transaction moved to the front is at least as good as the order with it anywhere before the first one that depends on it |
| PostLinearizePromises.BackwardMakesUp | src/cluster_linearize.h:1242-1330 | A backward pass makes up for moving a transaction to the end |
| PostLinearizePromises.MovedLeaf | src/cluster_linearize.h:1142-1146 | Moving a transaction without descendants to the end, with the same or a higher fee, and post-linearizing gives a linearization at least as good as the one before |
| PostLinearizeTrees.ClosedGain | src/cluster_linearize.h:1140-1141 | Where no group can be improved from within, no closed set of transactions gains more at any slope than the best of the groups |
| PostLinearizeTrees.ForwardOptimal | src/cluster_linearize.h:1140-1141 | If of two transactions with a common ancestor one depends on the other, a forward pass gives an order at least as good as every other |
| PostLinearizeTrees.TreeOptimal | src/cluster_linearize.h:1140-1141 | If every transaction has at most one child, or every one at most one parent, post-linearization gives an order at least as good as every other |
| Candidates.AncestorCandidateFinder.constructor | src/cluster_linearize.h:578-602 | The sums kept are those of the ancestor sets |
| Candidates.AncestorCandidateFinder.MarkDone | src/cluster_linearize.h:610-621 | The sums kept stay those of the ancestors that are left |
| Candidates.AncestorCandidateFinder.FindCandidateSet | src/cluster_linearize.h:640-653 | The remaining ancestor set with the highest feerate, the smallest one on a tie |
| Linearizing.NoSearchOk | src/cluster_linearize.h:735-751 | Returning the candidate it was given, with all iterations used up, is a search that keeps the contract of a search |
| Linearizing.TopIsSafe | src/cluster_linearize.h:1090-1121 | Moving the best closed set of what is left to the front makes no given order worse |
| Linearizing.CutIsSafe | src/cluster_linearize.h:1107-1115 | Neither does moving what a candidate leaves after being cut by prefixes of the chunks of that order |
| Linearizing.Linearize | src/cluster_linearize.h:1056-1130 | With any search that keeps its contract: a topological order of all transactions, at least as good as a given one, at least as good as every order if it is reported as optimal, within the allowed iterations |
| Coins.FetchKeeps | src/coins.cpp:48-70 | A lookup at any height, filling caches on its way, changes no view and keeps all flags right |
| Coins.FetchFinds | src/coins.cpp:48-70 | After a lookup the answer of the view is in the cache that was asked |
| Coins.AddKeeps | src/coins.cpp:72-111 | Adding a coin sets it in the view, or does nothing to an unspendable or conflicting one; the flags stay right exactly if an overwrite was announced, the cache knows the coin, or there is none below |
| Coins.AddMisuse | src/coins.cpp:72-111 | A coin added as new over a view that has it comes back when it is spent |
| Coins.SpendKeeps | src/coins.cpp:133-153 | Spending a looked-up coin removes exactly it from the view and keeps the flags right, whether the entry is erased or marked |
| Coins.SpendReports | src/coins.cpp:133-153 | Spending reports success for the coins of the view, and also for a coin the cache remembers as spent or a database answers as spent |
| Coins.UncacheKeeps | src/coins.cpp:278-291 | Dropping an unflagged entry changes no view |
| Coins.WriteKeeps | src/coins.cpp:186-250 | Writing a cache into the one below never meets a misapplied FRESH flag, keeps the flags right towards the view further below, and gives the lower cache the upper view |
| Coins.DbWriteKeeps | src/txdb.cpp:119-131 | Writing a cache into the database gives it exactly the coins of the cache view |
| Coins.KeptKeeps | src/coins.cpp:252-276 | What Sync keeps, or the empty cache that Flush leaves, shows the same view over the new one below |
| Coins.StepIsFlat | src/coins.cpp:48-291 | Each allowed operation fails exactly if it writes a cache without a block hash into the database, and otherwise does to views and block hashes what it does to plain maps and hashes |
| Coins.RunIsFlat | src/coins.cpp:48-291 | An allowed run of adds, spends, lookups, Uncache, best-block questions, Sync, Flush and changes of height goes through exactly if the same run on one plain map and one hash per height never writes a null hash into the database; then every height shows the coins and the best block of that run, and every flag is right |
| Coins.NewCacheFails | src/txdb.cpp:93-97 | A cache put on a database and written down at once stops the run at the assertion of the database, though every operation is allowed |
| Coins.AskedCacheSucceeds | src/txdb.cpp:93-97 | Asking for the best block first avoids that exactly if the database has one |
| Coins.AskKeeps | src/coins.cpp:176-180 | Asking for the best block changes no answer and leaves it in the cache |
| Coins.WriteBest | src/coins.cpp:252-276 | After Sync or Flush that does not hand the database a null hash, the view below has the best block of the cache, and that is the old answer exactly if the cache had its own hash or the cache below loses nothing without one |
| Coins.WriteForgetsBest | src/coins.cpp:252-276 | A cache that was never told its block makes the cache below forget its own |
| CoinsCaches.AppendLinked | src/coins.h:132-144 | Linking an unflagged entry at the end keeps the list a two-way list of exactly the flagged entries |
| CoinsCaches.CutLinked | src/coins.h:180-187 | Unlinking an entry keeps the list a two-way list of exactly the flagged entries |
| CoinsCaches.CoinsCache.AddFlags | src/coins.h:132-144 | Sets the flags and keeps the list exact |
| CoinsCaches.CoinsCache.SetClean | src/coins.h:180-187 | Clears the flags and keeps the list exact |
| CoinsCaches.CoinsCache.AddCoin | src/coins.cpp:72-111 | The cache becomes the specified one, the list and the memory count stay exact, and the exception is raised exactly on an unannounced overwrite of an unspent entry |
| CoinsCaches.CoinsCache.SpendFetched | src/coins.cpp:133-153 | The cache becomes the specified one and the coin moved out is the one that was there; list and memory count stay exact |
| CoinsCaches.CoinsCache.Uncache | src/coins.cpp:278-291 | Only an unflagged entry goes; list and memory count stay exact |
| CoinsCaches.CoinsCache.NextAndMaybeErase | src/coins.h:283-297 | Advances along the list; unless the cache is to be wiped, a spent entry is erased and any other cleaned |
| CoinsCaches.CoinsCache.BatchWrite | src/coins.cpp:186-250 | Following the list of the cache above gives the merge of both caches entry by entry, and raises the exception exactly if a FRESH entry meets an unspent one |
| CoinsCaches.CoinsCache.WriteTo | src/txdb.cpp:119-131 | Following the list gives the database after all modified coins are written or erased |
| CoinsCaches.CoinsCache.SanityCheck | src/coins.cpp:319-350 | On a valid cache all assertions hold: linked entries are as many as flagged ones and the memory count equals the recomputed one |
| CoinsStacks.CoinsStack.FetchCoin | src/coins.cpp:48-64 | The caches below are asked in turn and filled; the stack becomes the specified one |
| CoinsStacks.CoinsStack.GetCoin | src/coins.cpp:66-70 | Answers with the coin of the view |
| CoinsStacks.CoinsStack.HaveCoin | src/coins.cpp:166-169 | Answers whether the view has an unspent coin |
| CoinsStacks.CoinsStack.AddCoin | src/coins.cpp:72-111 | Does to the stack what the specification of adding does |
| CoinsStacks.CoinsStack.SpendCoin | src/coins.cpp:133-153 | Does to the stack what the specification of spending does, and moves out the coin of the view |
| CoinsStacks.CoinsStack.GetBestBlock | src/coins.cpp:176-180 | Answers with the best block of the view |
| CoinsStacks.CoinsStack.SetBestBlock | src/coins.cpp:182-184 | Sets the own hash of the top cache, as the specification does |
| CoinsStacks.CoinsStack.Sync | src/coins.cpp:265-276 | Fails exactly on a misapplied FRESH flag or on a null hash for the database; otherwise does to the stack what the specification of Sync does |
| CoinsStacks.CoinsStack.Flush | src/coins.cpp:252-263 | Fails exactly on a misapplied FRESH flag or on a null hash for the database; otherwise does to the stack what the specification of Flush does |
| CoinsStacks.CoinsStack.WriteToDatabase | src/txdb.cpp:93-131 | Refuses exactly a cache without a block hash; otherwise the database gets the coins and the hash of the cache, and what Sync keeps has no flag left |
| CheckQueues.AcquireSound | src/checkqueue.h:82-96 | Taking the lock and reporting a batch loses no error, makes up none, and keeps the counters |
| CheckQueues.TakeWorkInv | src/checkqueue.h:98-126 | Taking a batch only moves checks from the queue to the thread; waiting keeps the reason to wait |
| CheckQueues.ReturnInv | src/checkqueue.h:98-106 | When the master returns, the result is that of the round and nothing of the round is left |
| CheckQueues.StepInv | src/checkqueue.h:72-189 | Every step of every thread keeps the invariant: counters exact, pending checks those of the round, an error recorded as soon as a failing check is done |
| CheckQueues.EveryReturnCorrect | src/checkqueue.h:72-189 | In every interleaving every return is right about the checks added since the one before |
| CheckQueues.QueueCorrect | src/checkqueue.h:72-189 | From the start, with any number of workers and any batch size, Complete returns no error exactly if all checks of its round pass, else the error of one of them; no stale result leaks into a later round |
| CheckQueues.MasterHasHelp | src/checkqueue.h:80-137 | A waiting master has a worker that holds a batch and can go on |
| CheckQueues.NeverStuck | src/checkqueue.h:80-137 | While Complete has not returned some thread can take a step |
| CheckQueues.CompleteReturns | src/checkqueue.h:72-137 | However the threads are scheduled, they take a bounded number of steps, and when none is left Complete has returned; no stray wake-up is needed |
| HeadersSync.PresyncHeaderKeeps | src/headerssync.cpp:174-210 | A header is taken in the first phase exactly if its difficulty step is permitted and the commitments still fit; work, height and commitments are then those of the chain |
| HeadersSync.RedownloadAccepts | src/headerssync.cpp:212-275 | A header is taken in the second phase exactly if it continues the chain, its difficulty fits the buffered one and, before the work is reached, its commitment is the next one kept |
| HeadersSync.ReleaseOneKeeps | src/headerssync.h:34-52 | The header released is the one received, its dropped previous hash included |
| HeadersSync.ReleaseKeeps | src/headerssync.cpp:277-291 | Released are the oldest buffered headers: all once the work is reached, else just those beyond the buffer size |
| HeadersSync.ProcessKeeps | src/headerssync.cpp:65-134 | Each message keeps what is known of both phases; headers released early have a full buffer after them; when the work is reached all are released and the sync ends |
| HeadersSync.RunKeeps | src/headerssync.cpp:65-291 | Over any run of messages the released headers are the beginning of the redownloaded ones exactly as received, a chain from the start; until the work is reached each has at least a buffer of accepted headers after it; commitments stay within their bound |
| HeadersSync.SyncReleasesChain | src/headerssync.cpp:65-291 | The same for whole syncs from the initial state |
| HeadersSync.ReplayHeader | src/headerssync.cpp:226-238 | The next header of the first phase is taken again exactly if the buffer still holds its predecessor, or it is the first, or its difficulty is permitted after the starting block |
| HeadersSync.ReplayAccepted | src/headerssync.cpp:136-275 | With a buffer of at least one, a peer that serves the headers of the first phase again, cut into any messages, is never rejected, and all it served is released once the work is reached |
| HeadersSync.SyncAcceptsReplay | src/headerssync.cpp:65-291 | The same from the start of a sync: once any messages have led into the second phase, what was served in the first leads to the end without rejection |
| HeadersSync.ReplayUnbuffered | src/headerssync.cpp:226-238 | With a buffer of size zero the same peer is never rejected exactly if at the beginning of every message before the work is reached the difficulty is permitted after the starting block |
| HeadersSyncRetarget.ReplayRejectedAtRetarget | src/headerssync.cpp:226-238 | With a buffer of size zero, the difficulty rule of the source and whatever hashes and work: headers served one by one across an adjustment of the difficulty are rejected, though the same headers were accepted before |
| HeadersSyncRetarget.RetargetExists | src/pow.cpp:89-136 | Such headers exist under the rules of the main chain |
| Difficulty.PermittedDifficultyTransition | src/pow.cpp:89-136 | Accepts exactly the targets between the rounded results of a four times shorter and a four times longer period, limited by the easiest target; between adjustments exactly the same target; nothing is refused where minimum difficulty is allowed |
| Difficulty.AdjustTarget | src/pow.cpp:101-114 | The product and quotient on 256 bits, limited and passed through the compact form |
| Difficulty.CompactFormRounds | src/arith_uint256.cpp:195-216 | Passing a number through its compact form drops all but its most significant bytes |
| Difficulty.HalvingPermitted | src/pow.cpp:89-136 | Under the rules of the main chain halving a target is permitted at an adjustment |
| HeadersSyncStates.HeadersSyncState.ValidateAndProcessSingleHeader | src/headerssync.cpp:174-210 | Updates the fields as the first phase specifies for one header |
| HeadersSyncStates.HeadersSyncState.ValidateAndStoreHeadersCommitments | src/headerssync.cpp:136-172 | Updates the fields as specified for a message of the first phase, switching phases when the work is reached |
| HeadersSyncStates.HeadersSyncState.ValidateAndStoreRedownloadedHeader | src/headerssync.cpp:212-275 | Updates the fields as the second phase specifies for one header |
| HeadersSyncStates.HeadersSyncState.PopHeadersReadyForAcceptance | src/headerssync.cpp:277-291 | Returns the headers to release, rebuilt from their compressed form |
| HeadersSyncStates.HeadersSyncState.ProcessNextHeaders | src/headerssync.cpp:65-134 | Returns and leaves what is specified for a message in either phase |
| Chains.LowestOneCleared | src/chain.cpp:69-70 | Clearing the lowest one bit keeps the zeros below it and all bits above it |
| Chains.AncestorOfAncestor | src/chain.cpp:83-108 | Ancestors of ancestors are ancestors: a walk may go through any block on the way |
| Chains.Block.GetAncestor | src/chain.cpp:83-108 | Following skip pointers gives the block that walking back one by one gives, or none outside the heights |
| Chains.Block.BuildSkip | src/chain.cpp:115-119 | The skip pointer leads to the ancestor at the skip height, so the tree stays one |
| Chains.LastCommonAncestor | src/chain.cpp:155-178 | Returns the highest common ancestor, or none if the blocks have no common ancestor |
| Chains.Chain.SetTip | src/chain.cpp:16-24 | The early stop still leaves every ancestor of the new tip at its height |
| Chains.Chain.FindFork | src/chain.cpp:50-59 | Returns the highest ancestor of a block that is in the chain, or none |
| Limbs.AddDigitsValue | src/arith_uint256.h:117-127 | Adding limb by limb with carries is the sum modulo the width |
| Limbs.MulAddDigitsValue | src/arith_uint256.cpp:48-57 | A row of limbs times a number plus an accumulator is that modulo the width |
| Limbs.MulRowsValue | src/arith_uint256.cpp:60-73 | All rows together are the product modulo the width |
| Limbs.ComplementValue | src/arith_uint256.h:51-57 | The limb-wise complement is the largest number minus the number |
| Limbs.IncrementedValue | src/arith_uint256.h:155-162 | Incrementing with carries adds one modulo the width |
| Limbs.ShiftedLeftValue | src/arith_uint256.cpp:14-28 | Shifting limbs and bits left multiplies by the power of two modulo the width |
| Limbs.ShiftedRightValue | src/arith_uint256.cpp:31-45 | Shifting limbs and bits right is the floor of the division by the power of two |
| Limbs.ComparedAt | src/arith_uint256.cpp:102-111 | The highest differing limb decides the order |
| Arith.Add | src/arith_uint256.h:117-127 | In place, for every width: the sum modulo 2^BITS |
| Arith.MulSmall | src/arith_uint256.cpp:48-57 | In place, for every width: the product with a limb modulo 2^BITS; that nothing exceeds 64 bits on the way is `Arith.RowWidths` |
| Arith.RowWidths | src/arith_uint256.cpp:48-73 | Every intermediate number of a row, carry and accumulator included, fits in 64 bits, and its low limb is that of the result |
| Arith.Mul | src/arith_uint256.cpp:60-73 | In place, for every width: the product modulo 2^BITS |
| Arith.Negate | src/arith_uint256.h:59-66 | The number that added to it gives zero modulo 2^BITS |
| Arith.Subtract | src/arith_uint256.h:129-133 | In place: the difference modulo 2^BITS |
| Arith.CompareTo | src/arith_uint256.cpp:102-111 | The numeric order |
| Arith.ShiftLeft | src/arith_uint256.cpp:14-28 | In place, by or-ing shifted limbs into cleared ones: the product with the power of two modulo 2^BITS |
| Arith.ShiftRight | src/arith_uint256.cpp:31-45 | In place: the floor of the division by the power of two |
| Arith.Bits | src/arith_uint256.cpp:156-168 | The position of the highest one bit plus one, or zero |
| Arith.Divide | src/arith_uint256.cpp:76-99 | In place, for every width: the floor of the quotient; the exception exactly on division by zero |
| Compact.SetCompact | src/arith_uint256.cpp:175-193 | The denoted number cut to 256 bits; overflow is reported exactly if mantissa times 256^(size-3) reaches 2^256; negative exactly if the sign bit meets a non-zero mantissa |
| Compact.GetCompact | src/arith_uint256.cpp:195-216 | What the compact form denotes is the number without the bytes below its most significant ones, at least fifteen bits of which are kept |
| Compact.GetBlockProof | src/chain.cpp:121-134 | The floor of 2^256 divided by the target plus one, and zero for a meaningless target; nothing wraps around |
| Base58.EncodeRoom | src/base58.cpp:98-100 | For every number of bytes the buffer of 138/100 digits plus one suffices |
| Base58.DecodeRoom | src/base58.cpp:54-55 | For every number of digits the buffer of 733/1000 bytes plus one suffices |
| Base58.MultiplyAdd | src/base58.cpp:104-110 | The carry loop with its early stop replaces the number in the buffer by a multiple of it plus a digit, and leaves no carry |
| Base58.EncodeBase58 | src/base58.cpp:89-127 | One character per leading zero byte, then the shortest spelling of the number in base 58 |
| Base58.DecodeBase58 | src/base58.cpp:40-87 | The bytes a text spells, exactly if it is well formed between spaces and not longer than allowed |
| Base58.RoundTrip | src/base58.cpp:40-127 | Decoding an encoding gives the bytes back, leading zeros included, for bytes of every length that is allowed |
| Bech32.NextInjective | src/bech32.cpp:176-214 | Different remainders stay different under a common symbol: nothing shifted out is lost |
| Bech32.Window | src/bech32.cpp:176-214 | Up to six symbols after a common remainder show up in the result as they are |
| Bech32.BurstChanges | src/bech32.cpp:130-216 | Changes within six consecutive symbols always change the remainder |
| Bech32.ChecksumVerifies | src/bech32.cpp:342-353 | A created checksum makes the remainder the constant of the encoding, for any symbols before it |
| Bech32.PolyMod | src/bech32.cpp:130-216 | Computes the remainder symbol by symbol |
| Bech32.CheckCharacters | src/bech32.cpp:287-309 | Accepts exactly printable text without mixed case |
| Bech32.Encode | src/bech32.cpp:358-371 | The prefix, the separator and the characters of the symbols and their checksum |
| Bech32.Decode | src/bech32.cpp:374-400 | The encoding, lower-case prefix and symbols of a text, exactly if it is well formed, short enough and its checksum verifies |
| Bech32.RoundTrip | src/bech32.cpp:358-400 | An encoded text decodes to the same encoding, prefix and symbols exactly if the prefix is printable and not empty and the text within the limit |
| Bech32.BurstDetected | src/bech32.cpp:327-339 | Symbols that verify no longer verify under the same encoding after changes within six consecutive ones, a single change included |
| Bech32.TextBurstDetected | src/bech32.cpp:374-400 | Two texts that differ in symbols of one stretch of six characters never both decode under one encoding |
| Bech32Field.NoFixed | src/bech32.cpp:161-168 | The element whose powers define the generator has order 1023: no smaller power of it leaves anything but zero where it is |
| Bech32Syndromes.Reduces | src/bech32.cpp:199-212 | The constants of the reduction are multiples of the generator: what leaves a remainder at the top has the same value at three powers of that element as what comes back |
| Bech32Syndromes.SyndromeNext | src/bech32.cpp:178-214 | So taking in a symbol multiplies the value of the polynomial at each of the three by that power and adds the symbol |
| Bech32Errors.PointIsPower | src/bech32.cpp:169-173 | These three are the 997th, 998th and 999th power |
| Bech32Errors.ApartThree | src/bech32.cpp:172-175 | How far three wrong symbols move the values apart |
| Bech32Errors.NoneCancel | src/bech32.cpp:172-175 | Three terms that cancel at all three powers are zero if their distances are below 1023 |
| Bech32Errors.ThreeChange | src/bech32.cpp:139-142 | Up to three wrong symbols within a window of 1023, wherever they stand in it, always change the remainder |
| Bech32Errors.ThreeDetected | src/bech32.cpp:327-339 | Symbols that verify no longer verify under the same encoding after up to three changes within a window of 1023 |
| Bech32Errors.TextThreeDetected | src/bech32.cpp:374-400 | Two texts that differ behind the separator in up to three characters within a window of 1023 never both decode under one encoding |
| CuckooCaches.FastRange | src/cuckoocache.h:240-251 | A 32-bit hash is mapped below the size of the table |
| CuckooCaches.LiveIsFound | src/cuckoocache.h:474-484 | What is kept stands in one of its places, so a lookup finds it |
| CuckooCaches.PutDown | src/cuckoocache.h:411-444 | Exchanging the element in hand with a kept entry, or writing it into a free one, keeps every other entry |
| CuckooCaches.InsertKeepsFound | src/cuckoocache.h:385-396 | After an insert every element kept before is still found except at most one, and the inserted one is found unless it is that one |
| CuckooCaches.Cache.EpochCheck | src/cuckoocache.h:286-318 | Either nothing changes, or the newest epoch was full: then old entries become free and new ones old; the newest epoch never outgrows its size by more than the scan interval |
| CuckooCaches.Cache.Insert | src/cuckoocache.h:397-445 | After the epoch check: the element is kept, or added, or added with exactly one entry lost; nothing else that is kept changes and every kept entry stands in one of its eight places |
| CuckooCaches.Cache.Contains | src/cuckoocache.h:474-484 | Finds exactly the elements in one of their places, marking an entry as free only if asked, after which it is still found |
| AddrMan.CreatedKeeps | src/addrman.cpp:416-430 | A created entry is consistent but for having no slot yet |
| AddrMan.DeletedKeeps | src/addrman.cpp:456-471 | Deleting an entry without references, by swapping it to the end of the random vector, keeps all indexes and counters |
| AddrMan.ClearedKeeps | src/addrman.cpp:473-489 | Clearing a slot keeps consistency and forgets at most the address in it |
| AddrMan.MadeTriedKeeps | src/addrman.cpp:491-548 | Moving an address to the tried table, with the eviction it may need, keeps consistency and empties no tried slot |
| AddrMan.MadeTriedMoves | src/addrman.cpp:491-548 | The address takes its tried slot; the one that was there stays known and stands in the new table; at most the one in whose place it goes is forgotten |
| AddrMan.AddedSingleMeaning | src/addrman.cpp:550-624 | An address is reported as added exactly if it gets the slot of its source; one that is new and gets no slot is not known afterwards; no other address is forgotten but the one that stood in that slot |
| AddrMan.AddedSingleKeeps | src/addrman.cpp:550-624 | Adding an announced address keeps consistency on every path |
| AddrMan.MadeGoodMeaning | src/addrman.cpp:626-679 | An address moves exactly if it is known, not tried, and its slot is free or not to be tested; else the collision is remembered while there is room; the displaced address stays known and at most one other is forgotten |
| AddrMan.MadeGoodKeeps | src/addrman.cpp:626-679 | Noting a success at a positive time keeps consistency, remembering at most ten collisions |
| AddrMan.ResolvedOneKeeps | src/addrman.cpp:912-973 | Resolving a remembered collision keeps consistency |
| AddrMan.ResolvedAllKeeps | src/addrman.cpp:912-973 | Resolving all collisions one after the other, at whatever times, keeps consistency, adds none and keeps those not looked at |
| AddrMan.CollisionFaces | src/addrman.cpp:975-1001 | A remembered collision that is still known faces an occupied slot of a known address |
| AddrMan.ApplyKeeps | src/addrman.cpp:550-973 | Every operation keeps the conditions of the consistency check and never empties a tried slot |
| AddrMan.RunKeeps | src/addrman.cpp:1063-1166 | Over every run with positive times: reference counts are the occurrences in the new table, tried entries stand in their slots, indexes are inverse, counts per network exact; tried slots stay filled and collisions face occupied ones |
| AddrMan.SizesAgree | src/addrman.cpp:1063-1075 | The random vector is as long as the new and tried counters together |
| AddrManChecks.CheckInfos | src/addrman.cpp:1077-1113 | Returns zero exactly if every entry is in order, and then which are tried, the references of the others and the counts of every network; else a number that names a fault of some entry |
| AddrManChecks.CheckAddrman | src/addrman.cpp:1063-1166 | Returns zero exactly if sizes, entries, both tables, references and counts are in order and the key is not null; any other number names something that is not |
| AddrManChecks.ConsistentIsChecked | src/addrman.cpp:1063-1166 | A manager is consistent exactly if the check has nothing to report and what the check does not look at is in order |
| AddrManChecks.StaleAddressPasses | src/addrman.cpp:1063-1166 | An address that the index has and no entry does passes the check |
| AddrManChecks.MissingCountPasses | src/addrman.cpp:1154-1163 | So does a network in use without a count, if another has a count of zero |
| AddrManChecks.RunPasses | src/addrman.cpp:1063-1166 | After every run with positive times from an empty manager the check has nothing to report |
| AddrManImpls.AddrManImpl.SwapRandom | src/addrman.cpp:432-454 | Exchanges two places of the random vector and their positions; the looked-up ids are known |
| AddrManImpls.AddrManImpl.Delete | src/addrman.cpp:456-471 | Updates all indexes and counters as specified |
| AddrManImpls.AddrManImpl.ClearNew | src/addrman.cpp:473-489 | Clears a slot as specified; the reference count it decrements is positive |
| AddrManImpls.AddrManImpl.RemoveFromNew | src/addrman.cpp:495-505 | Scanning the buckets at the positions of the address removes all its entries, so its reference count ends at zero |
| AddrManImpls.AddrManImpl.MakeTried | src/addrman.cpp:491-548 | Moves an address as specified; its slot is empty when it takes it |
| AddrManImpls.AddrManImpl.AddSingle | src/addrman.cpp:550-624 | Updates the fields as specified, for any two readings of the clock, and keeps consistency |
| AddrManImpls.AddrManImpl.MarkGood | src/addrman.cpp:626-679 | Updates the fields as specified and keeps consistency; an address not tried has references |
| AddrManImpls.AddrManImpl.Attempt | src/addrman.cpp:693-711 | Updates the fields as specified and keeps consistency |
| AddrManImpls.AddrManImpl.Connected | src/addrman.cpp:877-894 | Updates the fields as specified and keeps consistency |
| AddrManImpls.AddrManImpl.SetServices | src/addrman.cpp:896-910 | Updates the fields as specified and keeps consistency |
| AddrManImpls.AddrManImpl.ResolveCollisions | src/addrman.cpp:912-973 | Goes through all remembered collisions in order of their ids, leaving what resolving each of them specifies, and keeps consistency |
| AddrManImpls.AddrManImpl.SelectTriedCollision | src/addrman.cpp:975-1001 | Answers with the tried address in the way of the picked collision; never looks up an empty slot |
| AddrManImpls.AddrManImpl.Check | src/addrman.cpp:1063-1166 | Returns zero exactly if what the check looks at is in order and the key is not null |

## Left out

- Widths of fees and sizes in cluster linearization: fees and sizes are unbounded integers, so overflow of 64-bit fees and 32-bit sizes is not modelled.
- The search for candidates inside `Linearize` (`SearchCandidateFinder`): a parameter bound by the contract its comment gives; which iterations it spends on what, and its random choices, are not modelled.
- `CompareChunks`, the graph-remapping constructor and the connectivity queries of the dependency graph.
- Sets of transactions are mathematical sets; the bit sets that hold them, and so the bound on positions, are not modelled.
- Coin caches: hashing of outpoints, reallocation of the map, and the byte counts of allocations; a coin's dynamic memory is a function of its script. Moving a coin out of a cache that is about to be wiped is modelled as copying it.
- The database under the coin caches is a map; partial batches, crashes and the markers that detect them are not modelled, nor is `EmplaceCoinInternalDANGER`.
- A stack of coin caches is a sequence of objects in which each has the one before it as its base, where the source has pointers.
- Check queue: shutdown through the destructor, and the memory model below the mutex.
- Headers sync: the request locator, the estimate of the maximal number of commitments from the clock, and log messages.
- Block tree: `LocatorEntries`, searches by time, and 32-bit heights; predecessor and height of a block are fixed when it is made.
- Big integers: conversion to floating point, hexadecimal text and byte arrays, comparison with 64-bit numbers, decrement, and bitwise operators other than those used by shifts and division.
- Arith.Increment: its contract names the function whose number `Limbs.IncrementedValue` gives.
- Base 58: the variants with a four-byte hash check; buffer sizes are unbounded integers.
- Bech32: `LocateErrors`, which has tables of the field of 1024 elements of its own; prefixes are taken to be ASCII. That four errors within a window of 89 are found, which rests on a search through codes, is not stated.
- Bech32.Encode: takes symbols below 32 by their type; the source indexes its character table without a check.
- Cuckoo cache: packing of flags into bytes, memory ordering of concurrent erases, and the depth limit, which is a parameter instead of a floating-point logarithm.
- Address manager: serialization, random selection, lists of addresses for peers, and the hashing into buckets, which is a parameter with the ranges of the source. The two tables are maps from occupied slots instead of arrays with -1 in empty ones, and ids are unbounded.
