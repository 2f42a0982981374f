# Waves fork detector: a verified model

The fork detector collects blocks from many peers, keeps them in one append-only tree, remembers for every peer the
block it was last seen on (its *leash*), and reports how each peer's chain relates to the main chain. This project
models that core and proves what it promises.

**How the model is built.** A key-value store is seen through snapshots (`Database.Db`, a value) and changed by
batches. `BlockTree` is what the store stands for: the accepted blocks in the order of insertion, each with two edges,
its *parent* (ancestry) and its *base* (the block it was placed on; for a micro-block this is the referenced block,
whose parent it shares). The classes `Storage`, `Linkage`, `Queue`, `PeerLoader` and `Loader` follow the source method
by method, loops included. Their contracts tie every call to the abstract state: the tree and the leashes
(`Ledger.Ledger`), the queue contents, one step of a load (`Loading.Handle`). The properties are then proved about
those abstract states, for every input, every reachable store and every run.

| file | what it holds |
|---|---|
| Entities, Powers, ByteOrder | values and errors; powers of two, the logarithm that sizes a jump table; big-endian numbers |
| BlockTree, CommonAncestor, Heads, Scores | the abstract tree: ancestors, the two-finger walk, heads and tips, scores |
| Database, Batches, Storage | the stored records, when they represent a tree, the batches that keep it so, and the storage class that writes them |
| Ledger, Journal | the state of a linkage and its state-changing calls, over whole runs; what they write |
| Selection, Sorting, Forks, Grouping, Generators, Linkage | choosing the main chain, fork reports, generator counts |
| Queue, Loading, PeerLoader | the history load from one peer: one event, the classes |
| LoadRuns, LoadEvents | whole runs of a load; what each event can do to it, by the clock and by the queue |
| Sessions, CatchingUp, Loader | one load after the other: counters, gaps, whole sequences; from the list of IDs to the loader's decision; the class |
| ForkShapes | trees with two branches, all reachable, on which `lca` panics; a main head with a leashed descendant |
| Keys, ByteStore | the byte keys, their order and ranges; the store under these keys, over whole runs, and its range scans |

**Main results.**

- *Last common block.* `lca` climbs by jump tables but, unlike `fastBackwardFarthest`, never lowers its table index
  after a jump. It therefore panics on some pairs of stored blocks. `Lca` is proved to return exactly the deepest
  common ancestor, as the plain parent walk finds it, when `JumpsInBounds` holds of two numbers (the height A of the
  common ancestor and the length k of the lower branch), and to panic exactly when it does not. k <= 2A + 2 suffices,
  and no better linear bound does; the least failing k is one more than twice the least power of two above A.
  Every A and k whose heights fit 32 bits occur in a store filled from genesis (`EveryForkOccurs`): the smallest
  failing pair forks at genesis and reaches height 6, and `FailsAboveIff` says above which heights a pair can fail.
- *Reachability.* Every well-formed tree is the tree of some run of puts from its genesis block, so what is said of
  well-formed trees is said of reachable stores, and of no others.
- *Representation.* Every insertion, of key-blocks and micro-blocks in any mixture, keeps all record families in step
  with the tree: exact jump tables, a bijection of IDs and numbers, record and link of every block in agreement, heads
  pointing exactly at the blocks on which nothing was placed. A rejected call changes nothing. The class writes these
  very batches, and over every run from the empty database the byte-keyed store holds the state of the linkage and
  nothing else (`StoreFromScratch`).
- *Main chain.* Two folds over an unordered map and one sort each select a group of peers maximal in (score, peers).
  The choice is independent of the iteration order if and only if the maximum is unique; then `LCB`, `Fork` and `Forks`
  agree. The reported length is the number of blocks the main chain does not have. A leashed block above a main head
  exists only if all blocks in between have base target zero; with positive targets there is none.
- *Loading.* Transition table, nested triggers and the receive queue implement `Loading.Handle`. For every order of
  arrival, with duplicates, foreign blocks, ticks, stray lists of IDs and concurrent puts, a batch completes exactly
  when all its blocks have arrived, and reports once. Over every run, requests and reports match exactly if no timeout
  on the way held blocks that could not be put. Over all sequences of loads the counters stay in range, and it is
  exact when a first batch leads to another one and which gap is remembered. A load is begun exactly for a peer that
  announces more than the score of its leash, and ends with the batch that makes up for it.
- *What an answer means.* The score of a block, the time-out, the outcome of a put, the fields of a report and the bytes
  of a key are stated in plain numbers and sets, apart from the functions that compute them. The leash of a peer is the
  block it has shown last, and what is stored is what was put, over every run.

**Where the code does less than one might expect** (the model follows the code):

- A timeout whose received prefix is not connected to a stored block is never reported
  (`TimeoutReportedIffConnected` has the exact condition, `OrphanIsNotReported` the shortest such run): the peer loader
  then stays in `Done`, where no event moves it, and `Loader.Sync` starts nothing else while it is there.
- The receive queue is not emptied between batches, so a timeout while waiting for the next list of IDs applies the
  previous batch again and moves the leash back to its last block (`LateTimeoutRun`), unless it is there already.
- A list that names an ID twice never completes: the second position is never filled (`ReadyExactly`).
- A failed load leaves its last gap behind. When the next load, of whatever peer, has the same gap after its first
  batch, it ends although its peer still lags (`LeftoverGapEndsLoad`; `FirstBatch` and `RememberedGap` say exactly
  when).
- When the registry's database cannot be read after a finished batch, the load is left in `Idle` (`Loader.OK`,
  `Unreadable`), and again `Sync` starts nothing else (`LeftIdle`).
- A key-block with base target zero adds no score, so the main head can have a leashed descendant of equal score
  (`MainHeadWithLeashedDescendant` is such a store, `NotAboveAncestor` and `MainOnOneChain` say exactly when).
- README.md:18 has all forks compared to the main chain. When peers are named, `Forks` compares their chains to the
  best chain among those peers; `NamedPeersMain` says exactly when that is the main chain of all peers, and
  `NamedPeersDiffer` has a store where it is not.
- `Fork` returns an empty report marked as longest while no peer is leashed. (`LCB` answers "not found" in a sound
  state only if the one leash is that of the all-ones IPv6 address, which the scan leaves out (`LcbMeaning`); the
  registry admits IPv4 peers only, peers/registry.go:70-73.)

## Model

| member | source | states |
|---|---|---|
| Storage.Storage.Lca | chains/storage.go:324-373 | for any two IDs: not found if one is not stored; otherwise the last common block of the plain walk exactly when the jumps stay within the tables, a panic exactly when they do not |
| Storage.Storage.LiftBoth | chains/storage.go:354-367 | the search over both links ends at the common ancestor of the two level blocks, or panics, if and only if `JumpsInBounds` says so |
| Storage.Storage.FastBackwardFarthest | chains/storage.go:375-392 | returns the link of the one ancestor at the other link's height; indices stay valid, the subtraction never wraps, the index decreases through the clamp |
| Storage.LiftStep | chains/storage.go:356-367 | one loop iteration: the entry is missing exactly when the search is out of bounds, and otherwise the loop invariant carries over to the next index |
| Storage.LcaAnswerSymmetric | chains/storage.go:341-349 | swapping the arguments changes neither the answer nor whether there is one |
| CommonAncestor.LcaIsDeepestCommonAncestor | chains/storage.go:324-373 | the two-finger walk finds a common ancestor, and every common ancestor is an ancestor-or-self of it |
| CommonAncestor.DeepestIsUnique | chains/storage.go:324-373 | any block with these two properties is the result of the walk |
| CommonAncestor.LcaSymmetric | chains/storage.go:341-349 | the walk is symmetric |
| CommonAncestor.MeetExactly | chains/storage.go:354-357 | two level blocks share their j-th ancestor exactly when j steps reach their last common block |
| CommonAncestor.FirstFailingBranch | chains/storage.go:356-367 | the least failing branch above height A: with 2^m the least power of two above A, all branches of up to 2^(m + 1) blocks are in bounds and one of 2^(m + 1) + 1 is not |
| CommonAncestor.ShortBranchInBounds | chains/storage.go:356-367 | lower branches of at most 2A + 2 blocks are always safe |
| CommonAncestor.ShortBranchSharp | chains/storage.go:356-367 | whenever A + 1 is a power of two, 2A + 3 blocks are not |
| CommonAncestor.LongBranchOutOfBounds | chains/storage.go:356-367 | above every height A some branch length violates the condition |
| ForkShapes.EveryForkOccurs | chains/storage.go:324-373 | for every height A of the common ancestor, every branch length k and any different IDs a run of puts from genesis ends in a store with two such branches, and there `lca` of the two heads panics exactly if `JumpsInBounds(A, k)` fails |
| ForkShapes.LongBranchPanics | chains/storage.go:356-367 | above height A there is a reachable store with a branch on which `lca` panics, as long as its heights fit 32 bits |
| ForkShapes.FailsAboveIff | chains/storage.go:356-367 | a pair of blocks above a common block of height A can fail in some store exactly if A + 2^(m + 1) + 1 fits 32 bits, 2^m being the least power of two above A |
| ForkShapes.HeightSixPanics | chains/storage.go:324-373 | in a reachable store of eleven blocks, two branches that fork at genesis and reach height 6, `lca` of the heads panics |
| ForkShapes.BelowHeightSixSucceeds | chains/storage.go:324-373 | in every store, a pair whose lower block is below height 6 gets its last common block: height 6 is the smallest |
| Ledger.RunKeepsLca | chains/storage.go:324-373 | whatever is stored later, two blocks keep their heights and their last common block |
| Storage.Storage.Initialize | chains/storage.go:54-99 | the first start stores genesis as the only block, head and root; later starts change nothing; a genesis that cannot be scored panics before anything is written |
| Storage.Storage.PutProtoBlock | chains/storage.go:130-177 | the store represents the tree with one more block on its parent, or is unchanged; accepted exactly if the parent is stored, the base target can be scored and the height fits 32 bits; what is written is the batch that the tree and the snapshot determine |
| Storage.Storage.PutMicroBlock | chains/storage.go:179-234 | the store represents the tree with a sibling of the referenced block placed on it, or is unchanged; rejected exactly if the reference is unknown or genesis; what is written is the batch that the tree and the snapshot determine |
| Storage.Storage.PutNewLinkForBlock | chains/storage.go:508-535 | adds to the batch the exact jump table of the new block, one ancestor per power of two below its height; height zero (32-bit overflow) panics |
| Storage.NextParent | chains/storage.go:519-528 | the guard of the loop holds precisely when the 2^(l+1)-th ancestor exists, and then leads to it |
| Storage.Storage.PutHead | chains/storage.go:618-631 | adds the writes for the head to the batch; performed, they make the head maps those of the head list after the placement and change nothing else |
| Database.TakeOverHead | chains/storage.go:627-630 | re-pointing a head keeps the two head maps inverse and gap-free |
| Database.RecordAndLinkAgree | chains/storage.go:151-171 | in every represented store, record and link of a block agree on height and ID, the parent ID's number is the first jump entry and smaller, genesis is the only root |
| Database.IdsAreNumbers | chains/storage.go:151-164 | the numbers in use are 1 to the block counter, and IDs and numbers are mapped one to one: each ID to the number of its record, each record's ID back to its number |
| Database.HeadsPointAtTips | chains/storage.go:618-644 | head numbers are 1 to the head counter, the maps are mutually inverse, the head blocks are exactly those on which nothing was placed |
| Heads.HeadsAreTips | chains/storage.go:173-175 | the incrementally kept head list holds every tip exactly once and nothing else |
| Database.BlockRepresented | chains/storage.go:147-176 | the batch of one insertion turns a representation of a tree into one of the tree with the new block |
| BlockTree.MicroNodeWellFormed | chains/storage.go:211-218 | a micro-block is at the height of the block it references, and the tree stays well formed |
| BlockTree.OnlyRoot | chains/storage.go:82-90 | genesis is the ancestor of height 1 of every block and the only block of that height |
| Storage.Storage.GetAncestors | chains/storage.go:236-266 | min(count, height) IDs, the j-th being the j-th ancestor's; a negative count panics |
| Storage.Storage.GetBlocks | chains/storage.go:268-322 | min(count, height) records, the j-th being the j-th ancestor's |
| Storage.WalksAgree | chains/storage.go:253-264 | both walks find the same blocks although they stop on different conditions |
| Storage.Storage.AllLeashes | chains/storage.go:412-436 | lists every leash exactly once, except that of the all-ones address |
| Storage.Storage.AllHeads | chains/storage.go:438-464 | head i comes at position i - 1 with the ID of its block |
| Scores.ScoreBounds | chains/utils.go:10-33 | with positive base targets 2h <= score <= h * 2^64 |
| Scores.DescendantScore | chains/utils.go:27-33 | a descendant's score is at least its ancestor's, and equal exactly when all blocks in between have base target zero |
| Scores.ScoreIsQuotient | chains/utils.go:10-25 | the score of a block is 2^64 divided by its base target, rounded down |
| Scores.LowerTargetScoresMore | chains/utils.go:10-25 | a smaller base target never scores less |
| Scores.HalfTargetScoresDouble | chains/utils.go:10-25 | half the base target scores at least twice as much |
| Scores.BlockAddsQuotient | chains/utils.go:27-33 | a block adds just that quotient to the score of its parent, nothing for base target zero; genesis starts from nothing |
| Scores.LowerTargetLeads | chains/utils.go:27-33 | of two blocks on one parent the one with the lower base target makes the chain that scores at least as high |
| Forks.HalfTargetOutranks | chains/linkage.go:304-319 | of two forks on one block the one with at most half the base target is ranked above the other, however many peers are on either |
| Ledger.ApplyKeepsSound | chains/linkage.go:72-130 | every call keeps well-formedness and all leashes on stored blocks, except exactly a `MoveLeash` to an unknown block |
| Ledger.RunKeepsSound | chains/linkage.go:217-222 | so over every run in which leashes are moved to stored blocks only |
| Ledger.RunOnlyAppends | chains/linkage.go:72-130 | no run removes or renumbers a block |
| Ledger.PutBlockExactly | chains/linkage.go:72-100 | exactly which key-blocks are accepted, in numbers, and which error the others get |
| Ledger.PutMicroBlockExactly | chains/linkage.go:102-130 | the same for micro-blocks |
| Ledger.StoredExactly | chains/linkage.go:72-130 | after any run exactly those blocks are stored that were stored before or put by an accepted call |
| Ledger.LeashIsLastShown | README.md:22 | after any run the leash of a peer is the block of the last accepted call from that peer, or its leash before |
| Journal.RunBatchHolds | chains/linkage.go:72-130 | over any run of calls the database, changed by nothing but the batches of the calls, represents the tree and holds the leashes |
| Ledger.EveryTreeIsReachable | chains/linkage.go:72-130 | every well-formed tree, with key-blocks and micro-blocks in any mixture, is the tree of a run of puts from its genesis block |
| Ledger.AskedMovesAreSafe | loading/peer_loader.go:186-203 | in every interleaving of single calls, moving leashes only to blocks that some earlier `HasBlock` found keeps every leash on a stored block |
| Ledger.MoveAfterRunIsSafe | loading/peer_loader.go:186-203 | a leash may be moved to a block that was there before any careful run of other calls |
| Linkage.Linkage.PutBlock | chains/linkage.go:72-100 | outcome and new state for known, orphan, rejected and new blocks; the two database writes leave a valid store each |
| Linkage.Linkage.PutMicroBlock | chains/linkage.go:102-130 | the same for micro-blocks and their reference |
| Linkage.Linkage.MoveLeash | chains/linkage.go:217-222 | moves one leash without any check |
| Linkage.Linkage.LeashScore | chains/linkage.go:163-178 | the cumulative score of the leash, of genesis for an unleashed peer |
| Linkage.Linkage.ActiveHeads | chains/linkage.go:430-450 | exactly the heads some scanned leash points at, in ascending order of their numbers |
| Linkage.Linkage.LCB | chains/linkage.go:280-328 | genesis for an unleashed peer; otherwise the answer of `lca` for the peer's head and a main chain of the scanned leashes |
| Linkage.LcbMeaning | chains/linkage.go:280-328 | in a sound state: genesis exactly for an unleashed peer, "not found" exactly when the scan is empty, otherwise the deepest block shared with a main chain or a panic |
| Linkage.Linkage.ForkOf | chains/linkage.go:339-404 | the report of the peer's chain relative to a main chain, with the error cases |
| Linkage.Linkage.ForksOf | chains/linkage.go:493-544 | one report per chain of the named peers, relative to the same main chain, best first; panics exactly when there is no leash or some `lca` panics |
| Linkage.AnswersAgree | chains/linkage.go:280-404 | when no two groups tie, the three queries name the same last common block and length for every peer |
| Linkage.ForksAnswersAtAll | chains/linkage.go:493-544 | in a sound state `Forks` has at least one report or panics, and panics when no named peer is leashed |
| Linkage.MissingLeash | chains/linkage.go:280-404 | with a scanned leash on a missing block all three queries answer "not found" |
| Selection.ChoiceIsMaximal | chains/linkage.go:299-319 | whatever the iteration order, the fold selects a group maximal in (score, peers) |
| Selection.EveryMaximumCanBeChosen | chains/linkage.go:299-319 | each maximal group is selected under some iteration order |
| Selection.IndependentIffUnique | chains/linkage.go:359-379 | the selection is independent of the iteration order if and only if the maximum is unique |
| Selection.FirstOfSortedIsMaximal | chains/entities.go:63-69 | the first element after sorting is a maximal group |
| Forks.ForkLengthMeaning | chains/linkage.go:394-401 | the length is the number of blocks of the chain that are not on the main chain; zero exactly if the head is on the main chain, exactly if the last common block is the head |
| Forks.ReportMeaning | README.md:16-22 | the same for the fields of a report, and length 0 for the main chain |
| Forks.ReportFields | README.md:14-22 | height, generator, score, peers and last common block of a report, in terms of sets of blocks and leashes: the height counts the blocks of the chain, the last common block is the deepest that both chains have |
| Forks.NotAboveAncestor | chains/linkage.go:304-319 | a descendant is not ranked above its leashed ancestor exactly if all blocks in between have base target zero and it has no more peers |
| Forks.MainHeadIsTop | chains/linkage.go:304-319 | so a leashed descendant of a main head adds only blocks of base target zero and has no more peers |
| Forks.MainOnOneChain | chains/linkage.go:304-319 | a leashed block that all leashes are on top of is a main head exactly under that condition for each of them |
| Forks.PositiveMainHeadIsTop | chains/linkage.go:304-319 | a leashed block of positive base target is on top of a main head exactly if it is that head |
| ForkShapes.MainHeadWithLeashedDescendant | chains/linkage.go:304-319 | three puts after genesis lead to a store whose main head has a leashed child |
| ForkShapes.NamedPeersDiffer | chains/linkage.go:497-505 | in that store the report about the third peer alone takes another chain for the main one |
| Forks.NamedPeersMain | chains/linkage.go:497-505 | a main head of all peers is one among the named peers exactly if a named peer is on it and no chain of equal score has more named peers |
| Linkage.Linkage.ForkGenerators | chains/linkage.go:408-428 | one entry per generator of the last min(count, height) blocks, in descending order, the counts adding up to their number |
| Generators.CountsAddUp | chains/linkage.go:417-424 | entries that count every generator once sum to the number of blocks |
| Generators.CountIsCardinality | chains/linkage.go:417-424 | a count is the number of positions at which the generator stands |
| LoaderQueue.Queue.Put | loading/queue.go:26-36 | a block is kept at the first position that asked for it, in place; other blocks are dropped |
| LoaderQueue.PutItemExactly | loading/queue.go:26-36 | position by position: the block goes to the first position that asked for it, also over an earlier one, and nothing else changes |
| LoaderQueue.Queue.Ready | loading/queue.go:38-45 | true exactly if every position holds the block it asked for |
| LoaderQueue.Queue.LastReceived | loading/queue.go:67-79 | the last block of the longest received prefix |
| LoaderQueue.ReadyExactly | loading/queue.go:18-45 | for every sequence of arrivals the queue is ready exactly if all requested blocks are among them and no ID was requested twice |
| PeerLoader.PeerLoader.Fire | loading/peer_loader.go:100-138 | one event with all triggers fired on the way has the effect `Handle` gives it, which `LoadEvents` pins by the clock and the queue; no trigger is left waiting; starts send the IDs of the leash or of the last common block |
| PeerLoader.PeerLoader.RequestBlocks | loading/peer_loader.go:180-217 | the leash follows the longest stored prefix, the rest becomes the queue and is asked for, nothing left means ready |
| PeerLoader.PeerLoader.AppendBlock | loading/peer_loader.go:219-237 | an incomplete queue only collects; a full one is put in request order, up to the first rejected block |
| PeerLoader.PeerLoader.HandleFailure | loading/peer_loader.go:239-252 | the received prefix is put in order; failure is counted exactly if all puts succeed |
| PeerLoader.NeverUnconfigured | loading/peer_loader.go:52-98 | no event leads to a trigger without a rule, although `Done` has none for a full queue |
| PeerLoader.AskedIDs | loading/peer_loader.go:152-178 | the IDs sent along: at most 100, the given block first, then always the parent, and fewer only if genesis is reached |
| LoadEvents.TickAfterThirtySeconds | loading/peer_loader.go:140-150 | while waiting a tick changes nothing up to 30 seconds after the last request, and ends the load after that |
| LoadEvents.RequestsSetTheClock | loading/peer_loader.go:152-217 | which events set the time of the last request, and to what |
| LoadEvents.UnexpectedIsIgnored | loading/peer_loader.go:52-98 | the events each state waits for; every other leaves the whole load as it is, these move it to another state |
| LoadEvents.GapKeepsWaiting | loading/peer_loader.go:219-226 | an arrival that leaves a gap only fills the queue |
| LoadEvents.OwnLeashOnly | loading/peer_loader.go:180-252 | which events can change the linkage; no leash but the peer's own is moved |
| LoadEvents.OKExactlyWhen | loading/peer_loader.go:180-237 | OK is reported exactly for a list of IDs that are all stored, or for the arrival that completes a connected queue |
| LoadEvents.OKMeansStored | loading/peer_loader.go:180-237 | and then every listed ID, or the ID at every position of the queue, is stored |
| LoadEvents.FailExactlyWhen | loading/peer_loader.go:239-252 | failure is reported exactly when a late tick finds the received blocks connected |
| LoadEvents.OneOKPerBatch | loading/peer_loader.go:180-237 | over every run OK is reported once for each batch so finished, and never else |
| LoadEvents.JustWaits | loading/peer_loader.go:140-150 | over every run in which nothing comes that the load waits for and no tick is late, nothing about it changes |
| LoadEvents.RequestWaits | loading/peer_loader.go:64-75 | from a request on: broadcast blocks, ticks within 30 seconds and other calls leave the load waiting for the list of IDs, without a report |
| LoadEvents.RequestTimesOut | loading/peer_loader.go:140-150 | and the first tick after that ends it |
| Loading.IDsMoveLeashAndRequestRest | loading/peer_loader.go:180-217 | the leash ends on the last ID of the longest stored prefix, exactly the rest is requested, an empty rest reports OK |
| Loading.TimeoutAppliesPrefix | loading/peer_loader.go:239-252 | on success exactly the received prefix is stored in addition and the leash is on its last block; blocks after a gap are dropped |
| Loading.PutAllSucceedsIffConnected | loading/peer_loader.go:227-232 | putting a list succeeds exactly if every block is known or can be scored and has a parent that is stored or earlier in the list, below the greatest height; in every store, of any size |
| Loading.TimeoutReportedIffConnected | loading/peer_loader.go:239-252 | the exact condition under which a timeout is reported |
| LoadRuns.OrphanIsNotReported | loading/peer_loader.go:239-252 | a run: a fresh load, one announced ID, its block with an unknown parent, a timeout; it ends in `Done` with one request, no report and nothing stored |
| Loading.LateTimeoutMovesLeashBack | loading/peer_loader.go:239-252 | a timeout in a later round adds no block and sets the leash to the last block of the previous batch; nothing changes exactly if there is none or the leash is there already |
| LoadRuns.LateTimeoutRun | loading/peer_loader.go:239-252 | a run: a batch completes, the next list of IDs is asked for, anything happens on the linkage, the timeout comes; one OK, one Fail, no block stored, the leash back on the last block of the batch |
| LoadRuns.StepBalance | loading/peer_loader.go:52-98 | one step keeps requests and reports matched exactly if it is not a timeout whose blocks are not connected |
| LoadRuns.ReportsBalance | loading/peer_loader.go:52-98 | over all event sequences and any other calls, requests for IDs equal OK reports plus Fail reports plus one while waiting, exactly if they did before and no step of the run was such a timeout |
| LoadRuns.PassingRunBalances | loading/peer_loader.go:52-98 | in particular after every run in which each event is handled without an error |
| LoadRuns.DoneIsAbsorbing | loading/peer_loader.go:89-98 | no sequence of events changes a load that is in `Done` |
| LoadRuns.LeashesStaySafe | loading/peer_loader.go:186-203 | over all mixtures of whole loader steps and careful linkage calls every leash stays on a stored block |
| LoadRuns.LoadOutcome | loading/peer_loader.go:219-237 | for every order of arrival, with unexpired ticks, stray lists of IDs and any other puts in between: OK is reported exactly once, at the first arrival at which the queue is full and connected to what is stored, and never without one; at that moment exactly the requested blocks are added and the leash is on the last, and they stay stored |
| LoadRuns.ChainCompletes | loading/peer_loader.go:219-237 | for a chain on top of a stored block, delivered under its own IDs, that moment is the arrival of the last missing block |
| LoadRuns.LoadCompletes | loading/peer_loader.go:219-237 | so such a load reports OK once, when all requested blocks have arrived in whatever order, and only collects before |
| Loading.RoomMeansHeightsFit | loading/peer_loader.go:227-232 | in a store with room for the list below 2^32 blocks no height overflows |
| LoadRuns.ConnectedArrival | loading/peer_loader.go:219-237 | whatever blocks fill the queue: the arrival that completes it stores exactly the requested ones, leashes the peer to the last and reports OK if and only if they are connected to what is stored |
| LoadRuns.CompletingArrival | distributor.go:204-215 | the completing arrival adds exactly the requested blocks, although the distributor may have put any of them before, if and only if their heights fit 32 bits |
| Loader.Loader.Sync | loading/loader.go:185-231 | a load begins exactly if some connection announces more than the score of the peer's leash, for such a peer, from its leash or after ten failures from the last common block; nothing changes while a load is in progress |
| Loader.Loader.OK | loading/loader.go:127-150 | the whole state after the report of a batch: the counter is zero; the load goes on exactly if the peer still lags and the gap has changed, which is then remembered; an unreadable registry leaves it as it is, a record without a score panics |
| Loader.Loader.Fail | loading/loader.go:152-158 | counts one failure and ends the load; the remembered gap stays |
| Loader.Loader.Deliver | loading/loader.go:258-283 | the whole state after an event: the load as the peer loader's step leaves it or as it goes on after a report, the counters and the remembered gap |
| Sessions.CountersStayInRange | loading/loader.go:47-70 | over all runs of loads, successes and failures counters stay in 0..10, below 10 for the peer being loaded |
| Sessions.CountersOverRuns | loading/loader.go:185-283 | the same over all sequences of loads, events and calls of other components, which refine such runs |
| Sessions.FirstBatch | loading/loader.go:285-292 | the first batch of a load leads to another one exactly if the peer still lags and its gap is not the one remembered from before the load |
| Sessions.LeashedBatch | loading/loader.go:127-150 | in scores: a finished batch ends the load if the announced score is not above that of the block the peer is leashed to, whatever is remembered; otherwise it goes on, unless just this difference is remembered |
| Sessions.UnleashedBatch | loading/loader.go:127-150 | the same against genesis for an unleashed peer |
| CatchingUp.LoadEndsCaughtUp | loading/loader.go:127-150 | a run: a load collects its blocks in any order; with the last of them all are stored, the leash is on the last requested one, and the load is over if the announced score is not above the score of that block |
| Sessions.LaggingExactly | loading/loader.go:202-217 | a connection lags exactly if its announced score is above that of the peer's leash, or of genesis |
| Sessions.SyncExactly | loading/loader.go:185-231 | a load begins exactly if some connection is not up to date, and then for such a one |
| Sessions.AnyoneCanBeChosen | loading/loader.go:223-225 | every connection that is not up to date can be the one chosen |
| Sessions.CaughtUpStaysIdle | loading/loader.go:185-231 | after a load has ended because its peer had caught up, a sync over that connection changes nothing |
| Sessions.WithoutAScore | loading/loader.go:130-140 | an unreadable registry leaves the load in place, a record without a score panics |
| Sessions.LeftIdle | loading/loader.go:130-134 | and then no sync and nothing the peer sends moves it any more |
| Sessions.RememberedGap | loading/loader.go:127-158 | over all sequences, a gap is remembered exactly if the last batch reported, of whatever peer, had it and led to another one |
| Sessions.LeftoverGapEndsLoad | loading/loader.go:127-158 | two peers announce the same score; the load of the first goes on and fails, and then that of the second ends after one batch although it lags, which it would not have done alone |
| Sessions.SessionsStaySound | loading/loader.go:185-283 | over all sequences of loads and careful calls of other components every leash stays on a stored block |
| Sessions.EveryTenFailuresRestart | loading/loader.go:225-230 | after n failures in a row the next load restarts exactly if n is a positive multiple of ten |
| Sessions.SuccessForgets | loading/loader.go:72-77 | a success starts the count of its peer over, a failure adds one, and other counts stay |
| Sessions.TenFailuresAfterSuccess | loading/loader.go:225-230 | after a finished load the next restart comes after a positive multiple of ten failures in a row |
| Keys.KeysInjective | chains/storage_entities.go:13-42 | keys of all families are different, even where ID keys and number keys share a prefix |
| Keys.KeyLayout | chains/storage.go:27-38 | the first byte of every family of keys and what follows it |
| Keys.EightBytes | chains/storage_entities.go:21-26 | numbers are written in eight bytes, the highest first |
| Keys.NumKeyRoundTrip | chains/storage_entities.go:21-33 | a 64-bit number key is read back as written |
| Keys.AddrKeyRoundTrip | chains/storage_entities.go:35-56 | an address key is read back as written |
| ByteStore.BatchRefines | chains/storage.go:147-176 | a batch on the byte-keyed store refines the record-wise update |
| Batches.BatchStoresBlock | chains/storage.go:147-176 | the individual writes of an insertion, performed in order, produce what the representation needs |
| ByteStore.InsertionRefines | chains/storage.go:147-176 | all writes of an insertion are valid, and after them the byte store encodes a representation of the grown tree |
| ByteStore.RunRefines | chains/storage.go:147-176 | over any run of calls with proper IDs and addresses the byte store, written key by key, goes on to hold the state of the linkage, as long as block numbers have 64 bits |
| ByteStore.StoreFromScratch | chains/storage.go:54-99 | from the empty database: after the first start and any such run the byte store holds the tree and the leashes, and no other keys |
| Keys.NumKeyOrder | chains/storage_entities.go:21-26 | the byte order of number keys is the numeric order |
| Keys.LeashScan | chains/storage.go:420-427 | the leash range contains exactly the leash keys, except that of the all-ones IPv6 address |
| ByteStore.LeashScanListsLeashes | chains/storage.go:412-436 | whatever keys the leash scan delivers, they and their values are the leashes, each once, except that of the all-ones address: what `AllLeashes` lists |
| ByteStore.HeadScanAscends | chains/storage.go:664-682 | whatever keys the head scan delivers, in byte order, are those of the heads 1, 2, ... in this order and nothing else, each with the number of its block |

## Left out

- LevelDB, snapshots and CBOR: a snapshot is a value, a batch takes effect at once; input/output and decoding errors do not occur.
- Block decoding, signatures, address derivation and timestamps: IDs and generators are opaque values. `NewBlockIDFromBytes` is taken to reject an empty byte string, which is why a micro-block on genesis is rejected.
- 64-bit counters are unbounded; the 32-bit height is modelled with its overflow, `ceil(Log2(h))` as an integer logarithm.
- `Storage.Storage.GetBlock` and `GetLink` are partial functions: their not-found errors are proved unreachable.
- Zones of IPv6 addresses: keys drop them, the model has none.
- Sorting.SortDesc: stands for `sort.Sort`; callers use only that the result is a sorted rearrangement, so the order of equal elements stays open.
- Storage.Storage.AllHeads: goes through the head numbers in ascending order; that the iterator delivers them so is `ByteStore.HeadScanAscends`.
- The `stateless` library is modelled as a queue of triggers that runs each one after the current transition; the state is set before the entry action. The library is not part of this model.
- `Loader.OK` and `Fail` run right after the trigger queue is empty instead of inside the last action; no trigger is waiting at that point.
- After a panic (`Failure(Panic)`) the real process is gone; the model only says that nothing was written.
- LoadRuns.LeashesStaySafe: an event of the loader that makes several locked calls (`HasBlock`, `Leash`, `MoveLeash`; several `PutBlock`) is one step, while other goroutines may call in between; `Ledger.AskedMovesAreSafe` covers the leashes call by call.
- LoadRuns.LoadCompletes: takes an ID to determine its block (`Genuine`), as digests and signatures do; `LoadRuns.LoadOutcome` does without. Both speak of one load: the run ends before it is started anew.
- The peer registry, random choice, clocks and channels: connections, the registry's answers (`Unreadable` is an error of its database), the pick and the time are parameters.
- `Linkage.Stats` and its threshold, logging, string forms, `PeersCount` (the length of `peers`) and the time fields of reports.
- Networking, HTTP API and configuration.
