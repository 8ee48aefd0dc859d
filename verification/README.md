# Verification of the Kovanica consensus engine

A Dafny model of the GHOSTDAG block DAG in `crates/kovanica-dag` and of six
independent algorithms of the node, each proved against what it is for.

The core is one state machine. A block graph is given by parent edges, and the
only primitive relation is their transitive closure, `BlockGraph.Past`.
Everything the engine caches about that relation is shown to agree with it
after every insert:

- `IntervalTree`, `Relayout`, `Reachability`, `OracleBuild`, `CoverOrder`: the
  ancestry oracle. Interval labels on the selected-parent tree, proportional
  relayout with an explicit stack, reindexing, covering sets and their order,
  and the construction from scratch. Machine arithmetic is 64-bit and shown never to wrap while the block
  count is below the root capacity.
- `TopoOrder`, `MergesetWalk`, `Ghostdag`, `KCluster`, `Ordering`: mergesets,
  the k-cluster colouring and the total order, as a local equation with exactly
  one solution per graph.
- `Consensus`, `Runs`, `Enforcement`: the state machine over blocks, whole runs
  of inserts, the enforced difficulty and proof-of-work policies, and payload
  pruning.
- `Laws`, `OrderLaws`, `StoreLaws`: the rules again in plain terms, without a word on
  how anything is computed. What the state machine computes follows them, and
  they leave no choice: selection, mergesets, colouring and data; the chain and
  the total order; refusals, growth, targets and evicted payloads.
- `Dag`: the block store as a class. Its methods update fields in place, ask
  the oracle for every ancestry question, and are proved to compute what the
  state machine says. The mergeset walk trusts the oracle before an insert, and
  the oracle update trusts the mergeset: the two proofs meet in `Dag.Dag.Insert`.
- `Blocks`, `BlockCodec`, `CodecLaws`, `Snapshot`, `SnapshotStore`: blocks as bytes,
  byte by byte, the cursor that reads them, and the replay log that restores a DAG.

Beside it stand `ProofOfWork` (256 by 128 bit limb multiplication),
`Difficulty` (saturating retarget), `HeaderSort` and `HeaderOrder` (Kahn's sort of
headers, and when its output is determined),
`MempoolIndex`, `Mempool` and `MempoolPolicy` (pools, orphan index and byte
counter under eviction and replacement, and who wins), `XorMetric`,
`RoutingTable` and `NodeLookup` (Kademlia), `RateLimit` (fixed windows, sliding
bound) and `CoinSelection`.
`Words`, `Wrappers`, `ByteOrder` and `SortedIds` hold what several of them use.

Ids are 32 bytes read as one big-endian number, so byte order is number order.
Hash maps and hash sets are iterated in an arbitrary order, so what is proved
holds for every order. Hashing, curve points and fee rates are parameters;
clocks and peers' answers are arguments.

Where code and comments of the source part, the model follows the code:

- Covering sets stay minimal, but not sorted by interval start. Each insertion
  keeps a sorted list sorted; a relayout need not (`CoverOrder.ReindexUnsorts`),
  since it orders branches by id and not by arrival. A sorted list survives it
  if and only if its entries inside the subtree are in the order of their
  branches: `CoverOrder.SortedSurvivesIff`. Exactness does not depend on it.
- `topo_sort_headers` is to break ties on the id, but its child lists follow
  hash-map order (`HeaderOrder.TiesFollowTheMap`). The output is determined if
  and only if no emission makes two headers ready at once:
  `HeaderOrder.DeterminedIff`.
- `ensure_capacity` is meant to evict until there is room, but gives up when
  the last transaction goes, even if the newcomer would now fit
  (`MempoolPolicy.FitsAloneYetRefused`). Who gets in: `MempoolPolicy.RoomDecides`.
  Among equal rates hash-map order decides, either way
  (`MempoolPolicy.TieGoesEitherWay`); which answers are possible:
  `MempoolPolicy.AnswersIff`. So the operations are not all deterministic; this
  one is if and only if `MempoolPolicy.OneOutcomeIff` says so.
- `evict_oldest_orphan` drops whichever orphan the map yields
  (`MempoolPolicy.AnyOrphanMayGo`), and `orphan_max_age_blocks` has no effect: by
  the contract of `Mempool.Mempool.OnNewBlock` an incomplete orphan stays at any
  height.
- `on_new_block` promotes orphans past the documented maximum of the pending
  pool (`MempoolPolicy.PromotionOverfills`); when it does not:
  `MempoolPolicy.PromotionKeepsLimitsIff`.
- `replace_by_fee` prices one conflicting transaction, whichever it finds,
  removes the others whatever they pay (`MempoolPolicy.EqualRatePushesOutDearer`)
  and then evicts for room (`MempoolPolicy.RoomPushesOutDearer`). It pushes out
  only what it outbids if and only if it outbids no conflict, or all conflicts
  and everything that can be evicted after them:
  `MempoolPolicy.PushesOutOnlyOutbidIff`. The price itself is to be strictly
  higher; when it is: `MempoolPolicy.TargetIsOutbidStrictlyIff`.
- The snapshot format lets a block carry a VRF proof without its output. The
  reader fails an unwrap on such a block when it also has a payload
  (`BlockCodec.KeyOnlyBlockPanics`); on which bytes exactly, in
  `BlockCodec.ReaderPanicsIff` and `Snapshot.SnapshotPanicsIff`.
- Coin selection adds with saturation, so change can be lost
  (`CoinSelection.OverflowLosesChange`). Inputs pay amount, fee and change
  exactly if and only if the shortest covering front of the ranked coins sums to
  a machine word: `CoinSelection.PaysExactlyIff`.

## Model

| member | source | states |
|---|---|---|
| BlockGraph.PastIsPastOfParents | crates/kovanica-dag/src/dag.rs:758-767 | ancestry is the transitive closure of the parent edges: the past of a block is its parents and their pasts |
| BlockGraph.GrowthKeepsWellFormed | crates/kovanica-dag/src/dag.rs:1099-1216 | adding a childless block keeps the graph acyclic, rooted in genesis and closed under parents, and changes no existing past |
| IntervalTree.DescendantInside | crates/kovanica-dag/src/reachability.rs:230-259 | in a laid-out tree every descendant interval lies inside its ancestor, at a higher label |
| IntervalTree.UnrelatedApart | crates/kovanica-dag/src/reachability.rs:230-259 | unrelated subtrees hold disjoint intervals |
| IntervalTree.LabelsDecideSubtree | crates/kovanica-dag/src/reachability.rs:442-447 | the containment test on labels is true exactly for tree ancestor-or-self |
| Relayout.ShareFits | crates/kovanica-dag/src/reachability.rs:359-398 | the proportional shares, each rounded down, never exceed the slack together |
| Relayout.SliceChildren | crates/kovanica-dag/src/reachability.rs:359-398 | the slices of the children always fit the region, come in order without a gap, and each is as wide as the child subtree is large plus its proportional share of the slack, rounded down, at most 2^40 unless the subtree alone is larger |
| Relayout.SpanOf | crates/kovanica-dag/src/reachability.rs:377-389 | one slice: the subtree size and its rounded-down share of the slack by 128-bit arithmetic, capped |
| Relayout.RelayoutStep | crates/kovanica-dag/src/reachability.rs:359-398 | one turn of the stack loop keeps: planned nodes are exactly done or pending, and every done node is laid out |
| Relayout.AllDone | crates/kovanica-dag/src/reachability.rs:359-398 | when the stack is empty every node of the subtree was laid out inside the given region |
| Reachability.LeafKeepsExact | crates/kovanica-dag/src/reachability.rs:216-266 | adding a leaf whose label joins the cover of every merged block keeps tree ancestry plus covers equal to the past of every block |
| Reachability.LeafKeepsLean | crates/kovanica-dag/src/reachability.rs:403-430 | covers stay minimal: when a new leaf joins the covers of the blocks it merges, no cover comes to lie under its block or under another cover |
| Reachability.DropCovered | crates/kovanica-dag/src/reachability.rs:403-430 | dropping a covering entry inside the new one loses nothing the new one does not reach |
| Reachability.RelabelledIsLaidOut | crates/kovanica-dag/src/reachability.rs:334-398 | relabelling one subtree inside its own interval repairs the layout of the whole tree |
| Reachability.CarvedLeafIsLaidOut | crates/kovanica-dag/src/reachability.rs:230-252 | a leaf carved from its parent's free space keeps the layout |
| Reachability.ParkedLeafIsLaidOutOff | crates/kovanica-dag/src/reachability.rs:252-259 | a leaf parked beyond an exhausted parent disturbs only the subtree of that parent |
| Reachability.Reachability.RelayoutSubtree | crates/kovanica-dag/src/reachability.rs:359-398 | every node of the subtree is laid out inside the given bounds with its children in id order, one after the other from its own label on, each with exactly its fair span, and the free space after the last; every label outside the subtree is untouched |
| Reachability.Reachability.Reindex | crates/kovanica-dag/src/reachability.rs:334-352 | the climb ends at the lowest ancestor whose interval is at least twice its subtree, or at the root; that subtree shares its interval anew, the whole tree is laid out again, and no label outside it has moved |
| CoverOrder.BranchesDecide | crates/kovanica-dag/src/reachability.rs:359-398 | after a relayout two blocks of the subtree are in the order of the ids of the branches they lie on |
| CoverOrder.RelaidSortedIff | crates/kovanica-dag/src/reachability.rs:403-405 | after a relayout a minimal covering list is sorted by interval start if and only if its entries inside the subtree are in the order of their branches and every other pair was in order before |
| CoverOrder.SortedSurvivesIff | crates/kovanica-dag/src/reachability.rs:117-119 | so a sorted list stays sorted through a relayout if and only if its entries inside the subtree are in the order of their branches |
| CoverOrder.LabelsAreCarved | crates/kovanica-dag/src/reachability.rs:230-252 | the labels of the example below are the ones its blocks are given, one after the other |
| CoverOrder.ReindexUnsorts | crates/kovanica-dag/src/reachability.rs:334-352 | a sound oracle whose covering list is sorted, and after a reindex is not |
| Reachability.Reachability.RegisterLeaf | crates/kovanica-dag/src/reachability.rs:216-228 | the new leaf hangs in id order under its tree parent and every stored subtree size is the true one, in 64 bits |
| Reachability.Reachability.BumpAncestors | crates/kovanica-dag/src/reachability.rs:224-228 | crediting every ancestor restores all subtree sizes |
| Reachability.Reachability.AllocateInterval | crates/kovanica-dag/src/reachability.rs:230-259 | by carving or by reindexing, the tree including the new leaf ends up laid out: while its parent has free labels the leaf takes the first half of them, at most 2^40, and nothing else moves; otherwise one subtree is laid out anew |
| Reachability.Reachability.InsertToFutureCoveringSet | crates/kovanica-dag/src/reachability.rs:403-430 | the cover of a block then reaches what it did and the new subtree, and nothing more, even on a list a reindex left unsorted; a list sorted by interval start, its intervals apart, stays so |
| Reachability.Reachability.AddBlock | crates/kovanica-dag/src/reachability.rs:216-266 | the oracle stays sound and its covers minimal, and stands for the old pasts plus the new block, whose past is that of the selected parent, the selected parent and the mergeset; and the labels are those of the allocation |
| Reachability.Reachability.IsAncestorExact | crates/kovanica-dag/src/reachability.rs:457-469 | a query is true exactly when the first block is in the past of the second |
| OracleBuild.SubtreeSizes | crates/kovanica-dag/src/reachability.rs:474-507 | the post-order walk computes the true size of every subtree |
| OracleBuild.FutureOf | crates/kovanica-dag/src/reachability.rs:510-561 | the breadth-first search returns exactly the descendants |
| OracleBuild.RootsAreExact | crates/kovanica-dag/src/reachability.rs:510-561 | covering sets made of the tree roots of each future are exact |
| OracleBuild.RootsAreLean | crates/kovanica-dag/src/reachability.rs:510-561 | and minimal |
| OracleBuild.LeanAreRoots | crates/kovanica-dag/src/reachability.rs:403-430 | conversely, covers that are exact and minimal are exactly those roots, however they were maintained |
| OracleBuild.Covers | crates/kovanica-dag/src/reachability.rs:510-561 | the filter keeps exactly those roots |
| OracleBuild.Build | crates/kovanica-dag/src/reachability.rs:165-204 | the oracle built from scratch is sound and stands for exactly the pasts of the graph |
| OracleBuild.OraclesAgree | crates/kovanica-dag/src/reachability.rs:61-66 | any two oracles of one graph have the same child lists and the same covers, and answer every query alike |
| Dag.SelectionFits | crates/kovanica-dag/src/reachability.rs:165-204 | in every consensus state each block but genesis selects one of its parents, which is all the construction from scratch asks |
| Dag.Dag.BuildOracle | crates/kovanica-dag/src/reachability.rs:61-66 | for every valid DAG an oracle built from scratch has the tree and the covers of the one maintained insert by insert, and answers every query alike |
| TopoOrder.OrderUnique | crates/kovanica-dag/src/dag.rs:826-828 | the (past size, id) order of a set of blocks is unique, and depends on the pasts alone |
| TopoOrder.AncestorsFirst | crates/kovanica-dag/src/dag.rs:826-828 | that order puts ancestors before descendants |
| TopoOrder.SortByTopoKey | crates/kovanica-dag/src/dag.rs:826-828 | sorting by the stored key lists the same blocks in ascending key order |
| MergesetWalk.WalkMerge | crates/kovanica-dag/src/dag.rs:803-825 | merging a block and queueing its parents keeps what the walk knows |
| MergesetWalk.WalkComplete | crates/kovanica-dag/src/dag.rs:803-825 | an exhausted walk has collected exactly the past of the parents outside the past of the selected parent |
| MergesetWalk.SortedIsMergeset | crates/kovanica-dag/src/dag.rs:826-828 | sorting that collection by stored past sizes gives the mergeset in its order |
| Ghostdag.SolutionUnique | crates/kovanica-dag/src/ghostdag.rs:19-21 | the GHOSTDAG data of a block is determined by its past: two solutions of the local equation agree everywhere |
| KCluster.ColourSplits | crates/kovanica-dag/src/ghostdag.rs:54-68 | colouring puts every mergeset block in exactly one of blues and reds, and the blues join the blue set |
| KCluster.ColourKeepsCounts | crates/kovanica-dag/src/ghostdag.rs:56-66 | every recorded size stays the true number of blue blocks in the anticone, and at most k |
| KCluster.EveryBlockIsCluster | crates/kovanica-dag/src/dag.rs:229-247 | for every block: the blue set lies in its past, the blue score is its size, the blue work its total work, and each recorded anticone size is exact and at most k |
| KCluster.WordsSuffice | crates/kovanica-dag/src/ghostdag.rs:56-75 | below the largest 16-bit k, with a 64-bit block count and a 128-bit total work, no recorded number outgrows its machine word |
| KCluster.ParentIsLighter | crates/kovanica-dag/src/dag.rs:784-792 | the chain key strictly grows along every parent edge |
| KCluster.AncestorIsLighter | crates/kovanica-dag/src/dag.rs:784-792 | the chain key strictly grows along every ancestry |
| KCluster.MergesetIsAnticone | crates/kovanica-dag/src/ghostdag.rs:36-39 | every merged block lies in the anticone of the selected parent |
| KCluster.AtMostKBlues | crates/kovanica-dag/src/ghostdag.rs:68-71 | at most k merged blocks are blue, so the blue score grows by 1 to k + 1 per chain step |
| Laws.RankIsLighter | crates/kovanica-dag/src/dag.rs:784-792 | the chain key ranks by blue work, then by blue score, then by id |
| Laws.OrderedByPast | crates/kovanica-dag/src/dag.rs:826-828 | the order of a set is by number of ancestors and then by id |
| Laws.ListedOnce | crates/kovanica-dag/src/dag.rs:826-828 | and there is only one such list of a set |
| Laws.MergesetMerges | crates/kovanica-dag/src/dag.rs:803-828 | a mergeset lists exactly the blocks in the past of the new block that are not the selected parent nor in its past, in that order |
| Laws.CanBeBlueIff | crates/kovanica-dag/src/ghostdag.rs:105-127 | the test on counts accepts a candidate exactly when the blue blocks stay a cluster with it: none beside more than k others |
| Laws.ColourIsGreedy | crates/kovanica-dag/src/ghostdag.rs:54-68 | so a merged block is blue exactly when the selected parent with its blues, the blues before it and itself are a cluster, and red otherwise |
| Laws.DataFollows | crates/kovanica-dag/src/ghostdag.rs:31-91 | the GHOSTDAG data of a block on any parents follows the rules: selection, mergeset, greedy colouring, score, work and anticone sizes |
| Laws.FollowsOnce | crates/kovanica-dag/src/ghostdag.rs:19-21 | and is the only data that does |
| Laws.StoredFollows | crates/kovanica-dag/src/ghostdag.rs:31-91 | in every consensus state the data of every stored block follows the rules, and genesis has score and work 0 |
| Ordering.OrderListsPast | crates/kovanica-dag/src/ordering.rs:7-33 | the recursive order of a block lists its past and itself, once each, ancestors first |
| Ordering.LinearizationIsTotal | crates/kovanica-dag/src/ordering.rs:73-118 | the total order lists every block exactly once, after all its ancestors |
| Ordering.SpineIsOrder | crates/kovanica-dag/src/ordering.rs:82-88 | walking the selected chain, each block after its mergeset, equals order(selected parent) ++ mergeset ++ block |
| Ordering.ChainInOrder | crates/kovanica-dag/src/ordering.rs:75-78 | the selected chain is a subsequence of the total order |
| Ordering.ChainFromGenesis | crates/kovanica-dag/src/ordering.rs:58-71 | the selected chain starts at genesis, and every later block of it selects the one before |
| Ordering.OrderExtends | crates/kovanica-dag/src/ordering.rs:7-33 | the order of a block starts with the order of its selected parent |
| OrderLaws.ChainIsChain | crates/kovanica-dag/src/ordering.rs:58-71 | the selected chain of a block starts at genesis, ends with the block, and every block of it selects the one before |
| OrderLaws.LinearizedIsLinear | crates/kovanica-dag/src/ordering.rs:79-118 | in the total order each chain block stands after exactly what it merges, and after the last come all other blocks, by number of ancestors and then by id |
| OrderLaws.LinearOnce | crates/kovanica-dag/src/ordering.rs:73-78 | there is only one such order |
| Consensus.InsertKeepsInv | crates/kovanica-dag/src/dag.rs:1099-1216 | every insert keeps: GHOSTDAG data solves the equation, past sizes and children are the true ones, the tips are the childless blocks |
| Consensus.TipOutweighsAll | crates/kovanica-dag/src/ordering.rs:43-51 | the selected tip has the heaviest key of all blocks, not only of the tips |
| Consensus.SelectedTip | crates/kovanica-dag/src/ordering.rs:43-51 | a selected tip exists and outranks every other tip |
| Consensus.BuildingOnTip | crates/kovanica-dag/src/ordering.rs:7-33 | a block built on the selected tip becomes the selected tip, and the new total order begins with the old tip's order |
| Runs.RunKeepsInv | crates/kovanica-dag/src/dag.rs:1099-1216 | every state of every run satisfies the invariant |
| Runs.RunSucceedsIff | crates/kovanica-dag/src/dag.rs:1104-1115 | a run of inserts succeeds exactly when every block is new, has parents, and each parent is stored or comes earlier |
| Runs.RunBlocks | crates/kovanica-dag/src/dag.rs:1099-1216 | a finished run stores exactly the starting blocks and the inserted ones |
| Runs.StateDetermined | crates/kovanica-dag/src/snapshot.rs:3-10 | the whole consensus state is determined by k, genesis and the blocks |
| Runs.OrderIndependence | crates/kovanica-dag/src/ordering.rs:73-78 | two successful runs over the same blocks, in any two orders, end in the same state with the same total order |
| Dag.Dag.constructor | crates/kovanica-dag/src/dag.rs:338-376 | a new DAG holds its genesis, and a sound oracle for it |
| Dag.Dag.AncestryExact | crates/kovanica-dag/src/dag.rs:758-767 | the ancestry query is exact over the stored blocks |
| Dag.Dag.AnticoneExact | crates/kovanica-dag/src/dag.rs:781-783 | the anticone query is exact |
| Dag.Dag.MergesetOrdered | crates/kovanica-dag/src/dag.rs:803-828 | the queue walk terminates and returns exactly the blocks below or among the parents that are not the selected parent nor below it, fewer ancestors first and, among equally many, the smaller id |
| Dag.Dag.TryColourBlue | crates/kovanica-dag/src/ghostdag.rs:105-127 | in whatever order the blue set is visited, a candidate is accepted exactly when the k-cluster rule allows it, with exactly the blue blocks of its anticone |
| Dag.Dag.ComputeGhostdag | crates/kovanica-dag/src/ghostdag.rs:31-91 | the loop over the mergeset computes the data of the recursive definition, which is: the parent of most blue work, then score, then id, is selected; each merged block in order is blue exactly when the blues so far and the selected parent stay a k-cluster with it, red otherwise; score, work and anticone sizes count the blues |
| Dag.Dag.ComputeSelectedTip | crates/kovanica-dag/src/ordering.rs:46-51 | no tip has more blue work than the answer; of equal work none a higher blue score; of equal work and score none a larger id |
| Dag.Dag.SelectedChain | crates/kovanica-dag/src/ordering.rs:58-71 | the walk and reversal give the chain from genesis to the top tip, each block selecting the one before |
| Dag.Dag.MergesetOrder | crates/kovanica-dag/src/ordering.rs:127-140 | a stored block's mergeset, by number of ancestors and then by id; empty for genesis |
| Dag.Dag.Linearize | crates/kovanica-dag/src/ordering.rs:79-118 | spine and tail loops produce the total order of the state: the selected chain from genesis to the top tip, each block after what it merges, then every other block, both by number of ancestors and then by id |
| Dag.Dag.CollectSamples | crates/kovanica-dag/src/dag.rs:1035-1048 | the truncated walk collects the times and works of the last window + 1 blocks of the whole chain |
| Dag.Dag.CheckDifficulty | crates/kovanica-dag/src/dag.rs:832-861 | refuses exactly a block older than a parent, naming the first such, then one whose work is not the target of its whole selected chain, computed from average, due and taken time as StoreLaws.TargetOf says |
| Dag.Dag.Wire | crates/kovanica-dag/src/dag.rs:1181-1202 | the block becomes a child of each parent and a tip, its parents stop being tips, nothing else changes |
| Dag.Dag.NewPastSize | crates/kovanica-dag/src/dag.rs:1168-1171 | the stored past size equals the number of ancestors |
| Dag.Dag.PayloadPruningScore | crates/kovanica-dag/src/dag.rs:524-531 | the blue score of the top tip less the depth, not below zero, and zero when pruning is off |
| Dag.Dag.PruneOldPayloads | crates/kovanica-dag/src/dag.rs:524-554 | with pruning on, a block loses its payload exactly when its blue score is positive and, with the depth added, below the score of the top tip; nothing else of any block changes, and the oracle still fits |
| Dag.Dag.Preview | crates/kovanica-dag/src/dag.rs:1058-1082 | a preview refuses for the structural reasons an insert has, and else names the parent that ranks highest and the mergeset in its order |
| Dag.PreviewForetells | crates/kovanica-dag/src/dag.rs:1051-1057 | an accepted block gets the selected parent its preview named and merges exactly the blocks it listed |
| Dag.Dag.Check | crates/kovanica-dag/src/dag.rs:1099-1166 | the checks answer the first reason to refuse, in the order they are made, each reason spelled out, or the GHOSTDAG data |
| Dag.Dag.Commit | crates/kovanica-dag/src/dag.rs:1168-1216 | an accepted block leads to exactly the successor state, and the updated oracle is sound for the grown graph |
| Dag.Dag.Insert | crates/kovanica-dag/src/dag.rs:1091-1216 | an insert answers and moves exactly as the state machine says: the first reason to refuse, and then store and oracle are untouched; or the block joins with the data the rules give it, becomes a tip and a child of its parents, and the payloads now out of reach go |
| Enforcement.AcceptedIff | crates/kovanica-dag/src/dag.rs:1104-1151 | a block is not refused exactly when it is structurally acceptable, obeys the difficulty rules and is mined, as far as each is enforced |
| Enforcement.OutcomeFacts | crates/kovanica-dag/src/dag.rs:1091-1216 | whatever the outcome the invariant holds, and the graph grows by the block exactly when it was taken |
| Enforcement.PruningKeepsInv | crates/kovanica-dag/src/dag.rs:536-554 | evicting payloads changes nothing consensus reads |
| StoreLaws.EvictedPlainly | crates/kovanica-dag/src/dag.rs:524-554 | with a finite depth exactly the blocks of positive blue score that, with the depth added, are below the top tip lose their payload, and nothing else differs |
| StoreLaws.RefusalIsPlain | crates/kovanica-dag/src/dag.rs:1099-1166 | the answer of the checks, reason by reason: stored already, no parents, the first parent not stored, the first younger parent, the wrong work, an id too large for the work |
| StoreLaws.AfterIsPlain | crates/kovanica-dag/src/dag.rs:1168-1216 | the store after an accepted block, entry by entry: data, ancestor count, children, tips and payloads |
| StoreLaws.OutcomeIsPlain | crates/kovanica-dag/src/dag.rs:1091-1216 | every insert answers and moves in these terms |
| StoreLaws.TakesOnce | crates/kovanica-dag/src/dag.rs:1091-1216 | and they leave no choice: a store, a policy and a block have one answer and one store to follow |
| StoreLaws.OrderIsPlain | crates/kovanica-dag/src/ordering.rs:73-118 | the total order of every consensus state: the chain to the top tip, each block after what it merges, then the rest |
| StoreLaws.TotalsOnce | crates/kovanica-dag/src/ordering.rs:73-78 | and no other list is |
| Difficulty.BoundsInOrder | crates/kovanica-dag/src/difficulty.rs:84-97 | the bounds given to clamp are never inverted, so it cannot panic |
| Difficulty.NextWorkBounded | crates/kovanica-dag/src/difficulty.rs:84-99 | the target lies between max(avg/f, min) and max(avg*f saturated, min) |
| Difficulty.NextWorkIsTarget | crates/kovanica-dag/src/difficulty.rs:70-99 | the result is the average work times due over taken time, both times as plain numbers, divided rounding down, within the factor and the floor, each product up to the largest word |
| Difficulty.TargetOnce | crates/kovanica-dag/src/difficulty.rs:70-99 | and there is only one such number |
| Difficulty.PaceDecides | crates/kovanica-dag/src/difficulty.rs:76-98 | strictly between the bounds, for n samples and where no word saturates: target times taken time is at most average times n - 1 intervals, and target plus one times it is more |
| Difficulty.OnPaceKeepsWork | crates/kovanica-dag/src/difficulty.rs:76-98 | samples spanning exactly n - 1 intervals leave the work at their average, or at the floor if that is more |
| StoreLaws.TargetIsPlain | crates/kovanica-dag/src/dag.rs:1032-1048 | the work required after a block is the target of the times and works of its whole selected chain |
| Difficulty.LaterNeverHarder | crates/kovanica-dag/src/difficulty.rs:70-99 | a later last timestamp never raises the target |
| Difficulty.WindowSuffices | crates/kovanica-dag/src/difficulty.rs:70-75 | samples older than the window have no effect |
| Dag.RecentSuffices | crates/kovanica-dag/src/dag.rs:1032-1048 | retargeting the truncated walk equals retargeting the whole chain |
| Enforcement.InsertKeepsEnforced | crates/kovanica-dag/src/dag.rs:832-861 | an obedient insert keeps every stored block obedient, against targets computed in the grown DAG |
| Enforcement.PruningKeepsEnforced | crates/kovanica-dag/src/dag.rs:536-554 | evicting payloads changes no target and no obedience |
| Enforcement.OutcomeKeepsEnforced | crates/kovanica-dag/src/dag.rs:1091-1216 | whatever is offered, taken or refused, payloads pruned or not, the stored blocks stay obedient |
| Enforcement.RunIsEnforced | crates/kovanica-dag/src/dag.rs:400-415 | with difficulty enforced from genesis every later block carries the target of its whole selected chain, whatever blocks are offered and whatever is pruned |
| Enforcement.TimestampsAscend | crates/kovanica-dag/src/dag.rs:832-848 | under enforcement timestamps never decrease along ancestry |
| ProofOfWork.LimbsOf | crates/kovanica-dag/src/pow.rs:42-54 | the four limbs of the big-endian id have the value of the id |
| ProofOfWork.WideMul | crates/kovanica-dag/src/pow.rs:65-67 | a 128-bit limb product leaves room for the two limbs added to it |
| ProofOfWork.MulAdd | crates/kovanica-dag/src/pow.rs:65-69 | kept limb and carry are remainder and quotient of the exact sum |
| ProofOfWork.CarryConserves | crates/kovanica-dag/src/pow.rs:66-69 | splitting a sum into limb and carry moves no value |
| ProofOfWork.Propagate | crates/kovanica-dag/src/pow.rs:71-78 | the row's last carry reaches the higher limbs whole, and never runs off the product |
| ProofOfWork.AddRow | crates/kovanica-dag/src/pow.rs:63-78 | a row adds exactly limb times work, shifted, to the product |
| ProofOfWork.TopLimbs | crates/kovanica-dag/src/pow.rs:81-82 | the two top limbs are zero exactly when the product is below 2^256 |
| ProofOfWork.MeetsTarget | crates/kovanica-dag/src/pow.rs:38-82 | true exactly when id * max(work, 1) < 2^256 |
| ProofOfWork.TargetForm | crates/kovanica-dag/src/pow.rs:10-12 | which is the same as id <= (2^256 - 1) / max(work, 1) |
| ProofOfWork.TargetMonotone | crates/kovanica-dag/src/pow.rs:32-37 | an id good for some work is good for any smaller one |
| SortedIds.CanonicalAscends | crates/kovanica-dag/src/block.rs:145-155 | constructors store parents strictly ascending, and the same ones |
| SortedIds.ParentOrderForgotten | crates/kovanica-dag/src/block.rs:140-144 | two parent lists are stored alike exactly when they hold the same blocks |
| BlockCodec.FieldsBack | crates/kovanica-dag/src/snapshot.rs:340-388 | every field of any block, VRF flags included, is read back from the written bytes, before any trailing bytes |
| BlockCodec.BlockBack | crates/kovanica-dag/src/snapshot.rs:340-451 | reading what was written yields the assembly of exactly the written fields, before any trailing bytes |
| BlockCodec.BlockRoundTripIff | crates/kovanica-dag/src/snapshot.rs:222-267 | a block reads back as itself, up to an empty payload, if and only if its parents are canonical, no VRF field is stray or missing, and with a payload its id is truthful |
| BlockCodec.ReaderPanicsIff | crates/kovanica-dag/src/snapshot.rs:408-444 | the reader fails its unwrap on written bytes if and only if the block has a VRF key, a payload, and lacks the proof or the output |
| BlockCodec.KeyOnlyBlockPanics | crates/kovanica-dag/src/snapshot.rs:43-46 | a concrete block with a key and a payload, but neither proof nor output, makes it fail |
| BlockCodec.PrunedStaysFaithful | crates/kovanica-dag/src/block.rs:381-386 | pruning a payload keeps a block readable |
| BlockCodec.PreimageInjective | crates/kovanica-dag/src/block.rs:326-370 | two blocks hash the same bytes if and only if they agree on every written field, whatever their ids |
| BlockCodec.EncodedLenIsLength | crates/kovanica-dag/src/block.rs:399-423 | the reported length is the number of bytes written, at least 81 |
| CodecLaws.BlockLaidOut | crates/kovanica-dag/src/snapshot.rs:222-267 | every field of every block is written at its place: id big-endian, counts, work, time and nonce little-endian, parents after their count, a flag byte before each VRF field, the payload after its length |
| CodecLaws.BlockReadAt | crates/kovanica-dag/src/snapshot.rs:340-451 | a block is read only from bytes that hold its fields at these places, any flag but 1 standing for nothing |
| CodecLaws.BlockReads | crates/kovanica-dag/src/snapshot.rs:340-451 | and from all such bytes, when the key and the proof are valid points |
| CodecLaws.BlockAnswers | crates/kovanica-dag/src/snapshot.rs:388-451 | what reading one block answers otherwise: the end of input, trailing bytes for an id the payload does not hash to, or a failed unwrap |
| CodecLaws.SnapshotLaidOut | crates/kovanica-dag/src/snapshot.rs:90-101 | a snapshot is the letters KVDG, version 6 and k in two bytes each, the number of blocks in eight, and the blocks one after the other |
| CodecLaws.DecodedReads | crates/kovanica-dag/src/snapshot.rs:106-132 | what reading a snapshot answers, by its first 16 bytes, its blocks and what is left |
| SnapshotStore.Buffer.EncodeBlock | crates/kovanica-dag/src/snapshot.rs:230-267 | appends exactly the stored form |
| SnapshotStore.Reader.ReadBytes | crates/kovanica-dag/src/snapshot.rs:299-338 | reads the next bytes if they are there, else reports the end |
| SnapshotStore.Reader.ReadCount | crates/kovanica-dag/src/snapshot.rs:321-329 | accepts a count exactly when that many minimal elements can still follow |
| SnapshotStore.Reader.ReadIds | crates/kovanica-dag/src/snapshot.rs:341-345 | the loop reads the listed ids one after another |
| SnapshotStore.Reader.ReadVrf | crates/kovanica-dag/src/snapshot.rs:356-385 | the three flags are read independently, invalid points are refused |
| SnapshotStore.Reader.ReadBlock | crates/kovanica-dag/src/snapshot.rs:340-451 | the cursor follows the parse of one block, with the same error at the same place |
| SnapshotStore.Reader.ReadLog | crates/kovanica-dag/src/snapshot.rs:196-219 | magic, version, k, count, blocks and the end of input are checked in that order |
| SnapshotStore.WriteSnapshot | crates/kovanica-dag/src/snapshot.rs:90-101 | writes the framed blocks of the state in its total order |
| Snapshot.LogRoundTrip | crates/kovanica-dag/src/snapshot.rs:90-101 | a framed list of readable blocks decodes to itself |
| Snapshot.SnapshotPanicsIff | crates/kovanica-dag/src/snapshot.rs:106-132 | a framed list of blocks makes the reader fail its unwrap if and only if some block is such a one and all before it are assembled |
| Snapshot.ReplayIsRun | crates/kovanica-dag/src/snapshot.rs:124-158 | replaying decoded blocks is a run of inserts |
| SnapshotStore.ReplayAll | crates/kovanica-dag/src/snapshot.rs:137-158 | the insert loop on the rebuilt DAG follows the replay, stopping at the first refusal |
| SnapshotStore.ReadSnapshot | crates/kovanica-dag/src/snapshot.rs:106-166 | yields a sound DAG in exactly the state the bytes stand for, or the error they give |
| Snapshot.GenesisFirst | crates/kovanica-dag/src/ordering.rs:98-110 | genesis is the first block of the total order |
| Snapshot.ListingReplays | crates/kovanica-dag/src/snapshot.rs:3-10 | replaying the blocks of a state in its total order always succeeds and gives the state back |
| Snapshot.SnapshotRoundTrip | crates/kovanica-dag/src/snapshot.rs:3-10 | reading a written snapshot restores k, blocks, GHOSTDAG data, tips and total order; payloads only up to pruned for empty |
| Snapshot.InsertStaysStorable | crates/kovanica-dag/src/dag.rs:1091-1093 | inserts of well-made blocks, with payload pruning on or off, keep a state that can be saved |
| Snapshot.RunIsStorable | crates/kovanica-dag/src/dag.rs:1091-1093 | every state grown from genesis by offering well-made blocks, under any policy and pruning depth, can be saved |
| Snapshot.EveryRunRestores | crates/kovanica-dag/src/snapshot.rs:3-10 | and reading its snapshot restores blocks, GHOSTDAG data, tips and total order |
| HeaderSort.BuildEdges | crates/kovanica-node/src/net.rs:649-662 | the child list of a header holds the others in the order visited, each as often as it names that header, and the in-degrees count every parent reference inside the set |
| HeaderSort.SettleKids | crates/kovanica-node/src/net.rs:672-680 | each listed child loses one reference, and becomes ready exactly when none is left |
| HeaderSort.SettlingFrees | crates/kovanica-node/src/net.rs:672-680 | going through the child list of an emitted header makes ready exactly the headers whose last unmet parent it was, in the order visited |
| HeaderSort.SourceExists | crates/kovanica-node/src/net.rs:683-684 | an acyclic set always has a header none of whose parents is left |
| HeaderSort.TopoSortHeaders | crates/kovanica-node/src/net.rs:642-689 | every distinct id comes out exactly once, parents come before children if and only if the set is acyclic; of the headers ready at any time the one that became so last comes next, roots from the largest id down, and those that never get ready come last in id order; the output is the one of some visiting order of the header map |
| HeaderSort.LastOfIdStays | crates/kovanica-node/src/net.rs:651-652 | of several headers with one id the last is sorted |
| HeaderOrder.EmitsNewest | crates/kovanica-node/src/net.rs:668-681 | whatever was emitted so far, every further emission is the newest ready header, until none is ready |
| HeaderOrder.OutputIsNewestFirst | crates/kovanica-node/src/net.rs:663-688 | the whole output, for every visiting order: newest ready first from the largest root on, then the leftovers ascending |
| HeaderOrder.DeterminedIff | crates/kovanica-node/src/net.rs:642-648 | the output is the same for every visiting order if and only if no emission makes two headers ready at once |
| HeaderOrder.ForklessIsDetermined | crates/kovanica-node/src/net.rs:642-648 | so it is whenever no header of the set is a parent of two others in it |
| HeaderOrder.TiesFollowTheMap | crates/kovanica-node/src/net.rs:642-648 | a header with two children has two possible outputs: ties follow the map order, not the id |
| HeaderSort.SortedBodiesInsert | crates/kovanica-node/src/net.rs:742-783 | bodies applied in such an order all go in, none for want of a parent, exactly when each is new and has its other parents stored |
| MempoolIndex.OrphanListed | crates/kovanica-node/src/mempool_v2.rs:122-139 | listing a new orphan under its missing inputs keeps the index exact |
| MempoolIndex.OrphanUnlisted | crates/kovanica-node/src/mempool_v2.rs:470-484 | unlisting it under all its inputs leaves no trace and no empty entry |
| MempoolIndex.TotalLess | crates/kovanica-node/src/mempool_v2.rs:441-448 | the byte total falls by exactly the size of what is removed |
| Mempool.Mempool.RemoveAll | crates/kovanica-node/src/mempool_v2.rs:539-544 | both pools lose exactly the listed transactions, and the pool stays coherent |
| Mempool.Mempool.EvictLowestFeeRate | crates/kovanica-node/src/mempool_v2.rs:309-322 | removes one of the lowest rate, fails exactly on an empty pool |
| Mempool.Mempool.EnsureCapacity | crates/kovanica-node/src/mempool_v2.rs:277-296 | survivors outrate the evicted, no eviction was needless, and there is room; or the pool is empty and the newcomer did not fit beside the last survivor |
| Mempool.Mempool.Add | crates/kovanica-node/src/mempool_v2.rs:99-161 | which answer each transaction gets, in order; an orphan joins the others, and only past the limit some are dropped, down to it; a pending one evicts nothing when it fits as it is, else the lowest rates and no more than needed, and both limits hold |
| Mempool.Mempool.RevalidateWithUtxo | crates/kovanica-node/src/mempool_v2.rs:163-210 | a pending transaction stays exactly when all its inputs are there; the others become orphans at rate 0, as many as the orphan limit leaves room for |
| Mempool.Mempool.OnNewBlock | crates/kovanica-node/src/mempool_v2.rs:212-268 | exactly the orphans whose inputs are all there leave, and exactly those paying at least the minimum become pending, at their rate |
| MempoolPolicy.PromotionKeepsLimitsIff | crates/kovanica-node/src/mempool_v2.rs:20-25 | promotion keeps the limits of the pending pool if and only if there was room for all promoted transactions |
| MempoolPolicy.PromotionOverfills | crates/kovanica-node/src/mempool_v2.rs:212-268 | a limit of one, one pending and one orphan completed: two are pending |
| Mempool.Mempool.ReplaceByFee | crates/kovanica-node/src/mempool_v2.rs:336-411 | every case of replacing; a refused replacement puts the target back |
| Mempool.ReplaceIsPlain | crates/kovanica-node/src/mempool_v2.rs:336-411 | which answer each replacement gets: the price is the rate of a transaction sharing an input plus the bump, up to the largest rate; on success exactly the transactions sharing an input made way and the newcomer was taken as any other, else the pool is as it was |
| Mempool.AcceptedIsTaken | crates/kovanica-node/src/mempool_v2.rs:277-322 | a newcomer that fits evicts nothing, and of those evicted for it the dearest, put back, would pass a limit |
| MempoolPolicy.RoomDecides | crates/kovanica-node/src/mempool_v2.rs:277-296 | when room must be made: taken only if some transaction of the top rate fits beside the newcomer, refused only if some one does not, and then the pool is emptied |
| MempoolPolicy.AnswersIff | crates/kovanica-node/src/mempool_v2.rs:277-296 | under a byte limit a newcomer can be taken if and only if it fits beside some transaction of the top rate, and can be refused if and only if it does not fit beside some one |
| MempoolPolicy.EvictableIff | crates/kovanica-node/src/mempool_v2.rs:277-322 | a transaction can be evicted for a newcomer if and only if there is no room once all lower rates are gone |
| MempoolPolicy.MayStayIff | crates/kovanica-node/src/mempool_v2.rs:277-322 | a transaction can survive a newcomer if and only if there is room with only it and all higher rates left |
| MempoolPolicy.OneOutcomeIff | crates/kovanica-node/src/mempool_v2.rs:10 | making room for a newcomer has one outcome, whatever the map order, if and only if no transaction can both go and stay |
| MempoolPolicy.AnyOrphanMayGo | crates/kovanica-node/src/mempool_v2.rs:299-334 | a full orphan pool may drop any of its orphans for a new one, and may keep any unless it holds only one |
| MempoolPolicy.FitsAloneYetRefused | crates/kovanica-node/src/mempool_v2.rs:286-293 | a transaction that would fit an empty pool is refused, and the pool emptied, when it does not fit beside the only one held |
| MempoolPolicy.TieGoesEitherWay | crates/kovanica-node/src/mempool_v2.rs:309-322 | between two transactions sharing the top rate the map order decides: the newcomer may get in or be refused |
| MempoolPolicy.ReplacementLeavesNoConflict | crates/kovanica-node/src/mempool_v2.rs:388-407 | after a successful replacement no other pending transaction shares an input, every conflicting one is gone, and one of them was outbid by the bump |
| MempoolPolicy.ReplacementFailsOnlyForRoom | crates/kovanica-node/src/mempool_v2.rs:350-410 | a replacement that outbids every conflict fails only for want of room |
| MempoolPolicy.PushesOutOnlyOutbidIff | crates/kovanica-node/src/mempool_v2.rs:336-407 | a replacement pushes out only transactions it outbids, conflicts or not, in whatever order the pool is searched, if and only if it outbids none of the conflicting ones, or all of them and every transaction that can be evicted once they are gone |
| MempoolPolicy.EqualRatePushesOutDearer | crates/kovanica-node/src/mempool_v2.rs:350-407 | a replacement at the rate of one conflict, with no bump, is taken and removes another conflict paying twenty times as much |
| MempoolPolicy.RoomPushesOutDearer | crates/kovanica-node/src/mempool_v2.rs:388-410 | a replacement that outbids its one conflict is taken and evicts another transaction paying sixteen times as much, to make room |
| MempoolPolicy.TargetIsOutbidStrictlyIff | crates/kovanica-node/src/mempool_v2.rs:336-340 | the priced transaction is outbid strictly by every newcomer it makes way for if and only if a bump is asked for and its rate is not the largest |
| XorMetric.DistanceFacts | crates/kovanica-node/src/dht.rs:38-44 | the distance is symmetric and tells peers apart |
| XorMetric.LessIff | crates/kovanica-node/src/dht.rs:38-44 | one distance is less than another exactly when it has the smaller byte where the two first differ |
| XorMetric.BucketIndex | crates/kovanica-node/src/dht.rs:46-56 | the byte loop finds the first set bit of the distance |
| XorMetric.FirstBitIff | crates/kovanica-node/src/dht.rs:46-56 | the reported bit is set and none before it is |
| XorMetric.SharedPrefix | crates/kovanica-node/src/dht.rs:46-56 | a bucket number is exactly the length of the prefix two ids share |
| XorMetric.BucketExists | crates/kovanica-node/src/dht.rs:46-56 | every other peer has one of 256 buckets, a peer itself none |
| XorMetric.BucketsOrderDistance | crates/kovanica-node/src/dht.rs:366-378 | a peer in a higher bucket is closer |
| RoutingTable.KBucket.UpdateContact | crates/kovanica-node/src/dht.rs:170-214 | which list the peer ends up in and where, for every case, with no peer twice and both lists within k |
| RoutingTable.KBucket.MarkFailed | crates/kovanica-node/src/dht.rs:249-279 | one more failure for the peer, which moves to the end of its list or, on the third, leaves it; the front of the cache, as just seen and with no failures, then takes its place in front; nothing else changes |
| RoutingTable.KBucket.PruneDead | crates/kovanica-node/src/dht.rs:282-307 | exactly the peers with three failures or more leave, those in the list before those in the cache; the others stay in order, and from the front of the cache as many as there is room for go one by one to the front of the list |
| RoutingTable.AliveNext | crates/kovanica-node/src/dht.rs:284-299 | going through a list in order, fewer than three failures stay and three or more go |
| RoutingTable.RoutingTable.UpdateContact | crates/kovanica-node/src/dht.rs:354-363 | only the bucket the peer belongs to changes, as that bucket's update says, for each of its results; the owner is never stored |
| RoutingTable.RoutingTable.MarkFailed | crates/kovanica-node/src/dht.rs:396-402 | only the bucket of the peer changes: a strike, or on the third removal and promotion from the cache |
| RoutingTable.Deduped | crates/kovanica-node/src/dht.rs:388-390 | in a sorted list dropping equal neighbours leaves each peer once, strictly sorted |
| RoutingTable.RoutingTable.ClosestPeers | crates/kovanica-node/src/dht.rs:366-393 | exactly the nearest of all peers in the table, nearest first, each with a record a bucket lists or caches |
| NodeLookup.FrontIsNearest | crates/kovanica-node/src/dht.rs:722-729 | the front of a strictly sorted list is the nearest of all listed |
| NodeLookup.NodeLookup.AddInitial | crates/kovanica-node/src/dht.rs:654-667 | learns exactly the given peers, each with the first record listed for it, those already known keeping theirs |
| NodeLookup.NodeLookup.AddResults | crates/kovanica-node/src/dht.rs:684-702 | learns exactly the given peers, each with the record seen latest and, of several, the last listed |
| NodeLookup.NodeLookup.NextCandidates | crates/kovanica-node/src/dht.rs:670-681 | the nearest of the peers not queried yet, at most alpha, nearest first, none returned before or again |
| NodeLookup.NodeLookup.IncompleteHasCandidate | crates/kovanica-node/src/dht.rs:704-720 | an incomplete lookup always has a peer to query |
| NodeLookup.NodeLookup.ClosestIsNearest | crates/kovanica-node/src/dht.rs:704-729 | the answer is the k nearest of all learned peers, and the lookup is complete exactly when all of them were queried |
| NodeLookup.FindNode | crates/kovanica-node/src/p2p.rs:604-645 | the round loop ends complete or after at least ten peers were asked, having learned everything the asked peers answered; within a closed world of peers it asks no more than there are, and completes when they are fewer than ten |
| NodeLookup.Converged | crates/kovanica-node/src/p2p.rs:604-645 | after a complete lookup no peer of the answer knows a peer nearer than the answer |
| RateLimit.RateLimiter.CheckAndConsume | crates/kovanica-node/src/p2p_hardening.rs:97-117 | a window that ran out starts anew at this tick; a message is let through exactly when the window has room for its bytes and for one more message, a limit of 0 being none, and then both counters grow by it; a refusal consumes nothing |
| RateLimit.BoundedInNext | crates/kovanica-node/src/p2p_hardening.rs:90-117 | every step keeps the bounds on every interval no longer than the window |
| RateLimit.SlidingWindowBound | crates/kovanica-node/src/p2p_hardening.rs:90-117 | over any interval of the window's length, wherever it starts, at most twice the maximum gets through |
| RateLimit.OwnWindowBound | crates/kovanica-node/src/p2p_hardening.rs:90-117 | within the limiter's own window, at most the maximum |
| RateLimit.TwiceIsReached | crates/kovanica-node/src/p2p_hardening.rs:90-117 | twice the maximum is reached by a concrete run, so the bound is tight |
| CoinSelection.LargestAreWorthMost | crates/kovanica-node/src/node.rs:1391-1400 | no n spendable coins are worth more than the n largest |
| CoinSelection.Accumulate | crates/kovanica-node/src/node.rs:1392-1400 | takes coins in order until their saturating sum reaches the need, and not one further |
| CoinSelection.PrepareTransfer | crates/kovanica-node/src/node.rs:1352-1419 | fails only for a zero amount or when the sender's coins of the asset that are mature are worth less than amount plus fee; else the inputs are the shortest covering front of their ranking by value and then by outpoint, and no covering choice has fewer |
| CoinSelection.RankedUnique | crates/kovanica-node/src/node.rs:1391 | the ranking of a set of coins is unique, so the choice does not depend on map order |
| CoinSelection.PaysExactlyIff | crates/kovanica-node/src/node.rs:1392-1419 | inputs equal amount plus fee plus change if and only if the shortest covering front of the ranked coins sums to a machine word |
| CoinSelection.FundedPaysExactly | crates/kovanica-node/src/node.rs:1392-1419 | in particular whenever all mature coins together do |
| CoinSelection.OverflowLosesChange | crates/kovanica-node/src/node.rs:1394-1401 | two concrete coins whose sum saturates: the change falls short |

## Left out

- Full block pruning: off by default.
- SnapshotStore.ReadSnapshot: answers `NotModelled` where the source goes on: on a genesis with parents, on versions below 6, and on a block that names a parent not yet read, be it missing or listed later, for which the source inserts a stub (snapshot.rs:137-155) and evicts it at the end. Stubs leave a graph with edges to absent blocks, which no written snapshot of an unpruned DAG does.
- SnapshotStore.ReplayAll: stops with `NotModelled` at a parent not yet read, where the source inserts a stub.
- Snapshot.ReplayIsRun: likewise ends at a parent not yet read.
- SnapshotStore.Reader.ReadLog: answers `NotModelled` for versions 1 to 5, which lack ids or VRF fields and are never written.
- VRF eligibility, the epoch beacon and the pluggable block validator: cryptography and callers' code. VRF fields are carried as bytes.
- Collisions of the id hash: two blocks with one id are refused as duplicates, as in the code.
- Dag.Dag.ComputeGhostdag: keeps anticone sizes, blue scores and blue works as unbounded numbers. `KCluster.WordsSuffice` shows that below k = 65535, with a 64-bit block count and a 128-bit total work, none of them outgrows its 16-, 64- or 128-bit word.
- Dag.Dag.Insert: leaves out the validator, VRF and block-pruning refusals. It asks for fewer stored blocks than `ROOT_CAPACITY` (2^63 - 1), which memory guarantees, and for a retarget window below the largest 64-bit word.
- Dag.Dag.Check: leaves out the same three refusals; all the others come in the source's order.
- Dag.Dag.constructor: asks for a genesis without parents, as every caller passes; `Dag::new` does not check it and would keep edges to absent blocks.
- Reachability.Reachability.Reindex: does not model the two metrics counters, which no answer depends on.
- Enforcement.RunIsEnforced: does not cover switching the policy on part-way, where earlier blocks need not obey.
- SnapshotStore.WriteSnapshot: does not model k beyond 16 bits; `Snapshot.SnapshotRoundTrip` asks for k below 2^16, the type of k.
- HeaderSort.SortedBodiesInsert: does not model ledger checks on bodies, nor servers that omit some; a body that fails is skipped in the source.
- Mempool.Mempool.OnNewBlock: does not promise the limits of the pending pool, which promotion does not enforce; exactly when they hold is `MempoolPolicy.PromotionKeepsLimitsIff`.
- Mempool.Mempool.Add: does not look for conflicts between pending transactions, because the source does not.
- Mempool fee estimation and the sorted listing.
- Transactions are abstract: id, size, inputs and whether coinbase; a fee rate may be undefined even when all inputs are present.
- RateLimit.RateLimiter.CheckAndConsume: does not model 64-bit wrap of `window_start + window` or of the byte sum; ticks and message sizes are far below it. Ticks must not run backwards for the run theorems.
- NodeLookup.NodeLookup.ClosestIsNearest: asks for k of at least 1, because `is_complete` indexes `k - 1`.
- RoutingTable random ids, bucket refresh, promotion after a ping and table-wide pruning, which repeat bucket operations.
- Mining loops, light-client data, ledger, UTXO, stake and Merkle code, wire codecs other than snapshots, sockets, HTTP, persistence, metrics and the command line.
