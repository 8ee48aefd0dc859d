/** Consensus-enforced difficulty: what it demands of one block, and what it
    guarantees about every block of a DAG grown under it. */
module Enforcement {
  import opened BlockGraph
  import opened Blocks
  import opened Consensus
  import opened Difficulty
  import opened Ghostdag
  import opened KCluster
  import opened Ordering
  import opened Runs
  import opened Words
  import opened Wrappers

  function SampleOf(nodes: Nodes, b: BlockId): TimedWork {
    if b in nodes then TimedWork(nodes[b].block.timestampMs, nodes[b].block.work) else TimedWork(0, 0)
  }

  function SamplesOf(nodes: Nodes, chain: seq<BlockId>): (r: seq<TimedWork>)
    ensures |r| == |chain|
  {
    if chain == [] then [] else SamplesOf(nodes, chain[..|chain| - 1]) + [SampleOf(nodes, chain[|chain| - 1])]
  }

  /** The samples of the whole selected chain ending at `tip`. */
  ghost function ChainSamples(nodes: Nodes, tip: BlockId): seq<TimedWork> {
    SamplesOf(nodes, Chain(GraphOf(nodes), DataMapOf(nodes), tip))
  }

  /** The work a block selecting `sp` must carry. */
  ghost function Target(nodes: Nodes, r: Retarget, sp: BlockId): u128
    requires r.window < U64_MAX
  {
    NextWork(r, ChainSamples(nodes, sp))
  }

  /** Both rules for one block: no parent is younger, and the work is the target. */
  ghost predicate Obeys(nodes: Nodes, r: Retarget, block: Block, sp: BlockId)
    requires r.window < U64_MAX
  {
    && (forall p :: p in block.parents ==> p in nodes && nodes[p].block.timestampMs <= block.timestampMs)
    && block.work == Target(nodes, r, sp)
  }

  ghost predicate ObeysAt(s: State, r: Retarget, d: BlockId)
    requires r.window < U64_MAX
  {
    d in s.nodes && s.nodes[d].ghostdag.selectedParent.Some? &&
    Obeys(s.nodes, r, s.nodes[d].block, s.nodes[d].ghostdag.selectedParent.value)
  }

  ghost predicate Enforced(s: State, r: Retarget)
    requires r.window < U64_MAX
  {
    forall d :: d in s.nodes && d != s.genesis ==> ObeysAt(s, r, d)
  }

  // ------------------------------------------------------------- samples are kept

  lemma {:induction false} ChainKept(
      g: Graph, genesis: BlockId, k: nat, gd: DataMap, id: BlockId, v: Vertex, g': Graph, gd': DataMap, d: BlockId)
    requires Solves(g, genesis, k, gd) && Grows(g, id, v, g') && d in g
    requires forall b :: b in gd ==> b in gd' && gd'[b] == gd[b]
    ensures Chain(g', gd', d) == Chain(g, gd, d)
    ensures forall b :: b in Chain(g, gd, d) ==> b in g
    decreases |Past(g, d)|
  {
    ParentGuard(g, genesis, k, gd, d);
    PastKeptByGrowth(g, genesis, id, v, g', d);
    if d != genesis {
      var sp, ms := Unfold(g, genesis, k, gd, d);
      PastKeptByGrowth(g, genesis, id, v, g', sp);
      ChainKept(g, genesis, k, gd, id, v, g', gd', sp);
    }
  }

  lemma {:induction false} SamplesKept(nodes: Nodes, nodes': Nodes, chain: seq<BlockId>)
    requires forall b :: b in chain ==> b in nodes && b in nodes' && nodes'[b].block == nodes[b].block
    ensures SamplesOf(nodes', chain) == SamplesOf(nodes, chain)
  {
    if chain != [] {
      assert chain[|chain| - 1] in chain;
      SamplesKept(nodes, nodes', chain[..|chain| - 1]);
    }
  }

  lemma OldBlocksKept(s: State, id: BlockId, block: Block)
    requires Accepts(s, id, block)
    ensures forall b :: b in s.nodes ==>
      b in Inserted(s, id, block).nodes && Inserted(s, id, block).nodes[b].block == s.nodes[b].block &&
      Inserted(s, id, block).nodes[b].ghostdag == s.nodes[b].ghostdag
    ensures id in Inserted(s, id, block).nodes && Inserted(s, id, block).nodes[id].block == block
    ensures Inserted(s, id, block).nodes[id].ghostdag == NewData(s, block)
  {
    hide NewData, PastOf;
  }

  lemma TargetKept(s: State, r: Retarget, id: BlockId, block: Block, sp: BlockId)
    requires Inv(s) && Accepts(s, id, block) && r.window < U64_MAX && sp in s.nodes
    ensures Target(Inserted(s, id, block).nodes, r, sp) == Target(s.nodes, r, sp)
  {
    InvParts(s);
    InsertedGraph(s, id, block);
    OldDataKept(s, id, block);
    OldBlocksKept(s, id, block);
    hide Inv, Inserted, Solves, GraphOf, DataMapOf, NodeAt, TipsOf, WellFormed, NewData, Accepts, NextWork, Chain, SamplesOf;
    var nodes' := Inserted(s, id, block).nodes;
    MapDomains(s.nodes);
    ChainKept(
      GraphOf(s.nodes), s.genesis, s.k, DataMapOf(s.nodes), id, block.ToVertex(), GraphOf(nodes'), DataMapOf(nodes'), sp);
    SamplesKept(s.nodes, nodes', Chain(GraphOf(s.nodes), DataMapOf(s.nodes), sp));
  }

  lemma NewParent(s: State, id: BlockId, block: Block)
    requires Inv(s) && Accepts(s, id, block) && HasData(DataMapOf(s.nodes), block.parents)
    ensures NewData(s, block).selectedParent == Some(Heaviest(DataMapOf(s.nodes), block.parents))
    ensures Heaviest(DataMapOf(s.nodes), block.parents) in s.nodes
  {
    hide Inv, Coloured;
  }

  lemma OldStillObeys(s: State, r: Retarget, id: BlockId, block: Block, d: BlockId)
    requires Inv(s) && Accepts(s, id, block) && r.window < U64_MAX && d in s.nodes && d != s.genesis
    requires ObeysAt(s, r, d)
    ensures ObeysAt(Inserted(s, id, block), r, d)
  {
    OldBlocksKept(s, id, block);
    InvParts(s);
    hide Inv, Inserted, Solves, NodeAt, TipsOf, WellFormed, NewData, Accepts, Target;
    SelectedIsStored(s, d);
    TargetKept(s, r, id, block, s.nodes[d].ghostdag.selectedParent.value);
  }

  lemma SelectedIsStored(s: State, d: BlockId)
    requires Inv(s) && d in s.nodes && d != s.genesis
    ensures s.nodes[d].ghostdag.selectedParent.Some? && s.nodes[d].ghostdag.selectedParent.value in s.nodes
  {
    InvParts(s);
    hide Inv, NodeAt, TipsOf;
    var sp, ms := Unfold(GraphOf(s.nodes), s.genesis, s.k, DataMapOf(s.nodes), d);
  }

  /** A block that obeys the rules keeps them enforced. */
  lemma InsertKeepsEnforced(s: State, r: Retarget, id: BlockId, block: Block)
    requires Inv(s) && Accepts(s, id, block) && r.window < U64_MAX && Enforced(s, r)
    requires HasData(DataMapOf(s.nodes), block.parents)
    requires Obeys(s.nodes, r, block, Heaviest(DataMapOf(s.nodes), block.parents))
    ensures Enforced(Inserted(s, id, block), r)
  {
    hide Inv, Inserted, NewData, Target, ObeysAt, Obeys, Accepts, Heaviest, DataMapOf, HasData;
    NewObeys(s, r, id, block);
    InsertedFacts(s, id, block);
    forall d | d in s.nodes && d != s.genesis
      ensures ObeysAt(Inserted(s, id, block), r, d)
    {
      OldStillObeys(s, r, id, block, d);
    }
  }

  lemma NewObeys(s: State, r: Retarget, id: BlockId, block: Block)
    requires Inv(s) && Accepts(s, id, block) && r.window < U64_MAX
    requires HasData(DataMapOf(s.nodes), block.parents)
    requires Obeys(s.nodes, r, block, Heaviest(DataMapOf(s.nodes), block.parents))
    ensures ObeysAt(Inserted(s, id, block), r, id)
  {
    hide Inv, Inserted, NewData, Target, Accepts, Heaviest, DataMapOf;
    NewParent(s, id, block);
    OldBlocksKept(s, id, block);
    TargetKept(s, r, id, block, Heaviest(DataMapOf(s.nodes), block.parents));
  }

  /** Timestamps never decrease along ancestry. */
  lemma {:induction false} TimestampsAscend(s: State, r: Retarget, a: BlockId, d: BlockId)
    requires Inv(s) && r.window < U64_MAX && Enforced(s, r)
    requires d in s.nodes && a in Past(GraphOf(s.nodes), d)
    ensures a in s.nodes && s.nodes[a].block.timestampMs <= s.nodes[d].block.timestampMs
    decreases |Past(GraphOf(s.nodes), d)|
  {
    var g := GraphOf(s.nodes);
    InvParts(s);
    GenesisHasNoPast(g, s.genesis);
    assert ObeysAt(s, r, d);
    assert KnownParents(g, g[d].parents);
    PastIsPastOfParents(g, d);
    hide Inv, Solves, Target, NodeAt, TipsOf, Enforced;
    var p :| p in g[d].parents && (a == p || a in Past(g, p));
    if a != p {
      ParentInPast(g, p, d);
      AncestorHasSmallerPast(g, s.genesis, p, d);
      TimestampsAscend(s, r, a, p);
    }
  }

  // -------------------------------------------------- which inserts are refused

  function FirstMissing(nodes: Nodes, parents: seq<BlockId>): Option<BlockId> {
    if parents == [] then None
    else if parents[0] !in nodes then Some(parents[0])
    else FirstMissing(nodes, parents[1..])
  }

  /** The first listed parent younger than the block. */
  function FirstYounger(nodes: Nodes, parents: seq<BlockId>, timestampMs: u64): Option<BlockId> {
    if parents == [] then None
    else if parents[0] in nodes && timestampMs < nodes[parents[0]].block.timestampMs then Some(parents[0])
    else FirstYounger(nodes, parents[1..], timestampMs)
  }

  lemma {:induction false} NoneMissing(nodes: Nodes, parents: seq<BlockId>)
    ensures FirstMissing(nodes, parents) == None <==> forall p :: p in parents ==> p in nodes
  {
    if parents != [] {
      assert parents == [parents[0]] + parents[1..];
      NoneMissing(nodes, parents[1..]);
    }
  }

  lemma {:induction false} NoneYounger(nodes: Nodes, parents: seq<BlockId>, timestampMs: u64)
    requires forall p :: p in parents ==> p in nodes
    ensures FirstYounger(nodes, parents, timestampMs) == None <==>
      forall p :: p in parents ==> nodes[p].block.timestampMs <= timestampMs
    ensures FirstYounger(nodes, parents, timestampMs).Some? ==> FirstYounger(nodes, parents, timestampMs).value in nodes
  {
    if parents != [] {
      assert parents == [parents[0]] + parents[1..];
      NoneYounger(nodes, parents[1..], timestampMs);
    }
  }

  datatype Policy = Policy(difficulty: Option<Retarget>, requirePow: bool)

  ghost predicate Usable(policy: Policy) {
    policy.difficulty.Some? ==> policy.difficulty.value.window < U64_MAX
  }

  /** `H * max(work, 1) < 2^256` */
  ghost predicate MinedFor(id: BlockId, work: u128) {
    id as nat * (if work == 0 then 1 else work as nat) < ID_SPACE
  }

  ghost function DifficultyRefusal(nodes: Nodes, r: Retarget, id: BlockId, block: Block): Option<DagError>
    requires r.window < U64_MAX && HasData(DataMapOf(nodes), block.parents)
  {
    var younger := FirstYounger(nodes, block.parents, block.timestampMs);
    var target := Target(nodes, r, Heaviest(DataMapOf(nodes), block.parents));
    if younger.Some? then
      Some(NonMonotonicTimestamp(
        id, block.timestampMs, if younger.value in nodes then nodes[younger.value].block.timestampMs else 0))
    else if block.work != target then Some(DifficultyMismatch(id, target, block.work))
    else None
  }

  /** Why the block is refused, if it is: the first check that fails. */
  ghost function Refusal(nodes: Nodes, policy: Policy, id: BlockId, block: Block): Option<DagError>
    requires Usable(policy)
  {
    if id in nodes then Some(DuplicateBlock(id))
    else if block.parents == [] then Some(NoParents(id))
    else if FirstMissing(nodes, block.parents).Some? then Some(MissingParent(FirstMissing(nodes, block.parents).value))
    else
      NoneMissing(nodes, block.parents);
      var difficulty :=
        if policy.difficulty.Some? then DifficultyRefusal(nodes, policy.difficulty.value, id, block) else None;
      if difficulty.Some? then difficulty
      else if policy.requirePow && !MinedFor(id, block.work) then Some(InsufficientProofOfWork(id, block.work))
      else None
  }

  /** Not refused means: structurally acceptable, obedient, and mined, as enforced. */
  lemma AcceptedIff(s: State, policy: Policy, id: BlockId, block: Block)
    requires Usable(policy)
    ensures Refusal(s.nodes, policy, id, block) == None <==>
      && Accepts(s, id, block)
      && HasData(DataMapOf(s.nodes), block.parents)
      && (policy.difficulty.Some? ==>
        Obeys(s.nodes, policy.difficulty.value, block, Heaviest(DataMapOf(s.nodes), block.parents)))
      && (policy.requirePow ==> MinedFor(id, block.work))
  {
    NoneMissing(s.nodes, block.parents);
    hide Target, Heaviest, MinedFor;
    if Accepts(s, id, block) {
      NoneYounger(s.nodes, block.parents, block.timestampMs);
    }
  }

  // ------------------------------------------------------------- payload pruning

  /** Payloads of blocks with a positive blue score below the threshold are evicted. */
  function PrunedNodes(nodes: Nodes, threshold: nat): Nodes {
    map d | d in nodes :: PrunedNode(nodes[d], threshold)
  }

  function PrunedNode(node: Node, threshold: nat): Node {
    if 0 < node.ghostdag.blueScore < threshold then node.(block := node.block.Pruned()) else node
  }

  lemma PrunedGraph(nodes: Nodes, threshold: nat)
    ensures GraphOf(PrunedNodes(nodes, threshold)) == GraphOf(nodes)
    ensures DataMapOf(PrunedNodes(nodes, threshold)) == DataMapOf(nodes)
  {
  }

  lemma PrunedNodeAt(g: Graph, nodes: Nodes, threshold: nat, d: BlockId)
    requires NodeAt(g, nodes, d)
    ensures NodeAt(g, PrunedNodes(nodes, threshold), d)
  {
  }

  lemma PruningKeepsInv(s: State, threshold: nat)
    requires Inv(s)
    ensures Inv(s.(nodes := PrunedNodes(s.nodes, threshold)))
  {
    hide Solves, TipsOf, GraphOf, DataMapOf, Inv, NodeAt, WellFormed;
    PrunedGraph(s.nodes, threshold);
    InvParts(s);
    forall d | d in PrunedNodes(s.nodes, threshold)
      ensures NodeAt(GraphOf(s.nodes), PrunedNodes(s.nodes, threshold), d)
    {
      PrunedNodeAt(GraphOf(s.nodes), s.nodes, threshold, d);
    }
    PrunedInv(s, PrunedNodes(s.nodes, threshold));
  }

  lemma PrunedInv(s: State, nodes: Nodes)
    requires Inv(s) && GraphOf(nodes) == GraphOf(s.nodes) && DataMapOf(nodes) == DataMapOf(s.nodes)
    requires forall d :: d in nodes ==> NodeAt(GraphOf(s.nodes), nodes, d)
    ensures Inv(s.(nodes := nodes))
  {
    hide Solves, TipsOf, GraphOf, DataMapOf, NodeAt;
  }

  /** The threshold: the tip's blue score less the depth; zero when disabled. */
  ghost function PruningScore(s: State, depth: u64): nat
    requires Inv(s)
  {
    var score := s.nodes[SelectedTip(s)].ghostdag.blueScore;
    if depth == U64_MAX || score < depth as nat then 0 else score - depth as nat
  }

  /** The state once the payloads the depth puts out of reach are evicted. */
  ghost function Evicted(s: State, depth: u64): State
    requires Inv(s)
  {
    s.(nodes := PrunedNodes(s.nodes, PruningScore(s, depth)))
  }

  /** The state after an accepted insert. */
  ghost function After(s: State, depth: u64, id: BlockId, block: Block): State
    requires Inv(s) && Accepts(s, id, block)
  {
    InsertKeepsInv(s, id, block);
    var t := Inserted(s, id, block);
    Evicted(t, depth)
  }

  /** What an insert answers, and the state it leaves: a refused block changes nothing. */
  ghost function Outcome(
      s: State, policy: Policy, depth: u64, id: BlockId, block: Block): (Result<BlockId, DagError>, State)
    requires Inv(s) && Usable(policy)
  {
    AcceptedIff(s, policy, id, block);
    var refusal := Refusal(s.nodes, policy, id, block);
    if refusal.Some? then (Err(refusal.value), s) else (Ok(id), After(s, depth, id, block))
  }

  ghost predicate Inserts(
      s: State, policy: Policy, depth: u64, id: BlockId, block: Block, r: Result<BlockId, DagError>, t: State) {
    Inv(s) && Usable(policy) && (r, t) == Outcome(s, policy, depth, id, block)
  }

  /** Whatever happens, an insert keeps the invariant; a structurally acceptable,
      obedient and mined block is always taken, any other never. */
  lemma OutcomeFacts(s: State, policy: Policy, depth: u64, id: BlockId, block: Block)
    requires Inv(s) && Usable(policy)
    ensures var (r, t) := Outcome(s, policy, depth, id, block);
      && Inv(t) && t.k == s.k && t.genesis == s.genesis
      && (r.Ok? <==>
        && Accepts(s, id, block)
        && HasData(DataMapOf(s.nodes), block.parents)
        && (policy.difficulty.Some? ==>
          Obeys(s.nodes, policy.difficulty.value, block, Heaviest(DataMapOf(s.nodes), block.parents)))
        && (policy.requirePow ==> MinedFor(id, block.work)))
      && GraphOf(t.nodes) == (if r.Ok? then GraphOf(s.nodes)[id := block.ToVertex()] else GraphOf(s.nodes))
  {
    hide Inv, Refusal, Inserted, NewData, Obeys, MinedFor, Heaviest, GraphOf, DataMapOf, PruningScore, PrunedNodes;
    AcceptedIff(s, policy, id, block);
    if Accepts(s, id, block) {
      InsertedFacts(s, id, block);
      InsertedGraph(s, id, block);
      InsertKeepsInv(s, id, block);
      var t := Inserted(s, id, block);
      PruningKeepsInv(t, PruningScore(t, depth));
      PrunedGraph(t.nodes, PruningScore(t, depth));
    }
  }

  lemma {:induction false} SamplesPruned(nodes: Nodes, threshold: nat, chain: seq<BlockId>)
    ensures SamplesOf(PrunedNodes(nodes, threshold), chain) == SamplesOf(nodes, chain)
  {
    if chain != [] {
      SamplesPruned(nodes, threshold, chain[..|chain| - 1]);
    }
  }

  lemma TargetPruned(nodes: Nodes, r: Retarget, threshold: nat, sp: BlockId)
    requires r.window < U64_MAX
    ensures Target(PrunedNodes(nodes, threshold), r, sp) == Target(nodes, r, sp)
  {
    hide GraphOf, DataMapOf, PrunedNodes, NextWork, Chain;
    PrunedGraph(nodes, threshold);
    SamplesPruned(nodes, threshold, Chain(GraphOf(nodes), DataMapOf(nodes), sp));
  }

  lemma PrunedStillObeys(s: State, r: Retarget, threshold: nat, d: BlockId)
    requires r.window < U64_MAX && ObeysAt(s, r, d)
    ensures ObeysAt(s.(nodes := PrunedNodes(s.nodes, threshold)), r, d)
  {
    hide Target;
    TargetPruned(s.nodes, r, threshold, s.nodes[d].ghostdag.selectedParent.value);
  }

  /** Evicting payloads keeps the difficulty enforced. */
  lemma PruningKeepsEnforced(s: State, r: Retarget, threshold: nat)
    requires r.window < U64_MAX && Enforced(s, r)
    ensures Enforced(s.(nodes := PrunedNodes(s.nodes, threshold)), r)
  {
    hide ObeysAt;
    forall d | d in PrunedNodes(s.nodes, threshold) && d != s.genesis
      ensures ObeysAt(s.(nodes := PrunedNodes(s.nodes, threshold)), r, d)
    {
      PrunedStillObeys(s, r, threshold, d);
    }
  }

  /** Every insert, accepted or refused, payload pruning on or off, keeps it enforced. */
  lemma OutcomeKeepsEnforced(s: State, policy: Policy, depth: u64, id: BlockId, block: Block)
    requires Inv(s) && Usable(policy) && policy.difficulty.Some? && Enforced(s, policy.difficulty.value)
    ensures Enforced(Outcome(s, policy, depth, id, block).1, policy.difficulty.value)
  {
    hide Inv, Refusal, Inserted, Obeys, ObeysAt, Enforced, MinedFor, Heaviest, GraphOf, DataMapOf, PruningScore, PrunedNodes;
    hide HasData, Accepts;
    AcceptedIff(s, policy, id, block);
    if Refusal(s.nodes, policy, id, block).None? {
      InsertKeepsInv(s, id, block);
      InsertKeepsEnforced(s, policy.difficulty.value, id, block);
      var t := Inserted(s, id, block);
      PruningKeepsEnforced(t, policy.difficulty.value, PruningScore(t, depth));
    }
  }

  // ------------------------------------------------------------------- whole runs

  /** Offer the entries in order; refused ones change nothing. */
  ghost function StateAfter(s: State, policy: Policy, depth: u64, entries: seq<Entry>): (t: State)
    requires Inv(s) && Usable(policy)
    ensures Inv(t) && t.k == s.k && t.genesis == s.genesis
  {
    if entries == [] then s
    else
      var front := StateAfter(s, policy, depth, entries[..|entries| - 1]);
      var last := entries[|entries| - 1];
      OutcomeFacts(front, policy, depth, last.id, last.block);
      Outcome(front, policy, depth, last.id, last.block).1
  }

  /** With difficulty enforced from genesis on, whatever blocks are offered, and with
      payloads pruned or not, every stored block's work is the retarget of its whole
      selected chain and no stored block is older than a parent. */
  lemma {:induction false} RunIsEnforced(k: nat, genesis: Block, policy: Policy, depth: u64, entries: seq<Entry>)
    requires genesis.parents == [] && Usable(policy) && policy.difficulty.Some?
    ensures Inv(Genesis(k, genesis))
    ensures Enforced(StateAfter(Genesis(k, genesis), policy, depth, entries), policy.difficulty.value)
    decreases |entries|
  {
    GenesisInv(k, genesis);
    var s := Genesis(k, genesis);
    if entries == [] {
      assert StateAfter(s, policy, depth, []) == s;
    } else {
      hide Inv, Enforced, Outcome, Genesis;
      var front, last := entries[..|entries| - 1], entries[|entries| - 1];
      RunIsEnforced(k, genesis, policy, depth, front);
      OutcomeKeepsEnforced(StateAfter(s, policy, depth, front), policy, depth, last.id, last.block);
    }
  }
}
