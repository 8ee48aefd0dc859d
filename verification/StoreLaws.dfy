/** What an insert does, in plain terms: which blocks are refused and why, what the store
    holds afterwards, and which payloads are gone. */
module StoreLaws {
  import opened BlockGraph
  import opened Blocks
  import opened Consensus
  import opened Difficulty
  import opened Enforcement
  import opened Ghostdag
  import opened Laws
  import opened Ordering
  import opened OrderLaws
  import opened Words
  import opened Wrappers

  // ------------------------------------------------------------------- payloads

  /** Pruning is on, and the block's positive score is more than `depth` below the tip's. */
  ghost predicate OutOfReach(nodes: Nodes, tip: BlockId, depth: u64, d: BlockId)
    requires tip in nodes && d in nodes
  {
    && depth != U64_MAX && 0 < nodes[d].ghostdag.blueScore
    && nodes[d].ghostdag.blueScore + depth as nat < nodes[tip].ghostdag.blueScore
  }

  /** Exactly the payloads out of reach are gone, and nothing else differs. */
  ghost predicate PayloadsEvicted(before: Nodes, after: Nodes, tip: BlockId, depth: u64) {
    && tip in before && after.Keys == before.Keys
    && forall d :: d in before ==>
      && after[d].block ==
        before[d].block.(payload := if OutOfReach(before, tip, depth, d) then None else before[d].block.payload)
      && after[d].pastSize == before[d].pastSize && after[d].children == before[d].children
      && after[d].ghostdag == before[d].ghostdag
  }

  /** Of two blocks `u` ranks no higher: less blue work, else a lower blue score, else no
      larger an id. */
  ghost predicate NoHigher(nodes: Nodes, u: BlockId, t: BlockId)
    requires u in nodes && t in nodes
  {
    var lo, hi := nodes[u].ghostdag, nodes[t].ghostdag;
    && lo.blueWork <= hi.blueWork
    && (lo.blueWork == hi.blueWork ==> lo.blueScore <= hi.blueScore)
    && (lo.blueWork == hi.blueWork && lo.blueScore == hi.blueScore ==> u <= t)
  }

  /** Of the tips, `t` ranks highest. */
  ghost predicate TopTip(nodes: Nodes, tips: set<BlockId>, t: BlockId) {
    t in tips && t in nodes && forall u :: u in tips ==> u in nodes && NoHigher(nodes, u, t)
  }

  lemma SelectedTipIsTop(s: State, t: BlockId)
    requires IsSelectedTip(s, t) && s.tips <= s.nodes.Keys
    ensures TopTip(s.nodes, s.tips, t)
  {
    hide Lighter, DataMapOf;
    MapDomains(s.nodes);
    DataAreStored(s.nodes);
    forall u | u in s.tips
      ensures NoHigher(s.nodes, u, t)
    {
      RankIsLighter(DataMapOf(s.nodes), u, t);
    }
  }

  lemma DataAreStored(nodes: Nodes)
    ensures forall d :: d in nodes ==> d in DataMapOf(nodes) && DataMapOf(nodes)[d] == nodes[d].ghostdag
  {
  }

  lemma TopTipOnce(nodes: Nodes, tips: set<BlockId>, t: BlockId, t': BlockId)
    requires TopTip(nodes, tips, t) && TopTip(nodes, tips, t')
    ensures t == t'
  {
  }

  lemma TopTipIsStored(s: State, t: BlockId)
    requires TopTip(s.nodes, s.tips, t)
    ensures t in s.nodes
  {
  }

  lemma EvictedPlainly(s: State, depth: u64)
    requires Inv(s)
    ensures SelectedTip(s) in s.nodes
    ensures PayloadsEvicted(s.nodes, Evicted(s, depth).nodes, SelectedTip(s), depth)
    ensures Evicted(s, depth) == s.(nodes := Evicted(s, depth).nodes)
  {
    hide Inv;
    var tip := SelectedTip(s);
    forall d | d in s.nodes
      ensures 0 < s.nodes[d].ghostdag.blueScore < PruningScore(s, depth) <==> OutOfReach(s.nodes, tip, depth, d)
    {
    }
    hide PruningScore, OutOfReach;
    PrunedPlainly(s.nodes, PruningScore(s, depth), tip, depth);
  }

  lemma EvictionIsPlain(s: State, depth: u64)
    requires Inv(s)
    ensures var t := Evicted(s, depth);
      exists tip :: TopTip(s.nodes, s.tips, tip) && PayloadsEvicted(s.nodes, t.nodes, tip, depth)
  {
    hide Inv, TopTip, PayloadsEvicted, Evicted, IsSelectedTip;
    TipsAreStored(s);
    SelectedTipIsTop(s, SelectedTip(s));
    EvictedPlainly(s, depth);
  }

  lemma PrunedPlainly(nodes: Nodes, threshold: nat, tip: BlockId, depth: u64)
    requires tip in nodes
    requires forall d :: d in nodes ==>
      (0 < nodes[d].ghostdag.blueScore < threshold <==> OutOfReach(nodes, tip, depth, d))
    ensures PayloadsEvicted(nodes, PrunedNodes(nodes, threshold), tip, depth)
  {
    hide OutOfReach;
  }

  // ----------------------------------------------------------------- difficulty

  /** The times and works of the listed blocks. */
  ghost predicate SampledFrom(nodes: Nodes, chain: seq<BlockId>, samples: seq<TimedWork>) {
    |samples| == |chain| && forall i :: 0 <= i < |chain| ==>
      && chain[i] in nodes
      && samples[i] == TimedWork(nodes[chain[i]].block.timestampMs, nodes[chain[i]].block.work)
  }

  /** `w` is the work required after the chain from genesis to `sp`. */
  ghost predicate TargetOf(nodes: Nodes, genesis: BlockId, r: Retarget, sp: BlockId, w: nat) {
    exists chain, samples ::
      IsChain(DataMapOf(nodes), genesis, sp, chain) && SampledFrom(nodes, chain, samples) && IsTarget(r, samples, w)
  }

  lemma {:induction false} ChainIsSampled(nodes: Nodes, chain: seq<BlockId>)
    requires forall b :: b in chain ==> b in nodes
    ensures SampledFrom(nodes, chain, SamplesOf(nodes, chain))
  {
    if chain != [] {
      var n := |chain| - 1;
      ChainIsSampled(nodes, chain[..n]);
      assert chain[n] in chain;
      assert forall i :: 0 <= i < n ==> chain[i] == chain[..n][i];
    }
  }

  lemma TargetIsPlain(s: State, r: Retarget, sp: BlockId)
    requires Inv(s) && sp in s.nodes && r.window < U64_MAX
    ensures TargetOf(s.nodes, s.genesis, r, sp, Target(s.nodes, r, sp) as nat)
  {
    hide Inv, Solves, Chain, IsChain, IsTarget, NextWork, GraphOf, DataMapOf;
    var g, gd := GraphOf(s.nodes), DataMapOf(s.nodes);
    InvParts(s);
    MapDomains(s.nodes);
    ChainIsChain(g, s.genesis, s.k, gd, sp);
    var chain := Chain(g, gd, sp);
    ChainIsStored(gd, s.genesis, sp, chain);
    ChainIsSampled(s.nodes, chain);
    NextWorkIsTarget(r, SamplesOf(s.nodes, chain));
  }

  lemma ChainIsStored(gd: DataMap, genesis: BlockId, tip: BlockId, chain: seq<BlockId>)
    requires IsChain(gd, genesis, tip, chain)
    ensures forall b :: b in chain ==> b in gd
  {
  }

  lemma SampledOnce(nodes: Nodes, chain: seq<BlockId>, samples: seq<TimedWork>, samples': seq<TimedWork>)
    requires SampledFrom(nodes, chain, samples) && SampledFrom(nodes, chain, samples')
    ensures samples == samples'
  {
  }

  lemma TargetOfOnce(nodes: Nodes, genesis: BlockId, r: Retarget, sp: BlockId, w: nat, w': nat)
    requires TargetOf(nodes, genesis, r, sp, w) && TargetOf(nodes, genesis, r, sp, w')
    ensures w == w'
  {
    hide IsChain, IsTarget, SampledFrom;
    var gd := DataMapOf(nodes);
    var chain, samples :| IsChain(gd, genesis, sp, chain) && SampledFrom(nodes, chain, samples) && IsTarget(r, samples, w);
    var chain', samples' :|
      IsChain(gd, genesis, sp, chain') && SampledFrom(nodes, chain', samples') && IsTarget(r, samples', w');
    ChainOnce(gd, genesis, sp, chain, chain');
    SampledOnce(nodes, chain, samples, samples');
    TargetOnce(r, samples, w, w');
  }

  // -------------------------------------------------------------------- refusals

  ghost predicate FirstUnknown(nodes: Nodes, parents: seq<BlockId>, i: nat) {
    i < |parents| && parents[i] !in nodes && forall j :: 0 <= j < i ==> parents[j] in nodes
  }

  ghost predicate Younger(nodes: Nodes, p: BlockId, timestampMs: u64) {
    p in nodes && timestampMs < nodes[p].block.timestampMs
  }

  ghost predicate FirstTooYoung(nodes: Nodes, parents: seq<BlockId>, timestampMs: u64, i: nat) {
    && i < |parents| && Younger(nodes, parents[i], timestampMs)
    && forall j :: 0 <= j < i ==> !Younger(nodes, parents[j], timestampMs)
  }

  /** What the difficulty rules say of a block selecting `sp`. */
  ghost predicate DifficultyAnswer(
      s: State, r: Retarget, id: BlockId, block: Block, sp: BlockId, answer: Option<DagError>) {
    if exists p :: p in block.parents && Younger(s.nodes, p, block.timestampMs) then
      exists i: nat ::
        && FirstTooYoung(s.nodes, block.parents, block.timestampMs, i)
        && answer == Some(
          NonMonotonicTimestamp(id, block.timestampMs, s.nodes[block.parents[i]].block.timestampMs))
    else
      exists w: u128 ::
        TargetOf(s.nodes, s.genesis, r, sp, w as nat) && answer == WorkAnswer(id, block, w)
  }

  ghost function WorkAnswer(id: BlockId, block: Block, w: u128): Option<DagError> {
    if block.work == w then None else Some(DifficultyMismatch(id, w, block.work))
  }

  /** The id, read as a number, is too large for the work. */
  ghost predicate Unmined(id: BlockId, work: u128) {
    ID_SPACE <= id as nat * (if work == 0 then 1 else work as nat)
  }

  /** The difficulty's reason goes before the want of work. */
  ghost predicate AnsweredBy(
      policy: Policy, id: BlockId, block: Block, difficulty: Option<DagError>, answer: Option<DagError>) {
    answer ==
      if difficulty.Some? then difficulty
      else if policy.requirePow && Unmined(id, block.work) then Some(InsufficientProofOfWork(id, block.work))
      else None
  }

  /** The reason to refuse the block, the first one there is. */
  ghost predicate Answers(s: State, policy: Policy, id: BlockId, block: Block, answer: Option<DagError>) {
    if id in s.nodes then answer == Some(DuplicateBlock(id))
    else if block.parents == [] then answer == Some(NoParents(id))
    else if exists p :: p in block.parents && p !in s.nodes then
      exists i: nat :: FirstUnknown(s.nodes, block.parents, i) && answer == Some(MissingParent(block.parents[i]))
    else
      exists sp, difficulty ::
        && Selects(DataMapOf(s.nodes), block.parents, sp)
        && DifficultyChecked(s, policy, id, block, sp, difficulty)
        && AnsweredBy(policy, id, block, difficulty, answer)
  }

  ghost predicate DifficultyChecked(
      s: State, policy: Policy, id: BlockId, block: Block, sp: BlockId, answer: Option<DagError>) {
    if policy.difficulty.Some? then DifficultyAnswer(s, policy.difficulty.value, id, block, sp, answer)
    else answer == None
  }

  lemma {:induction false} FirstMissingIs(nodes: Nodes, parents: seq<BlockId>) returns (i: nat)
    requires exists p :: p in parents && p !in nodes
    ensures FirstUnknown(nodes, parents, i) && FirstMissing(nodes, parents) == Some(parents[i])
  {
    if parents[0] !in nodes {
      i := 0;
    } else {
      assert parents == [parents[0]] + parents[1..];
      var p :| p in parents && p !in nodes;
      assert p in parents[1..];
      var j := FirstMissingIs(nodes, parents[1..]);
      i := j + 1;
      assert forall n :: 0 < n < i ==> parents[n] == parents[1..][n - 1];
    }
  }

  lemma {:induction false} FirstYoungerIs(nodes: Nodes, parents: seq<BlockId>, timestampMs: u64) returns (i: nat)
    requires exists p :: p in parents && Younger(nodes, p, timestampMs)
    ensures FirstTooYoung(nodes, parents, timestampMs, i)
    ensures FirstYounger(nodes, parents, timestampMs) == Some(parents[i])
  {
    if Younger(nodes, parents[0], timestampMs) {
      i := 0;
    } else {
      var p :| p in parents && Younger(nodes, p, timestampMs);
      assert parents == [parents[0]] + parents[1..];
      hide Younger;
      var j := FirstYoungerIs(nodes, parents[1..], timestampMs);
      FirstOneLater(nodes, parents, timestampMs, j);
      i := j + 1;
      assert FirstYounger(nodes, parents, timestampMs) == FirstYounger(nodes, parents[1..], timestampMs) by {
        assert !Younger(nodes, parents[0], timestampMs);
        YoungerSkips(nodes, parents, timestampMs);
      }
    }
  }

  lemma YoungerSkips(nodes: Nodes, parents: seq<BlockId>, timestampMs: u64)
    requires parents != [] && !Younger(nodes, parents[0], timestampMs)
    ensures FirstYounger(nodes, parents, timestampMs) == FirstYounger(nodes, parents[1..], timestampMs)
  {
  }

  lemma FirstOneLater(nodes: Nodes, parents: seq<BlockId>, timestampMs: u64, j: nat)
    requires parents != [] && !Younger(nodes, parents[0], timestampMs)
    requires FirstTooYoung(nodes, parents[1..], timestampMs, j)
    ensures FirstTooYoung(nodes, parents, timestampMs, j + 1)
  {
    hide Younger;
    forall n | 0 < n < j + 1
      ensures !Younger(nodes, parents[n], timestampMs)
    {
      assert parents[n] == parents[1..][n - 1];
    }
  }

  lemma DifficultyIsPlain(s: State, r: Retarget, id: BlockId, block: Block)
    requires Inv(s) && r.window < U64_MAX && HasData(DataMapOf(s.nodes), block.parents)
    requires forall p :: p in block.parents ==> p in s.nodes
    ensures DifficultyAnswer(
      s, r, id, block, Heaviest(DataMapOf(s.nodes), block.parents), DifficultyRefusal(s.nodes, r, id, block))
  {
    hide Inv, Target, TargetOf, FirstYounger;
    var sp := Heaviest(DataMapOf(s.nodes), block.parents);
    NoneYounger(s.nodes, block.parents, block.timestampMs);
    if exists p :: p in block.parents && Younger(s.nodes, p, block.timestampMs) {
      var i := FirstYoungerIs(s.nodes, block.parents, block.timestampMs);
    } else {
      assert sp in s.nodes;
      forall p | p in block.parents
        ensures s.nodes[p].block.timestampMs <= block.timestampMs
      {
        assert !Younger(s.nodes, p, block.timestampMs);
      }
      TargetIsPlain(s, r, sp);
      assert DifficultyRefusal(s.nodes, r, id, block) == WorkAnswer(id, block, Target(s.nodes, r, sp));
    }
  }

  /** The answer of the checks is this one. */
  lemma RefusalIsPlain(s: State, policy: Policy, id: BlockId, block: Block)
    requires Inv(s) && Usable(policy)
    ensures Answers(s, policy, id, block, Refusal(s.nodes, policy, id, block))
  {
    hide Inv, DifficultyRefusal, DifficultyAnswer, FirstMissing, Heaviest, DataMapOf, Selects;
    NoneMissing(s.nodes, block.parents);
    if id !in s.nodes && block.parents != [] {
      if exists p :: p in block.parents && p !in s.nodes {
        var i := FirstMissingIs(s.nodes, block.parents);
      } else {
        MapDomains(s.nodes);
        var sp := Heaviest(DataMapOf(s.nodes), block.parents);
        HeaviestIsSelected(DataMapOf(s.nodes), block.parents);
        var difficulty :=
          if policy.difficulty.Some? then DifficultyRefusal(s.nodes, policy.difficulty.value, id, block) else None;
        if policy.difficulty.Some? {
          DifficultyIsPlain(s, policy.difficulty.value, id, block);
        }
        assert DifficultyChecked(s, policy, id, block, sp, difficulty);
        MinedIsPlain(id, block.work);
      }
    }
  }

  lemma MinedIsPlain(id: BlockId, work: u128)
    ensures MinedFor(id, work) <==> !Unmined(id, work)
  {
  }

  /** And there is only one. */
  lemma AnswersOnce(s: State, policy: Policy, id: BlockId, block: Block, a: Option<DagError>, a': Option<DagError>)
    requires Answers(s, policy, id, block, a) && Answers(s, policy, id, block, a')
    ensures a == a'
  {
    hide Selects, DifficultyChecked, Unmined;
    if id !in s.nodes && block.parents != [] {
      if exists p :: p in block.parents && p !in s.nodes {
      } else {
        var sp, d :| Selects(DataMapOf(s.nodes), block.parents, sp) && DifficultyChecked(s, policy, id, block, sp, d)
          && AnsweredBy(policy, id, block, d, a);
        var sp', d' :| Selects(DataMapOf(s.nodes), block.parents, sp') && DifficultyChecked(s, policy, id, block, sp', d')
          && AnsweredBy(policy, id, block, d', a');
        SelectsOnce(DataMapOf(s.nodes), block.parents, sp, sp');
        DifficultyOnce(s, policy, id, block, sp, d, d');
      }
    }
  }

  lemma DifficultyOnce(
      s: State, policy: Policy, id: BlockId, block: Block, sp: BlockId, a: Option<DagError>, a': Option<DagError>)
    requires DifficultyChecked(s, policy, id, block, sp, a) && DifficultyChecked(s, policy, id, block, sp, a')
    ensures a == a'
  {
    hide TargetOf, WorkAnswer;
    if policy.difficulty.Some? {
      var r := policy.difficulty.value;
      if exists p :: p in block.parents && Younger(s.nodes, p, block.timestampMs) {
      } else {
        var w: u128 :| TargetOf(s.nodes, s.genesis, r, sp, w as nat) && a == WorkAnswer(id, block, w);
        var w': u128 :| TargetOf(s.nodes, s.genesis, r, sp, w' as nat) && a' == WorkAnswer(id, block, w');
        TargetOfOnce(s.nodes, s.genesis, r, sp, w as nat, w' as nat);
      }
    }
  }

  // --------------------------------------------------------------------- growth

  /** The stored form of the new block: its data, its mergeset `ms`, no children yet. */
  ghost predicate NewEntry(s: State, block: Block, ms: seq<BlockId>, node: Node) {
    && node.block == block && node.children == {}
    && Follows(GraphOf(s.nodes), DataMapOf(s.nodes), s.k, block.parents, ms, node.ghostdag)
    && node.ghostdag.selectedParent.value in s.nodes
    && node.pastSize == s.nodes[node.ghostdag.selectedParent.value].pastSize + 1 + |ms|
  }

  /** A block stored before stays as it was; each parent has one more child. */
  ghost predicate OldEntry(id: BlockId, parents: seq<BlockId>, before: Node, after: Node, d: BlockId) {
    && after.block == before.block && after.pastSize == before.pastSize && after.ghostdag == before.ghostdag
    && forall c :: c in after.children <==> c in before.children || (c == id && d in parents)
  }

  /** The block joins as a tip and as a child of each parent. */
  ghost predicate Joined(s: State, id: BlockId, block: Block, ms: seq<BlockId>, nodes: Nodes, tips: set<BlockId>) {
    && nodes.Keys == s.nodes.Keys + {id} && NewEntry(s, block, ms, nodes[id])
    && (forall d :: d in s.nodes ==> OldEntry(id, block.parents, s.nodes[d], nodes[d], d))
    && forall d :: d in tips <==> d == id || (d in s.tips && d !in block.parents)
  }

  /** The store after taking the block: it joins, and the payloads now out of reach go. */
  ghost predicate Grown(s: State, depth: u64, id: BlockId, block: Block, t: State) {
    && t.k == s.k && t.genesis == s.genesis
    && exists ms, nodes, tip ::
      && Joined(s, id, block, ms, nodes, t.tips) && TopTip(nodes, t.tips, tip)
      && PayloadsEvicted(nodes, t.nodes, tip, depth)
  }

  lemma InsertedJoins(s: State, id: BlockId, block: Block) returns (ms: seq<BlockId>)
    requires Inv(s) && Accepts(s, id, block)
    ensures Joined(s, id, block, ms, Inserted(s, id, block).nodes, Inserted(s, id, block).tips)
  {
    hide NewEntry, Inv, SetOf, Inserted, Accepts;
    InsertedFacts(s, id, block);
    ListedIffMember(block.parents);
    ms := EntryIsNew(s, id, block);
    forall d | d in s.nodes
      ensures OldEntry(id, block.parents, s.nodes[d], Inserted(s, id, block).nodes[d], d)
    {
      EntryIsOld(s, id, block, d);
    }
  }

  lemma EntryIsOld(s: State, id: BlockId, block: Block, d: BlockId)
    requires Accepts(s, id, block) && d in s.nodes
    ensures d in Inserted(s, id, block).nodes
    ensures OldEntry(id, block.parents, s.nodes[d], Inserted(s, id, block).nodes[d], d)
  {
    hide NewData, PastOf;
  }

  lemma ListedIffMember(s: seq<BlockId>)
    ensures forall p :: p in SetOf(s) <==> p in s
  {
  }

  lemma EntryIsNew(s: State, id: BlockId, block: Block) returns (ms: seq<BlockId>)
    requires Inv(s) && Accepts(s, id, block)
    ensures id in Inserted(s, id, block).nodes && NewEntry(s, block, ms, Inserted(s, id, block).nodes[id])
  {
    hide Inv, Solves, WellFormed, GraphOf, DataMapOf, Follows, NewData, Past, PastOf, Mergeset, Heaviest, NodeAt, WithChild;
    var g, gd := GraphOf(s.nodes), DataMapOf(s.nodes);
    InvParts(s);
    MapDomains(s.nodes);
    DataFollows(g, s.genesis, s.k, gd, block.parents);
    var sp := Heaviest(gd, block.parents);
    ms := Mergeset(g, sp, block.parents);
    NewSelects(s, block);
    PastCounts(s, block.parents, sp);
    NewDataIs(s, block);
  }

  lemma NewDataIs(s: State, block: Block)
    requires HasData(DataMapOf(s.nodes), block.parents)
    ensures NewData(s, block) == DataOf(GraphOf(s.nodes), s.k, DataMapOf(s.nodes), block.parents)
  {
  }

  lemma NewSelects(s: State, block: Block)
    requires HasData(DataMapOf(s.nodes), block.parents)
    ensures NewData(s, block).selectedParent == Some(Heaviest(DataMapOf(s.nodes), block.parents))
    ensures Heaviest(DataMapOf(s.nodes), block.parents) in s.nodes
    ensures Heaviest(DataMapOf(s.nodes), block.parents) in block.parents
  {
    hide Coloured;
  }

  /** Everything below a new block: what is below the selected parent, that one, and the
      mergeset. */
  lemma PastCounts(s: State, parents: seq<BlockId>, sp: BlockId)
    requires Inv(s) && sp in s.nodes && sp in parents
    ensures |PastOf(GraphOf(s.nodes), parents)| ==
      s.nodes[sp].pastSize + 1 + |Mergeset(GraphOf(s.nodes), sp, parents)|
  {
    hide Inv, Solves, GraphOf, Past, PastOf, TipsOf, TopoOrder.Ordered;
    InvParts(s);
    MapDomains(s.nodes);
    var g := GraphOf(s.nodes);
    assert NodeAt(g, s.nodes, sp);
    var ms := Mergeset(g, sp, parents);
    PastKnown(g, parents);
    NotBelowItself(g, s.genesis, sp);
    MergesetCounts(g, sp, parents);
    PastParts(PastOf(g, parents), Past(g, sp), sp);
  }

  lemma MergesetCounts(g: Graph, sp: BlockId, parents: seq<BlockId>)
    ensures |Mergeset(g, sp, parents)| == |PastOf(g, parents) - Past(g, sp) - {sp}|
  {
    hide Past, PastOf;
    TopoOrder.OrderedDistinct(g, MergedSet(g, sp, parents), Mergeset(g, sp, parents));
    var ms := Mergeset(g, sp, parents);
    assert SetOf(ms) == MergedSet(g, sp, parents);
    DistinctCount(ms);
  }

  lemma PastParts(all: set<BlockId>, past: set<BlockId>, sp: BlockId)
    requires past <= all && sp in all && sp !in past
    ensures |all| == |past| + 1 + |all - past - {sp}|
  {
    assert all == (past + {sp}) + (all - past - {sp});
  }

  lemma AfterIsPlain(s: State, depth: u64, id: BlockId, block: Block)
    requires Inv(s) && Accepts(s, id, block)
    ensures Grown(s, depth, id, block, After(s, depth, id, block))
  {
    InsertKeepsInv(s, id, block);
    hide Inv, Inserted, Joined, TopTip, PayloadsEvicted, IsSelectedTip, Accepts, Evicted;
    var u := Inserted(s, id, block);
    var ms := InsertedJoins(s, id, block);
    TipsAreStored(u);
    SelectedTipIsTop(u, SelectedTip(u));
    EvictedPlainly(u, depth);
    InsertedFacts(s, id, block);
  }

  lemma TipsAreStored(s: State)
    requires Inv(s)
    ensures s.tips <= s.nodes.Keys && IsSelectedTip(s, SelectedTip(s))
  {
    InvParts(s);
    hide Inv, IsSelectedTip;
  }

  /** And there is only one such store. */
  lemma GrownOnce(s: State, depth: u64, id: BlockId, block: Block, t: State, t': State)
    requires Grown(s, depth, id, block, t) && Grown(s, depth, id, block, t') && id !in s.nodes
    ensures t == t'
  {
    hide Joined, TopTip, PayloadsEvicted;
    var ms, nodes, tip :|
      Joined(s, id, block, ms, nodes, t.tips) && TopTip(nodes, t.tips, tip) && PayloadsEvicted(nodes, t.nodes, tip, depth);
    var ms', nodes', tip' :|
      && Joined(s, id, block, ms', nodes', t'.tips) && TopTip(nodes', t'.tips, tip')
      && PayloadsEvicted(nodes', t'.nodes, tip', depth);
    JoinedOnce(s, id, block, ms, nodes, t.tips, ms', nodes', t'.tips);
    TopTipOnce(nodes, t.tips, tip, tip');
    EvictedOnce(nodes, t.nodes, t'.nodes, tip, depth);
  }

  lemma JoinedOnce(
      s: State, id: BlockId, block: Block, ms: seq<BlockId>, nodes: Nodes, tips: set<BlockId>, ms': seq<BlockId>,
      nodes': Nodes, tips': set<BlockId>)
    requires Joined(s, id, block, ms, nodes, tips) && Joined(s, id, block, ms', nodes', tips') && id !in s.nodes
    ensures nodes == nodes' && tips == tips'
  {
    hide NewEntry;
    EntryOnce(s, block, ms, nodes[id], ms', nodes'[id]);
    forall d | d in s.nodes
      ensures nodes[d] == nodes'[d]
    {
      assert OldEntry(id, block.parents, s.nodes[d], nodes[d], d) && OldEntry(id, block.parents, s.nodes[d], nodes'[d], d);
      assert nodes[d].children == nodes'[d].children;
    }
  }

  lemma EntryOnce(s: State, block: Block, ms: seq<BlockId>, node: Node, ms': seq<BlockId>, node': Node)
    requires NewEntry(s, block, ms, node) && NewEntry(s, block, ms', node')
    ensures node == node'
  {
    hide Follows, GraphOf, DataMapOf;
    FollowsOnce(GraphOf(s.nodes), DataMapOf(s.nodes), s.k, block.parents, ms, node.ghostdag, ms', node'.ghostdag);
  }

  lemma EvictedOnce(before: Nodes, after: Nodes, after': Nodes, tip: BlockId, depth: u64)
    requires PayloadsEvicted(before, after, tip, depth) && PayloadsEvicted(before, after', tip, depth)
    ensures after == after'
  {
    hide OutOfReach;
    forall d | d in before
      ensures after[d] == after'[d]
    {
    }
  }

  /** An insert answers with the first reason to refuse and then changes nothing, or takes
      the block. */
  ghost predicate Takes(
      s: State, policy: Policy, depth: u64, id: BlockId, block: Block, r: Result<BlockId, DagError>, t: State) {
    if r.Err? then Answers(s, policy, id, block, Some(r.error)) && t == s
    else r == Ok(id) && Answers(s, policy, id, block, None) && Grown(s, depth, id, block, t)
  }

  lemma OutcomeIsPlain(
      s: State, policy: Policy, depth: u64, id: BlockId, block: Block, r: Result<BlockId, DagError>, t: State)
    requires Inserts(s, policy, depth, id, block, r, t)
    ensures Takes(s, policy, depth, id, block, r, t)
  {
    hide Inv, Refusal, Answers, Grown, After, Accepts, HasData, Obeys;
    AcceptedIff(s, policy, id, block);
    RefusalIsPlain(s, policy, id, block);
    if r.Ok? {
      AfterIsPlain(s, depth, id, block);
    }
  }

  /** The rules leave no choice: a store, a policy and a block have one answer and one
      store to follow. */
  lemma TakesOnce(
      s: State, policy: Policy, depth: u64, id: BlockId, block: Block, r: Result<BlockId, DagError>, t: State,
      r': Result<BlockId, DagError>, t': State)
    requires Takes(s, policy, depth, id, block, r, t) && Takes(s, policy, depth, id, block, r', t')
    ensures r == r' && t == t'
  {
    hide Answers, Grown;
    var a := if r.Err? then Some(r.error) else None;
    var a' := if r'.Err? then Some(r'.error) else None;
    AnswersOnce(s, policy, id, block, a, a');
    if r.Ok? {
      TakenIsNew(s, policy, id, block);
      GrownOnce(s, depth, id, block, t, t');
    }
  }

  lemma TakenIsNew(s: State, policy: Policy, id: BlockId, block: Block)
    requires Answers(s, policy, id, block, None)
    ensures id !in s.nodes
  {
  }

  // ------------------------------------------------------------ data and the order

  /** The data of a block on these parents, in the store `s`. */
  lemma DataIsPlain(s: State, parents: seq<BlockId>)
    requires Inv(s) && HasData(DataMapOf(s.nodes), parents)
    ensures var data := DataOf(GraphOf(s.nodes), s.k, DataMapOf(s.nodes), parents);
      exists ms :: Follows(GraphOf(s.nodes), DataMapOf(s.nodes), s.k, parents, ms, data)
  {
    hide Inv, Solves, Follows, DataOf, GraphOf, DataMapOf, HasData, Mergeset;
    InvParts(s);
    DataFollows(GraphOf(s.nodes), s.genesis, s.k, DataMapOf(s.nodes), parents);
  }

  /** The selected chain up to the top tip, each block after what it merges, then the rest. */
  ghost predicate Totals(s: State, order: seq<BlockId>) {
    exists tip, chain, at ::
      && TopTip(s.nodes, s.tips, tip) && IsChain(DataMapOf(s.nodes), s.genesis, tip, chain)
      && Linear(GraphOf(s.nodes), tip, chain, order, at)
  }

  lemma OrderIsPlain(s: State)
    requires Inv(s)
    ensures Totals(s, TotalOrder(s))
  {
    hide Inv, Solves, TopTip, IsChain, Linear, IsSelectedTip, GraphOf, DataMapOf, Linearized, Chain;
    var g, gd, tip := GraphOf(s.nodes), DataMapOf(s.nodes), SelectedTip(s);
    InvParts(s);
    MapDomains(s.nodes);
    TipsAreStored(s);
    SelectedTipIsTop(s, tip);
    TopTipIsStored(s, tip);
    ChainIsChain(g, s.genesis, s.k, gd, tip);
    var at := LinearizedIsLinear(g, s.genesis, s.k, gd, tip);
  }

  /** And there is only one. */
  lemma TotalsOnce(s: State, order: seq<BlockId>, order': seq<BlockId>)
    requires Totals(s, order) && Totals(s, order')
    ensures order == order'
  {
    hide TopTip, IsChain, Linear;
    var g, gd := GraphOf(s.nodes), DataMapOf(s.nodes);
    var tip, chain, at :|
      TopTip(s.nodes, s.tips, tip) && IsChain(gd, s.genesis, tip, chain) && Linear(g, tip, chain, order, at);
    var tip', chain', at' :|
      TopTip(s.nodes, s.tips, tip') && IsChain(gd, s.genesis, tip', chain') && Linear(g, tip', chain', order', at');
    TopTipOnce(s.nodes, s.tips, tip, tip');
    ChainOnce(gd, s.genesis, tip, chain, chain');
    LinearOnce(g, tip, chain, order, at, order', at');
  }
}
