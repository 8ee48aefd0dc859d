/** The block store: fields updated in place, each method proved against the abstract
    state machine, with every ancestry question answered by the oracle. */
module Dag {
  import opened BlockGraph
  import opened Blocks
  import opened Consensus
  import opened Difficulty
  import opened Enforcement
  import opened Ghostdag
  import opened KCluster
  import opened Laws
  import opened MergesetWalk
  import opened Ordering
  import opened OrderLaws
  import opened StoreLaws
  import opened TopoOrder
  import opened Words
  import opened Wrappers
  import IntervalTree
  import OracleBuild
  import ProofOfWork
  import Oracle = Reachability

  function SelectedOf(nodes: Nodes): map<BlockId, BlockId> {
    map d | d in nodes && nodes[d].ghostdag.selectedParent.Some? :: nodes[d].ghostdag.selectedParent.value
  }

  function SizesOf(nodes: Nodes): map<BlockId, nat> {
    map d | d in nodes :: nodes[d].pastSize
  }

  class Dag {
    var k: nat
    var genesis: BlockId
    var nodes: Nodes
    var tips: set<BlockId>
    var reach: Oracle.Reachability
    var difficulty: Option<Retarget>
    var requirePow: bool
    var payloadPruningDepth: u64

    ghost function StateOf(): State
      reads this`k, this`genesis, this`nodes, this`tips
    {
      State(k, genesis, nodes, tips)
    }

    function PolicyOf(): Policy
      reads this`difficulty, this`requirePow
    {
      Policy(difficulty, requirePow)
    }

    /** The stored state is a consensus state, and the oracle knows every past in it. */
    ghost predicate Valid()
      reads this, reach
    {
      Inv(StateOf()) && OracleFits()
    }

    ghost predicate OracleFits()
      reads this`nodes, this`genesis, this`reach, reach
    {
      OracleBuild.Serves(reach, GraphOf(nodes), genesis, SelectedOf(nodes))
    }

    /** A DAG seeded with its genesis block, no policy enforced. */
    constructor (k: nat, block: Block)
      requires block.parents == []
      ensures Valid() && fresh(reach) && StateOf() == Genesis(k, block)
      ensures PolicyOf() == Policy(None, false) && payloadPruningDepth == U64_MAX
    {
      hide Inv, GraphOf, SelectedOf, OracleBuild.Selects, OracleBuild.PastMap, IntervalTree.Shape;
      hide IntervalTree.Sized, IntervalTree.LaidOut, Oracle.Exact, Oracle.AllLean;
      GenesisInv(k, block);
      SelectionFits(Genesis(k, block));
      var nodes0 := map[block.id := Node(block, 0, {}, GENESIS_DATA)];
      var oracle := OracleBuild.Build(GraphOf(nodes0), block.id, SelectedOf(nodes0));
      this.k, genesis, nodes, tips := k, block.id, nodes0, {block.id};
      reach := oracle;
      difficulty, requirePow, payloadPruningDepth := None, false, U64_MAX;
    }

    // --------------------------------------------------------------- queries

    predicate IsAncestor(ancestor: BlockId, descendant: BlockId)
      reads this`reach, reach
    {
      reach.IsAncestor(ancestor, descendant)
    }

    predicate InAnticone(a: BlockId, b: BlockId)
      reads this`reach, reach
    {
      a != b && !IsAncestor(a, b) && !IsAncestor(b, a)
    }

    /** The oracle answers ancestry exactly. */
    lemma AncestryExact(a: BlockId, d: BlockId)
      requires OracleFits()
      ensures IsAncestor(a, d) <==> d in nodes && a in Past(GraphOf(nodes), d)
    {
      hide IntervalTree.Shape, IntervalTree.Sized, IntervalTree.LaidOut, Oracle.Exact, Oracle.AllLean, Past;
      reach.IsAncestorExact(a, d);
      MapDomains(nodes);
    }

    lemma AnticoneExact(a: BlockId, b: BlockId)
      requires OracleFits() && a in nodes && b in nodes
      ensures InAnticone(a, b) <==> Anticone(GraphOf(nodes), a, b)
    {
      hide OracleFits, Past;
      AncestryExact(a, b);
      AncestryExact(b, a);
    }

    /** An oracle built from scratch for the blocks stored now: it has the same tree and
        the same covers as the one maintained insert by insert, and answers alike. */
    method BuildOracle() returns (r: Oracle.Reachability)
      requires Valid() && |nodes| < IntervalTree.ROOT_CAPACITY as nat
      ensures fresh(r) && r.Valid() && r.treeChildren == reach.treeChildren
      ensures forall a, c :: c in Oracle.CoversOf(r.fcs, a) <==> c in Oracle.CoversOf(reach.fcs, a)
      ensures forall a, d :: r.IsAncestor(a, d) == IsAncestor(a, d)
    {
      hide Inv, GraphOf, SelectedOf, OracleBuild.Selects, OracleBuild.PastMap, IntervalTree.Shape;
      hide IntervalTree.Sized, IntervalTree.LaidOut, Oracle.Exact, Oracle.AllLean;
      SelectionFits(StateOf());
      r := OracleBuild.Build(GraphOf(nodes), genesis, SelectedOf(nodes));
      OracleBuild.OraclesAgree(r, reach, GraphOf(nodes), genesis, SelectedOf(nodes));
    }

    // -------------------------------------------------------------- mergesets

    /** Walk backwards from the parents, stopping in the selected parent's past. */
    method MergesetOrdered(sp: BlockId, parents: seq<BlockId>) returns (r: seq<BlockId>)
      requires Valid() && sp in nodes
      ensures r == Mergeset(GraphOf(nodes), sp, parents)
      ensures Merges(GraphOf(nodes), sp, parents, r)
    {
      hide Inv, OracleFits, Walking, Past, GraphOf, WellFormed, Solves, NodeAt, Merges;
      ghost var g := GraphOf(nodes);
      InvParts(StateOf());
      MapDomains(nodes);
      var mergeset: seq<BlockId> := [];
      var seen: set<BlockId> := {};
      var queue := parents;
      ghost var universe := nodes.Keys + SetOf(parents);
      WalkStart(g, sp, parents);
      while queue != []
        invariant Walking(g, sp, parents, seen, queue, mergeset)
        invariant seen <= universe && SetOf(queue) <= universe
        decreases |universe - seen|, |queue|
      {
        var x := queue[0];
        var rest := queue[1..];
        assert queue == [x] + rest;
        assert x in SetOf(queue) && SetOf(rest) <= SetOf(queue);
        queue := rest;
        BoundaryTest(sp, x);
        SmallerRest(universe, seen, x);
        if x in seen || x !in nodes || x == sp || IsAncestor(x, sp) {
          WalkSkip(g, sp, parents, seen, x, rest, mergeset);
          seen := seen + {x};
          continue;
        }
        WalkMerge(g, genesis, sp, parents, seen, x, rest, mergeset);
        StoredParents(x);
        seen := seen + {x};
        mergeset := mergeset + [x];
        queue := rest + nodes[x].block.parents;
      }
      WalkComplete(g, genesis, sp, parents, seen, mergeset);
      MergedIsStored(sp, parents);
      WalkDistinct(g, sp, parents, seen, mergeset);
      r := SortByTopoKey(mergeset, SizesOf(nodes));
      SortedIsMergeset(g, sp, parents, SizesOf(nodes), r);
      MergesetMerges(g, sp, parents);
    }

    lemma BoundaryTest(sp: BlockId, x: BlockId)
      requires OracleFits() && sp in nodes
      ensures x !in nodes || x == sp || IsAncestor(x, sp) <==> Boundary(GraphOf(nodes), sp, x)
    {
      hide OracleFits, Past;
      AncestryExact(x, sp);
      MapDomains(nodes);
    }

    lemma StoredParents(x: BlockId)
      requires Inv(StateOf()) && x in nodes
      ensures x in GraphOf(nodes) && GraphOf(nodes)[x].parents == nodes[x].block.parents
      ensures SetOf(nodes[x].block.parents) <= nodes.Keys
    {
      InvParts(StateOf());
      hide Inv, Solves, NodeAt;
      assert KnownParents(GraphOf(nodes), GraphOf(nodes)[x].parents);
    }

    lemma MergedIsStored(sp: BlockId, parents: seq<BlockId>)
      requires Inv(StateOf())
      ensures forall x :: x in MergedSet(GraphOf(nodes), sp, parents) ==>
        x in nodes && x in SizesOf(nodes) && SizesOf(nodes)[x] == |Past(GraphOf(nodes), x)|
    {
      InvParts(StateOf());
      hide Inv, Solves, Past;
      forall x | x in MergedSet(GraphOf(nodes), sp, parents)
        ensures x in nodes && SizesOf(nodes)[x] == |Past(GraphOf(nodes), x)|
      {
        assert x in GraphOf(nodes);
        assert NodeAt(GraphOf(nodes), nodes, x);
      }
    }

    // -------------------------------------------------------------- colouring

    /** Try to colour the candidate blue. The blue set is visited in any order. */
    method TryColourBlue(candidate: BlockId, sizes: map<BlockId, nat>) returns (r: Option<seq<BlockId>>)
      requires Valid() && candidate in nodes && sizes.Keys <= nodes.Keys
      ensures r.Some? <==> CanBeBlue(GraphOf(nodes), k, sizes, candidate)
      ensures r.Some? ==> SetOf(r.value) == AnticoneBlues(GraphOf(nodes), sizes, candidate) && Distinct(r.value)
    {
      hide Inv, OracleFits, Past, GraphOf, Anticone, Distinct, SetOf;
      ghost var g := GraphOf(nodes);
      var found: seq<BlockId> := [];
      var todo := sizes.Keys;
      NothingFound();
      while todo != {}
        invariant todo <= sizes.Keys && Found(g, k, sizes, candidate, found, sizes.Keys - todo)
      {
        var blue :| blue in todo;
        ghost var seen := sizes.Keys - todo;
        todo := todo - {blue};
        assert sizes.Keys - todo == seen + {blue};
        AnticoneExact(blue, candidate);
        FoundNext(g, k, sizes, candidate, found, seen, blue);
        if InAnticone(blue, candidate) {
          if |found| + 1 > k {
            return None;
          }
          if sizes[blue] + 1 > k {
            return None;
          }
          found := found + [blue];
        }
      }
      assert sizes.Keys - todo == sizes.Keys;
      FoundAll(g, k, sizes, candidate, found);
      return Some(found);
    }

    /** The GHOSTDAG data of a block with these parents. */
    method ComputeGhostdag(parents: seq<BlockId>) returns (data: GhostdagData)
      requires Valid() && parents != [] && forall p :: p in parents ==> p in nodes
      ensures HasData(DataMapOf(nodes), parents)
      ensures data == DataOf(GraphOf(nodes), k, DataMapOf(nodes), parents)
      ensures exists ms :: Follows(GraphOf(nodes), DataMapOf(nodes), k, parents, ms, data)
    {
      hide Inv, OracleFits, Past, GraphOf, Anticone, Distinct, SetOf, Mergeset, Colour, Heaviest, WithBlue, CanBeBlue;
      hide AnticoneBlues, WellFormed, Follows, Merges;
      ghost var g := GraphOf(nodes);
      MapDomains(nodes);
      var sp := Heaviest(DataMapOf(nodes), parents);
      HeaviestIsStored(parents);
      var mergeset := MergesetOrdered(sp, parents);
      ColouringFacts(parents);
      var st := Colouring(nodes[sp].ghostdag.blueAnticoneSizes[sp := 0], [], []);
      ColourNothing(g, k, st);
      for i := 0 to |mergeset|
        invariant st == Colour(g, k, Start(DataMapOf(nodes), sp), mergeset[..i])
        invariant st.sizes.Keys <= nodes.Keys
      {
        var candidate := mergeset[i];
        assert candidate in mergeset && mergeset[..i + 1] == mergeset[..i] + [candidate];
        ColourNext(g, k, Start(DataMapOf(nodes), sp), mergeset[..i], candidate);
        ColouredFresh(parents, i);
        var increments := TryColourBlue(candidate, st.sizes);
        if increments.Some? {
          BluesAreSized(g, st.sizes, candidate, increments.value);
          var sizes := BumpAll(st.sizes, candidate, increments.value);
          BumpedIsWithBlue(g, st.sizes, candidate, increments.value, sizes);
          st := Colouring(sizes, st.blues + [candidate], st.reds);
        } else {
          st := Colouring(st.sizes, st.blues, st.reds + [candidate]);
        }
      }
      assert mergeset[..|mergeset|] == mergeset;
      var blueWork := nodes[sp].ghostdag.blueWork + nodes[sp].block.work as nat;
      BluesAreStored(parents);
      var mergedWork := WorkOfAll(st.blues);
      data := GhostdagData(
        Some(sp), st.blues, st.reds, nodes[sp].ghostdag.blueScore + 1 + |st.blues|, blueWork + mergedWork, st.sizes);
      DataSpelledOut(parents, data);
      DataIsPlain(StateOf(), parents);
    }

    method WorkOfAll(blues: seq<BlockId>) returns (work: nat)
      requires forall b :: b in blues ==> b in nodes
      ensures work == Ghostdag.SumWork(GraphOf(nodes), blues)
    {
      work := 0;
      for i := 0 to |blues|
        invariant work == Ghostdag.SumWork(GraphOf(nodes), blues[..i])
      {
        assert blues[i] in blues && blues[..i + 1][..i] == blues[..i];
        work := work + nodes[blues[i]].block.work as nat;
      }
      assert blues[..|blues|] == blues;
    }

    lemma HeaviestIsStored(parents: seq<BlockId>)
      requires parents != [] && forall p :: p in parents ==> p in nodes
      ensures HasData(DataMapOf(nodes), parents) && Heaviest(DataMapOf(nodes), parents) in nodes
    {
    }

    /** The mergeset is stored and new to the selected parent's blue set. */
    lemma ColouringFacts(parents: seq<BlockId>)
      requires Inv(StateOf()) && HasData(DataMapOf(nodes), parents)
      ensures var sp := Heaviest(DataMapOf(nodes), parents);
        && sp in nodes && (forall c :: c in Mergeset(GraphOf(nodes), sp, parents) ==> c in nodes)
        && Fresh(Start(DataMapOf(nodes), sp), Mergeset(GraphOf(nodes), sp, parents))
        && Start(DataMapOf(nodes), sp).sizes.Keys <= nodes.Keys
    {
      hide Inv, GraphOf, DataMapOf, Mergeset, Heaviest, Fresh;
      StartFacts(StateOf(), parents);
      ghost var ms := Mergeset(GraphOf(nodes), Heaviest(DataMapOf(nodes), parents), parents);
      assert forall c :: c in ms ==> c in SetOf(ms);
    }

    lemma ColouredFresh(parents: seq<BlockId>, i: nat)
      requires Inv(StateOf()) && HasData(DataMapOf(nodes), parents)
      requires i < |Mergeset(GraphOf(nodes), Heaviest(DataMapOf(nodes), parents), parents)|
      ensures var sp := Heaviest(DataMapOf(nodes), parents);
        var ms := Mergeset(GraphOf(nodes), sp, parents);
        sp in DataMapOf(nodes) && ms[i] !in Colour(GraphOf(nodes), k, Start(DataMapOf(nodes), sp), ms[..i]).sizes
    {
      var g, gd := GraphOf(nodes), DataMapOf(nodes);
      var sp := Heaviest(gd, parents);
      var ms := Mergeset(g, sp, parents);
      ColouringFacts(parents);
      hide Inv, GraphOf, Mergeset, Heaviest, Colour;
      PrefixFresh(g, k, Start(gd, sp), ms, i);
    }

    lemma BluesAreStored(parents: seq<BlockId>)
      requires Inv(StateOf()) && HasData(DataMapOf(nodes), parents)
      ensures forall b :: b in Coloured(GraphOf(nodes), k, DataMapOf(nodes), parents).blues ==> b in nodes
    {
      var g, gd := GraphOf(nodes), DataMapOf(nodes);
      var sp := Heaviest(gd, parents);
      ColouringFacts(parents);
      ColourBluesListed(g, k, Start(gd, sp), Mergeset(g, sp, parents));
    }

    lemma DataSpelledOut(parents: seq<BlockId>, data: GhostdagData)
      requires HasData(DataMapOf(nodes), parents) && Heaviest(DataMapOf(nodes), parents) in nodes
      requires var sp := Heaviest(DataMapOf(nodes), parents);
        var st := Coloured(GraphOf(nodes), k, DataMapOf(nodes), parents);
        data == GhostdagData(
          Some(sp), st.blues, st.reds, nodes[sp].ghostdag.blueScore + 1 + |st.blues|,
          nodes[sp].ghostdag.blueWork + nodes[sp].block.work as nat + Ghostdag.SumWork(GraphOf(nodes), st.blues), st.sizes)
      ensures data == DataOf(GraphOf(nodes), k, DataMapOf(nodes), parents)
    {
      hide Coloured, Heaviest;
    }

    // ------------------------------------------------- selected chain and order

    lemma SelectedIsParent(d: BlockId)
      requires Inv(StateOf()) && d in nodes
      ensures nodes[d].ghostdag.selectedParent.Some? <==> HasParent(GraphOf(nodes), DataMapOf(nodes), d)
      ensures nodes[d].ghostdag.selectedParent.Some? ==>
        nodes[d].ghostdag.selectedParent.value in nodes &&
        |Past(GraphOf(nodes), nodes[d].ghostdag.selectedParent.value)| < |Past(GraphOf(nodes), d)|
    {
      InvParts(StateOf());
      MapDomains(nodes);
      hide Inv, NodeAt;
      ParentGuard(GraphOf(nodes), genesis, k, DataMapOf(nodes), d);
      if d == genesis {
        assert DataAt(GraphOf(nodes), genesis, k, DataMapOf(nodes), d);
      }
    }

    /** The heaviest tip. */
    method ComputeSelectedTip() returns (t: BlockId)
      requires Valid()
      ensures t == SelectedTip(StateOf()) && TopTip(nodes, tips, t)
    {
      hide Inv, OracleFits, Lighter, DataMapOf, GraphOf, Solves, WellFormed, TipsOf, NodeAt, TopTip;
      ghost var s := StateOf();
      ghost var anyTip := SomeTipOf();
      InvParts(s);
      MapDomains(nodes);
      var best: Option<BlockId> := None;
      var todo := tips;
      while todo != {}
        invariant todo <= tips && (best == None <==> todo == tips)
        invariant best.Some? ==> best.value in tips - todo
        invariant best.Some? ==> forall u :: u in tips - todo && u != best.value ==> Lighter(DataMapOf(nodes), u, best.value)
      {
        var u :| u in todo;
        todo := todo - {u};
        if best.Some? {
          LighterTotal(DataMapOf(nodes), best.value, u);
          BetterTip(DataMapOf(nodes), tips - todo - {u}, best.value, u);
        }
        if best.None? || Lighter(DataMapOf(nodes), best.value, u) {
          best := Some(u);
        }
      }
      t := if best.Some? then best.value else genesis;
      assert IsSelectedTip(s, t);
      SelectedTipUnique(s, t);
      SelectedTipIsTop(s, t);
    }

    lemma SomeTipOf() returns (t: BlockId)
      requires Inv(StateOf())
      ensures t in tips
    {
      InvParts(StateOf());
      t := SomeTip(StateOf(), genesis);
    }

    /** The selected-parent chain from genesis to the selected tip. */
    method SelectedChain() returns (chain: seq<BlockId>)
      requires Valid()
      ensures chain == Chain(GraphOf(nodes), DataMapOf(nodes), SelectedTip(StateOf()))
      ensures chain != [] && chain[0] == genesis && forall b :: b in chain ==> b in nodes
      ensures exists tip :: TopTip(nodes, tips, tip) && IsChain(DataMapOf(nodes), genesis, tip, chain)
    {
      hide Inv, OracleFits, HasParent, Past, GraphOf, DataMapOf, Chain, SelectedTip, IsSelectedTip, Backwards, TopTip, IsChain;
      ghost var g, gd := GraphOf(nodes), DataMapOf(nodes);
      var cur := ComputeSelectedTip();
      TipIsStored(cur);
      ChainIsPlain(cur);
      ChainStep(cur);
      ghost var all := Chain(g, gd, cur);
      assert all[..|all|] == all;
      var back := [cur];
      OneBackwards(nodes.Keys, cur, all);
      while nodes[cur].ghostdag.selectedParent.Some?
        invariant cur in nodes && 0 < |back| <= |all| && all[..|all| - |back| + 1] == Chain(g, gd, cur)
        invariant Backwards(nodes.Keys, back, all)
        decreases |Past(g, cur)|
      {
        WalkDown(cur, back, all);
        cur := nodes[cur].ghostdag.selectedParent.value;
        back := back + [cur];
      }
      ChainStep(cur);
      chain := Reversed(back);
      SameBackwards(nodes.Keys, back, all, chain);
      ChainStart(SelectedTip(StateOf()));
    }

    lemma ChainIsPlain(d: BlockId)
      requires Inv(StateOf()) && d in nodes
      ensures IsChain(DataMapOf(nodes), genesis, d, Chain(GraphOf(nodes), DataMapOf(nodes), d))
    {
      InvParts(StateOf());
      MapDomains(nodes);
      hide Inv, Chain, Solves, GraphOf, DataMapOf, IsChain;
      ChainIsChain(GraphOf(nodes), genesis, k, DataMapOf(nodes), d);
    }

    lemma WalkDown(cur: BlockId, back: seq<BlockId>, all: seq<BlockId>)
      requires Inv(StateOf()) && cur in nodes && nodes[cur].ghostdag.selectedParent.Some?
      requires 0 < |back| <= |all| && Backwards(nodes.Keys, back, all)
      requires all[..|all| - |back| + 1] == Chain(GraphOf(nodes), DataMapOf(nodes), cur)
      ensures var sp := nodes[cur].ghostdag.selectedParent.value;
        && sp in nodes && |Past(GraphOf(nodes), sp)| < |Past(GraphOf(nodes), cur)| && |back| < |all|
        && all[..|all| - |back|] == Chain(GraphOf(nodes), DataMapOf(nodes), sp)
        && Backwards(nodes.Keys, back + [sp], all)
    {
      hide Inv, HasParent, Past, GraphOf, DataMapOf, Chain, Backwards;
      ChainStep(cur);
      SelectedIsParent(cur);
      var sp := nodes[cur].ghostdag.selectedParent.value;
      ChainStep(sp);
      ChainPrefix(all, |all| - |back| + 1, Chain(GraphOf(nodes), DataMapOf(nodes), sp), sp);
      OneMoreBackwards(nodes.Keys, back, all, sp);
    }

    lemma ChainStart(d: BlockId)
      requires Inv(StateOf()) && d in nodes
      ensures Chain(GraphOf(nodes), DataMapOf(nodes), d)[0] == genesis
    {
      InvParts(StateOf());
      MapDomains(nodes);
      hide Inv, Chain, Solves, GraphOf, DataMapOf;
      ChainFromGenesis(GraphOf(nodes), genesis, k, DataMapOf(nodes), d);
    }

    lemma TipIsStored(t: BlockId)
      requires Inv(StateOf()) && t == SelectedTip(StateOf())
      ensures t in nodes
    {
    }

    lemma ChainStep(d: BlockId)
      requires Inv(StateOf()) && d in nodes
      ensures var chain := Chain(GraphOf(nodes), DataMapOf(nodes), d);
        && chain != [] && chain[|chain| - 1] == d
        && (nodes[d].ghostdag.selectedParent.None? ==> chain == [d])
        && (nodes[d].ghostdag.selectedParent.Some? ==>
          chain == Chain(GraphOf(nodes), DataMapOf(nodes), nodes[d].ghostdag.selectedParent.value) + [d])
    {
      SelectedIsParent(d);
      hide Inv, HasParent, Past, GraphOf;
    }

    /** A stored block's mergeset, in order; empty for genesis. */
    method MergesetOrder(block: BlockId) returns (r: seq<BlockId>)
      requires Valid() && block in nodes
      ensures r == MergesetOf(GraphOf(nodes), DataMapOf(nodes), block)
      ensures match nodes[block].ghostdag.selectedParent
        case None => r == []
        case Some(sp) => Merges(GraphOf(nodes), sp, nodes[block].block.parents, r)
    {
      hide Inv, OracleFits, HasParent, Past, Mergeset, Merges;
      SelectedIsParent(block);
      if nodes[block].ghostdag.selectedParent.Some? {
        r := MergesetOrdered(nodes[block].ghostdag.selectedParent.value, nodes[block].block.parents);
      } else {
        r := [];
      }
    }

    /** The total order over every block. */
    method Linearize() returns (order: seq<BlockId>)
      requires Valid()
      ensures order == TotalOrder(StateOf()) && Totals(StateOf(), order)
    {
      hide Inv, OracleFits, Chain, MergesetOf, OrderOf, Past, GraphOf, DataMapOf, TopoSorted, Ordered, Totals, IsChain;
      hide TopTip, Merges;
      ghost var g, gd, tip := GraphOf(nodes), DataMapOf(nodes), SelectedTip(StateOf());
      var chain := SelectedChain();
      order := [];
      for i := 0 to |chain|
        invariant order == Spine(g, gd, chain[..i])
      {
        assert chain[i] in chain && chain[..i + 1][..i] == chain[..i];
        var merged := MergesetOrder(chain[i]);
        order := order + (merged + [chain[i]]);
      }
      assert chain[..|chain|] == chain;
      SpineIsOrder(g, gd, tip);
      SpineMembers(tip, order);
      MapDomains(nodes);
      var tail := CollectRest(order);
      tail := SortByTopoKey(tail, SizesOf(nodes));
      RestInOrder(tip, tail);
      if genesis in tail {
        tail := Without(tail, genesis);
        order := [genesis] + order;
      }
      order := order + tail;
      OrderIsPlain(StateOf());
    }

    /** The blocks not emitted yet, in any order. */
    method CollectRest(emitted: seq<BlockId>) returns (rest: seq<BlockId>)
      ensures Distinct(rest) && forall b :: b in rest <==> b in nodes && b !in emitted
      ensures forall b :: b in rest ==> b in SizesOf(nodes)
    {
      rest := [];
      var todo := nodes.Keys;
      while todo != {}
        invariant todo <= nodes.Keys && Distinct(rest)
        invariant forall b :: b in rest <==> b in nodes && b !in todo && b !in emitted
      {
        var b :| b in todo;
        todo := todo - {b};
        if b !in emitted {
          rest := rest + [b];
        }
      }
    }

    lemma SpineMembers(tip: BlockId, order: seq<BlockId>)
      requires Inv(StateOf()) && tip == SelectedTip(StateOf()) && order == OrderOf(GraphOf(nodes), DataMapOf(nodes), tip)
      ensures forall b :: b in order <==> b in Past(GraphOf(nodes), tip) + {tip}
      ensures genesis in order
    {
      var g := GraphOf(nodes);
      InvParts(StateOf());
      TipIsStored(tip);
      MapDomains(nodes);
      hide Inv, Solves, OrderOf, NodeAt;
      OrderListsPast(g, genesis, k, DataMapOf(nodes), tip);
      if tip != genesis {
        GenesisIsInEveryPast(g, genesis, tip);
      }
    }

    /** The tail, sorted by the stored key, is the rest of the blocks in order. */
    lemma RestInOrder(tip: BlockId, tail: seq<BlockId>)
      requires Inv(StateOf())
      requires forall b :: b in tail <==> b in GraphOf(nodes).Keys - Past(GraphOf(nodes), tip) - {tip}
      requires KeysAscend(SizesOf(nodes), tail)
      ensures tail == TopoSorted(GraphOf(nodes), GraphOf(nodes).Keys - Past(GraphOf(nodes), tip) - {tip})
    {
      var g := GraphOf(nodes);
      var rest := g.Keys - Past(g, tip) - {tip};
      InvParts(StateOf());
      forall b | b in tail
        ensures SizesOf(nodes)[b] == |Past(g, b)|
      {
        assert b in rest && NodeAt(g, nodes, b);
      }
      SortedIsOrdered(g, rest, SizesOf(nodes), tail);
      OrderUnique(g, g, rest, tail, TopoSorted(g, rest));
    }

    // ------------------------------------------------------- enforced difficulty

    /** The last `window + 1` samples of the selected chain ending at `tip`. */
    method CollectSamples(tip: BlockId, r: Retarget) returns (samples: seq<TimedWork>)
      requires Valid() && tip in nodes && r.window < U64_MAX
      ensures samples == Recent(r, ChainSamples(nodes, tip))
      ensures exists chain, all ::
        && IsChain(DataMapOf(nodes), genesis, tip, chain) && SampledFrom(nodes, chain, all)
        && samples == Sampled(r, all)
    {
      hide Inv, OracleFits, HasParent, Past, GraphOf, DataMapOf, Chain, IsChain, SampledFrom, Sampled, Recent;
      ghost var g, gd := GraphOf(nodes), DataMapOf(nodes);
      ChainStep(tip);
      ghost var all := Chain(g, gd, tip);
      assert all[..|all|] == all;
      var cur := tip;
      var back := [SampleOf(nodes, cur)];
      while |back| as int != r.window as int + 1 && nodes[cur].ghostdag.selectedParent.Some?
        invariant cur in nodes && 0 < |back| <= |all| && all[..|all| - |back| + 1] == Chain(g, gd, cur)
        invariant |back| <= r.window as int + 1
        invariant forall i :: 0 <= i < |back| ==> back[i] == SampleOf(nodes, all[|all| - 1 - i])
        decreases |Past(g, cur)|
      {
        ChainStep(cur);
        SelectedIsParent(cur);
        cur := nodes[cur].ghostdag.selectedParent.value;
        ChainStep(cur);
        ChainPrefix(all, |all| - |back| + 1, Chain(g, gd, cur), cur);
        back := back + [SampleOf(nodes, cur)];
      }
      ChainStep(cur);
      samples := Reversed(back);
      SamplesAreRecent(nodes, r, all, samples);
      SamplesArePlain(tip, r);
    }

    lemma SamplesArePlain(tip: BlockId, r: Retarget)
      requires Inv(StateOf()) && tip in nodes
      ensures var chain := Chain(GraphOf(nodes), DataMapOf(nodes), tip);
        && IsChain(DataMapOf(nodes), genesis, tip, chain) && SampledFrom(nodes, chain, ChainSamples(nodes, tip))
        && Recent(r, ChainSamples(nodes, tip)) == Sampled(r, ChainSamples(nodes, tip))
    {
      hide Inv, GraphOf, DataMapOf, Chain, IsChain, Recent, Sampled;
      ChainIsPlain(tip);
      var chain := Chain(GraphOf(nodes), DataMapOf(nodes), tip);
      ChainIsStored(DataMapOf(nodes), genesis, tip, chain);
      MapDomains(nodes);
      ChainIsSampled(nodes, chain);
      RecentIsSampled(r, ChainSamples(nodes, tip));
    }

    /** Enforce the difficulty rules on a prospective block. */
    method CheckDifficulty(block: Block, id: BlockId, sp: BlockId, r: Retarget) returns (refusal: Option<DagError>)
      requires Valid() && r.window < U64_MAX && HasData(DataMapOf(nodes), block.parents)
      requires sp == Heaviest(DataMapOf(nodes), block.parents)
      ensures refusal == DifficultyRefusal(nodes, r, id, block)
      ensures DifficultyAnswer(StateOf(), r, id, block, sp, refusal)
    {
      hide Inv, OracleFits, NextWork, Heaviest, Recent, DifficultyAnswer, IsChain, SampledFrom, Sampled;
      DifficultyIsPlain(StateOf(), r, id, block);
      var younger := FirstYounger(nodes, block.parents, block.timestampMs);
      NoneYounger(nodes, block.parents, block.timestampMs);
      if younger.Some? {
        return Some(NonMonotonicTimestamp(id, block.timestampMs, nodes[younger.value].block.timestampMs));
      }
      assert sp in nodes;
      var samples := CollectSamples(sp, r);
      RecentSuffices(r, ChainSamples(nodes, sp));
      var expected := NextWork(r, samples);
      if block.work != expected {
        return Some(DifficultyMismatch(id, expected, block.work));
      }
      return None;
    }

    // -------------------------------------------------------------------- insert

    /** The blue score below which payloads are evicted; zero when pruning is off. */
    method PayloadPruningScore() returns (threshold: nat)
      requires Valid()
      ensures threshold == PruningScore(StateOf(), payloadPruningDepth)
      ensures payloadPruningDepth == U64_MAX ==> threshold == 0
      ensures payloadPruningDepth != U64_MAX ==> exists tip ::
        && TopTip(nodes, tips, tip)
        && var score := nodes[tip].ghostdag.blueScore as int;
          threshold == if payloadPruningDepth as int < score then score - payloadPruningDepth as int else 0
    {
      hide Inv, OracleFits, IsSelectedTip;
      if payloadPruningDepth == U64_MAX {
        return 0;
      }
      var tip := ComputeSelectedTip();
      TipIsStored(tip);
      var score := nodes[tip].ghostdag.blueScore;
      threshold := if score < payloadPruningDepth as nat then 0 else score - payloadPruningDepth as nat;
    }

    /** Evict the payloads of blocks far enough below the selected tip. */
    method PruneOldPayloads()
      requires Valid()
      modifies this`nodes
      ensures Valid()
      ensures StateOf() == Evicted(old(StateOf()), payloadPruningDepth)
      ensures exists tip :: TopTip(old(nodes), tips, tip) && PayloadsEvicted(old(nodes), nodes, tip, payloadPruningDepth)
    {
      hide Inv, OracleFits, PrunedNodes, GraphOf, DataMapOf, SelectedOf, OracleBuild.PastMap, PruningScore;
      hide IntervalTree.Shape, IntervalTree.Sized, IntervalTree.LaidOut, Oracle.Exact, Oracle.AllLean;
      ghost var s := StateOf();
      EvictionIsPlain(s, payloadPruningDepth);
      hide TopTip, PayloadsEvicted;
      var threshold := PayloadPruningScore();
      if threshold == 0 {
        ZeroPrunesNothing(nodes);
        return;
      }
      OracleParts();
      PruningKeepsInv(s, threshold);
      EvictBelow(threshold);
      PruningKeepsOracle(s.nodes, threshold);
    }

    method EvictBelow(threshold: nat)
      modifies this`nodes
      ensures nodes == PrunedNodes(old(nodes), threshold)
    {
      hide PrunedNode;
      ghost var before := nodes;
      var todo := nodes.Keys;
      while todo != {}
        invariant todo <= nodes.Keys == before.Keys
        invariant forall d :: d in before ==>
          nodes[d] == if d in todo then before[d] else PrunedNode(before[d], threshold)
      {
        var d :| d in todo;
        todo := todo - {d};
        nodes := nodes[d := PrunedNode(nodes[d], threshold)];
      }
    }

    lemma OracleParts()
      requires OracleFits()
      ensures reach.Valid() && reach.root == genesis && reach.treeParent == SelectedOf(nodes)
      ensures reach.past == OracleBuild.PastMap(GraphOf(nodes))
    {
    }

    lemma PruningKeepsOracle(before: Nodes, threshold: nat)
      requires nodes == PrunedNodes(before, threshold)
      requires reach.Valid() && reach.root == genesis && reach.treeParent == SelectedOf(before)
      requires reach.past == OracleBuild.PastMap(GraphOf(before))
      ensures OracleFits()
    {
      hide IntervalTree.Shape, IntervalTree.Sized, IntervalTree.LaidOut, Oracle.Exact, Oracle.AllLean;
      PrunedGraph(before, threshold);
      assert SelectedOf(nodes) == SelectedOf(before);
    }

    /** Attach the block to its parents and make it the new tip. */
    method Wire(id: BlockId, block: Block, data: GhostdagData, pastSize: nat)
      requires id !in nodes && forall p :: p in block.parents ==> p in nodes
      modifies this`nodes, this`tips
      ensures nodes == WithChild(old(nodes), block.parents, id)[id := Node(block, pastSize, {}, data)]
      ensures tips == old(tips) - SetOf(block.parents) + {id}
    {
      var parents := block.parents;
      for i := 0 to |parents|
        invariant nodes == WithChild(old(nodes), parents[..i], id) && tips == old(tips) - SetOf(parents[..i])
      {
        var p := parents[i];
        assert p in parents && parents[..i + 1] == parents[..i] + [p];
        nodes := nodes[p := nodes[p].(children := nodes[p].children + {id})];
        tips := tips - {p};
        assert nodes == WithChild(old(nodes), parents[..i + 1], id);
      }
      assert parents[..|parents|] == parents;
      tips := tips + {id};
      nodes := nodes[id := Node(block, pastSize, {}, data)];
    }

    lemma NewPastSize(id: BlockId, block: Block)
      requires Inv(StateOf()) && Accepts(StateOf(), id, block) && HasData(DataMapOf(nodes), block.parents)
      ensures var data := NewData(StateOf(), block);
        var sp := Heaviest(DataMapOf(nodes), block.parents);
        && data.selectedParent == Some(sp) && sp in nodes
        && nodes[sp].pastSize + 1 + (|data.mergesetBlues| + |data.mergesetReds|) == |PastOf(GraphOf(nodes), block.parents)|
        && Past(GraphOf(nodes), sp) + {sp} + SetOf(data.mergesetBlues + data.mergesetReds) ==
          PastOf(GraphOf(nodes), block.parents)
        && (forall m :: m in data.mergesetBlues + data.mergesetReds ==> m in nodes)
        && forall m :: m in data.mergesetBlues + data.mergesetReds ==> m !in Past(GraphOf(nodes), sp) && m != sp
    {
      hide Inv, Solves, Fresh, Accepts, Past, PastOf, GraphOf, DataMapOf, Mergeset, Heaviest, WellFormed, SetOf;
      var g, gd, parents := GraphOf(nodes), DataMapOf(nodes), block.parents;
      var sp := Heaviest(gd, parents);
      var ms := Mergeset(g, sp, parents);
      InvParts(StateOf());
      MapDomains(nodes);
      ColouringFacts(parents);
      ColourSplits(g, k, Start(gd, sp), ms);
      assert NodeAt(g, nodes, sp);
      NewBlockPast(g, genesis, sp, parents, ms, NewData(StateOf(), block));
    }

    lemma OracleFollows(s: State, id: BlockId, block: Block, sp: BlockId, mergeset: seq<BlockId>)
      requires Inv(s) && Accepts(s, id, block) && HasData(DataMapOf(s.nodes), block.parents)
      requires sp == Heaviest(DataMapOf(s.nodes), block.parents) && sp in s.nodes
      requires Past(GraphOf(s.nodes), sp) + {sp} + SetOf(mergeset) == PastOf(GraphOf(s.nodes), block.parents)
      requires StateOf() == Inserted(s, id, block) && reach.Valid() && reach.root == genesis
      requires reach.treeParent == SelectedOf(s.nodes)[id := sp]
      requires reach.past ==
        OracleBuild.PastMap(GraphOf(s.nodes))[id := Past(GraphOf(s.nodes), sp) + {sp} + SetOf(mergeset)]
      ensures OracleFits()
    {
      hide Inv, IntervalTree.Shape, IntervalTree.Sized, IntervalTree.LaidOut, Oracle.Exact, Oracle.AllLean;
      InvParts(s);
      InsertedGraph(s, id, block);
      PastMapGrows(GraphOf(s.nodes), s.genesis, id, block.ToVertex(), GraphOf(nodes));
      SelectedGrows(s, id, block);
      hide Inserted, GraphOf, SelectedOf, OracleBuild.PastMap, Accepts, HasData, WellFormed, Solves, NodeAt;
    }

    /** What a block would get if it were inserted: its selected parent and mergeset. */
    method Preview(block: Block) returns (r: Result<BlockPreview, DagError>)
      requires Valid()
      ensures r == Previewed(StateOf(), block)
      ensures Answers(StateOf(), Policy(None, false), block.id, block, if r.Ok? then None else Some(r.error))
      ensures r.Ok? ==> Selects(DataMapOf(nodes), block.parents, r.value.selectedParent)
      ensures r.Ok? ==> Merges(GraphOf(nodes), r.value.selectedParent, block.parents, r.value.mergeset)
    {
      hide Inv, OracleFits, Past, GraphOf, DataMapOf, Heaviest, Mergeset, HasData, Answers, Merges, Selects;
      RefusalIsPlain(StateOf(), Policy(None, false), block.id, block);
      if block.id in nodes {
        return Err(DuplicateBlock(block.id));
      }
      if block.parents == [] {
        return Err(NoParents(block.id));
      }
      var missing := FirstMissing(nodes, block.parents);
      if missing.Some? {
        return Err(MissingParent(missing.value));
      }
      NoneMissing(nodes, block.parents);
      HeaviestIsStored(block.parents);
      HeaviestIsSelected(DataMapOf(nodes), block.parents);
      var sp := Heaviest(DataMapOf(nodes), block.parents);
      var mergeset := MergesetOrdered(sp, block.parents);
      return Ok(BlockPreview(sp, mergeset));
    }

    /** Every check of an insert, in order; the GHOSTDAG data when all of them pass. */
    method Check(block: Block, id: BlockId) returns (refusal: Option<DagError>, data: GhostdagData)
      requires Valid() && Usable(PolicyOf())
      ensures refusal == Refusal(nodes, PolicyOf(), id, block) && Answers(StateOf(), PolicyOf(), id, block, refusal)
      ensures refusal.None? ==> HasData(DataMapOf(nodes), block.parents) && data == NewData(StateOf(), block)
    {
      hide Inv, OracleFits, DifficultyRefusal, MinedFor, GraphOf, DataMapOf, Past, HasData, DataOf, FirstMissing;
      hide Answers, DifficultyAnswer, Follows;
      RefusalIsPlain(StateOf(), PolicyOf(), id, block);
      data := GENESIS_DATA;
      if id in nodes {
        return Some(DuplicateBlock(id)), data;
      }
      if block.parents == [] {
        return Some(NoParents(id)), data;
      }
      var missing := FirstMissing(nodes, block.parents);
      if missing.Some? {
        return Some(MissingParent(missing.value)), data;
      }
      NoneMissing(nodes, block.parents);
      data := ComputeGhostdag(block.parents);
      var sp := SelectedOfData(block.parents, data);
      if difficulty.Some? {
        var harder := CheckDifficulty(block, id, sp, difficulty.value);
        if harder.Some? {
          return harder, data;
        }
      }
      if requirePow {
        var mined := ProofOfWork.MeetsTarget(id, block.work);
        MinedMeans(id, block.work);
        if !mined {
          return Some(InsufficientProofOfWork(id, block.work)), data;
        }
      }
      refusal := None;
    }

    /** The selected parent the data names. */
    method SelectedOfData(parents: seq<BlockId>, data: GhostdagData) returns (sp: BlockId)
      requires HasData(DataMapOf(nodes), parents) && data == DataOf(GraphOf(nodes), k, DataMapOf(nodes), parents)
      ensures data.selectedParent == Some(sp) && sp == Heaviest(DataMapOf(nodes), parents)
    {
      hide Coloured, Heaviest;
      sp := data.selectedParent.value;
    }

    /** Sound, with room for one more, under a policy whose window fits a machine word. */
    ghost predicate MayInsert()
      reads this, reach
    {
      Valid() && Usable(PolicyOf()) && |nodes| < IntervalTree.ROOT_CAPACITY as nat
    }

    /** The id a block goes by: the stored one, if it comes with one. */
    static function IdFor(block: Block, storedId: Option<BlockId>): BlockId {
      if storedId.Some? then storedId.value else block.id
    }

    /** Insert a block under its own id, or under a stored one. */
    method Insert(block: Block, storedId: Option<BlockId>) returns (r: Result<BlockId, DagError>)
      requires MayInsert()
      modifies this`nodes, this`tips, reach
      ensures Valid() && (r.Err? ==> unchanged(this) && unchanged(reach))
      ensures Inserts(
        old(StateOf()), PolicyOf(), payloadPruningDepth, IdFor(block, storedId), block, r, StateOf())
      ensures match storedId
        case None => Takes(old(StateOf()), PolicyOf(), payloadPruningDepth, block.id, block, r, StateOf())
        case Some(id) => Takes(old(StateOf()), PolicyOf(), payloadPruningDepth, id, block, r, StateOf())
    {
      hide Inv, OracleFits, Refusal, Inserted, GraphOf, DataMapOf, Past, DataOf, HasData, After, Accepts, Obeys;
      hide Takes, Answers;
      var id := IdFor(block, storedId);
      ghost var s := StateOf();
      var refusal, data := Check(block, id);
      AcceptedIff(StateOf(), PolicyOf(), id, block);
      if refusal.Some? {
        OutcomeIsPlain(s, PolicyOf(), payloadPruningDepth, id, block, Err(refusal.value), s);
        return Err(refusal.value);
      }
      var sp := SelectedOfData(block.parents, data);
      Commit(id, block, data, sp);
      OutcomeIsPlain(s, PolicyOf(), payloadPruningDepth, id, block, Ok(id), StateOf());
      return Ok(id);
    }

    /** Store an accepted block and fold it into the oracle. */
    method Commit(id: BlockId, block: Block, data: GhostdagData, sp: BlockId)
      requires Valid() && |nodes| < IntervalTree.ROOT_CAPACITY as nat
      requires Accepts(StateOf(), id, block) && HasData(DataMapOf(nodes), block.parents)
      requires data == NewData(StateOf(), block) && sp == Heaviest(DataMapOf(nodes), block.parents)
      modifies this`nodes, this`tips, reach
      ensures Valid() && StateOf() == After(old(StateOf()), payloadPruningDepth, id, block)
    {
      hide Inv, Past, PastOf, GraphOf, DataMapOf, PrunedNodes, PruningScore, SelectedOf, NewData, SetOf, WithChild, Heaviest;
      hide IntervalTree.Shape, IntervalTree.Sized, IntervalTree.LaidOut, Oracle.Exact, Oracle.AllLean, OracleBuild.PastMap;
      hide HasData;
      ghost var s := StateOf();
      NewPastSize(id, block);
      OracleCounts(s);
      PastOfSelected(s, sp);
      var pastSize := nodes[sp].pastSize + 1 + (|data.mergesetBlues| + |data.mergesetReds|);
      var mergeset := data.mergesetBlues + data.mergesetReds;
      Wire(id, block, data, pastSize);
      reach.AddBlock(id, sp, mergeset);
      InsertKeepsInv(s, id, block);
      OracleFollows(s, id, block, sp, mergeset);
      if payloadPruningDepth != U64_MAX {
        PruneOldPayloads();
      } else {
        NothingPruned(StateOf());
      }
    }
  }

  datatype BlockPreview = BlockPreview(selectedParent: BlockId, mergeset: seq<BlockId>)

  ghost function Previewed(s: State, block: Block): Result<BlockPreview, DagError> {
    var refusal := Refusal(s.nodes, Policy(None, false), block.id, block);
    if refusal.Some? then Err(refusal.value)
    else
      AcceptedIff(s, Policy(None, false), block.id, block);
      var sp := Heaviest(DataMapOf(s.nodes), block.parents);
      Ok(BlockPreview(sp, Mergeset(GraphOf(s.nodes), sp, block.parents)))
  }

  /** A preview foretells the insert: an accepted block gets the selected parent the
      preview named, and merges exactly the blocks it listed. */
  lemma PreviewForetells(s: State, block: Block)
    requires Inv(s) && Previewed(s, block).Ok? && Accepts(s, block.id, block)
    ensures HasData(DataMapOf(s.nodes), block.parents)
    ensures var data := NewData(s, block); var preview := Previewed(s, block).value;
      && data.selectedParent == Some(preview.selectedParent)
      && SetOf(data.mergesetBlues) + SetOf(data.mergesetReds) == SetOf(preview.mergeset)
      && |data.mergesetBlues| + |data.mergesetReds| == |preview.mergeset|
      && preview.selectedParent in s.nodes
      && SetOf(preview.mergeset) ==
        PastOf(GraphOf(s.nodes), block.parents) - Past(GraphOf(s.nodes), preview.selectedParent)
          - {preview.selectedParent}
  {
    hide Inv, Refusal, Accepts, GraphOf, DataMapOf, HasData, Mergeset, Heaviest, SetOf, Past, PastOf, Coloured;
    AcceptedIff(s, Policy(None, false), block.id, block);
    MergesetParts(s, block.parents);
  }

  /** What colouring starts from. */
  lemma StartFacts(s: State, parents: seq<BlockId>)
    requires Inv(s) && HasData(DataMapOf(s.nodes), parents)
    ensures var g, gd := GraphOf(s.nodes), DataMapOf(s.nodes); var sp := Heaviest(gd, parents);
      var ms := Mergeset(g, sp, parents);
      && sp in s.nodes && Fresh(Start(gd, sp), ms) && SetOf(ms) == MergedSet(g, sp, parents)
      && SetOf(ms) <= s.nodes.Keys && Start(gd, sp).sizes.Keys <= s.nodes.Keys
  {
    hide Inv, Solves, NodeAt, TipsOf, WellFormed, GraphOf, DataMapOf, Mergeset, Heaviest, Fresh, ClusterAt, Start, SetOf;
    var g, gd := GraphOf(s.nodes), DataMapOf(s.nodes);
    InvParts(s);
    MapDomains(s.nodes);
    HeaviestListed(gd, parents);
    var sp := Heaviest(gd, parents);
    EveryBlockIsCluster(g, s.genesis, s.k, gd, sp);
    ClusterStartsFresh(g, s.k, gd, sp, parents);
  }

  lemma HeaviestListed(gd: DataMap, parents: seq<BlockId>)
    requires HasData(gd, parents)
    ensures Heaviest(gd, parents) in gd
  {
  }

  /** Colouring splits the mergeset, which is the new block's past beyond the selected parent. */
  lemma MergesetParts(s: State, parents: seq<BlockId>)
    requires Inv(s) && HasData(DataMapOf(s.nodes), parents)
    ensures var g, gd := GraphOf(s.nodes), DataMapOf(s.nodes); var sp := Heaviest(gd, parents);
      var ms, st := Mergeset(g, sp, parents), Coloured(g, s.k, gd, parents);
      && sp in s.nodes && SetOf(ms) == PastOf(g, parents) - Past(g, sp) - {sp}
      && SetOf(st.blues) + SetOf(st.reds) == SetOf(ms) && |st.blues| + |st.reds| == |ms|
  {
    hide Inv, Past, PastOf, GraphOf, DataMapOf, Heaviest, Mergeset, SetOf, Fresh, Colour;
    var g, gd := GraphOf(s.nodes), DataMapOf(s.nodes);
    StartFacts(s, parents);
    MapDomains(s.nodes);
    ColourSplits(g, s.k, Start(gd, Heaviest(gd, parents)), Mergeset(g, Heaviest(gd, parents), parents));
  }

  lemma SelectionAt(s: State, d: BlockId)
    requires Inv(s) && d in s.nodes
    ensures s.nodes[d].ghostdag.selectedParent.Some? <==> d != s.genesis
    ensures d != s.genesis ==> s.nodes[d].ghostdag.selectedParent.value in GraphOf(s.nodes)[d].parents
  {
    InvParts(s);
    hide Inv, NodeAt, TipsOf;
    if d == s.genesis {
      assert DataAt(GraphOf(s.nodes), s.genesis, s.k, DataMapOf(s.nodes), d);
    } else {
      var sp, ms := Unfold(GraphOf(s.nodes), s.genesis, s.k, DataMapOf(s.nodes), d);
    }
  }

  /** In every consensus state each block but genesis selects one of its parents. */
  lemma SelectionFits(s: State)
    requires Inv(s)
    ensures OracleBuild.Selects(GraphOf(s.nodes), s.genesis, SelectedOf(s.nodes))
    ensures |GraphOf(s.nodes)| == |s.nodes|
  {
    hide Inv, GraphOf, WellFormed, Solves, NodeAt, TipsOf;
    InvParts(s);
    MapDomains(s.nodes);
    forall d | d in s.nodes
      ensures s.nodes[d].ghostdag.selectedParent.Some? <==> d != s.genesis
      ensures d != s.genesis ==> s.nodes[d].ghostdag.selectedParent.value in GraphOf(s.nodes)[d].parents
    {
      SelectionAt(s, d);
    }
    assert |GraphOf(s.nodes)| == |GraphOf(s.nodes).Keys| && |s.nodes| == |s.nodes.Keys|;
  }

  lemma SmallerRest(universe: set<BlockId>, seen: set<BlockId>, x: BlockId)
    requires x in universe
    ensures x !in seen ==> |universe - (seen + {x})| < |universe - seen|
    ensures x in seen ==> seen + {x} == seen
  {
    if x !in seen {
      assert universe - seen == (universe - (seen + {x})) + {x};
    }
  }

  lemma WalkDistinct(g: Graph, sp: BlockId, parents: seq<BlockId>, seen: set<BlockId>, ms: seq<BlockId>)
    requires Walking(g, sp, parents, seen, [], ms)
    ensures forall i, j :: 0 <= i < j < |ms| ==> ms[i] != ms[j]
  {
  }

  // ---------------------------------------------------------- colouring, as values

  /** The list so far: the anticone blues among those seen, all within the rule. */
  ghost predicate Found(
      g: Graph, k: nat, sizes: map<BlockId, nat>, c: BlockId, found: seq<BlockId>, seen: set<BlockId>) {
    && Distinct(found) && SetOf(found) == AnticoneBlues(g, sizes, c) * seen && |found| <= k
    && forall b :: b in found ==> b in sizes && sizes[b] + 1 <= k
  }

  lemma NothingFound()
    ensures Distinct([]) && SetOf([]) == {}
  {
  }

  lemma FoundNext(
      g: Graph, k: nat, sizes: map<BlockId, nat>, c: BlockId, found: seq<BlockId>, seen: set<BlockId>, b: BlockId)
    requires Found(g, k, sizes, c, found, seen) && b in sizes && b !in seen
    ensures !Anticone(g, b, c) ==> Found(g, k, sizes, c, found, seen + {b})
    ensures Anticone(g, b, c) && |found| + 1 <= k && sizes[b] + 1 <= k ==>
      Found(g, k, sizes, c, found + [b], seen + {b})
    ensures Anticone(g, b, c) && (|found| + 1 > k || sizes[b] + 1 > k) ==> !CanBeBlue(g, k, sizes, c)
  {
    hide Anticone, Distinct, SetOf;
    var blues := AnticoneBlues(g, sizes, c);
    if Anticone(g, b, c) {
      assert blues * (seen + {b}) == blues * seen + {b} && b !in blues * seen;
      AppendFound(found, b);
      FoundCount(found);
      SubsetSize(blues * seen + {b}, blues);
    } else {
      assert blues * (seen + {b}) == blues * seen;
    }
  }

  lemma AppendFound(found: seq<BlockId>, b: BlockId)
    requires Distinct(found) && b !in SetOf(found)
    ensures Distinct(found + [b]) && SetOf(found + [b]) == SetOf(found) + {b}
    ensures forall x :: x in found + [b] <==> x in found || x == b
  {
  }

  lemma FoundCount(found: seq<BlockId>)
    requires Distinct(found)
    ensures |SetOf(found)| == |found|
  {
    DistinctCount(found);
  }

  lemma FoundAll(g: Graph, k: nat, sizes: map<BlockId, nat>, c: BlockId, found: seq<BlockId>)
    requires Found(g, k, sizes, c, found, sizes.Keys)
    ensures CanBeBlue(g, k, sizes, c) && SetOf(found) == AnticoneBlues(g, sizes, c)
  {
    hide Anticone, Distinct;
    var blues := AnticoneBlues(g, sizes, c);
    assert blues * sizes.Keys == blues;
    FoundCount(found);
    assert forall b :: b in SetOf(found) <==> b in found;
  }

  lemma ColourNothing(g: Graph, k: nat, st: Colouring)
    ensures Colour(g, k, st, []) == st
  {
  }

  lemma ColourNext(g: Graph, k: nat, st: Colouring, front: seq<BlockId>, c: BlockId)
    ensures Colour(g, k, st, front + [c]) == ColourStep(g, k, Colour(g, k, st, front), c)
  {
    assert (front + [c])[..|front|] == front;
  }

  lemma PrefixFresh(g: Graph, k: nat, st: Colouring, ms: seq<BlockId>, i: nat)
    requires st.blues == [] && st.reds == [] && Fresh(st, ms) && i < |ms|
    ensures ms[i] !in Colour(g, k, st, ms[..i]).sizes
  {
    assert Fresh(st, ms[..i]) && ms[i] !in ms[..i] && ms[i] in ms by {
      assert forall j :: 0 <= j < i ==> ms[..i][j] == ms[j] && ms[j] in ms;
    }
    ColourSplits(g, k, st, ms[..i]);
    SplitMembers(Colour(g, k, st, ms[..i]).blues, Colour(g, k, st, ms[..i]).reds, ms[..i]);
  }

  lemma BluesAreSized(g: Graph, sizes: map<BlockId, nat>, c: BlockId, found: seq<BlockId>)
    requires SetOf(found) == AnticoneBlues(g, sizes, c)
    ensures forall b :: b in found ==> b in sizes
  {
    assert forall b :: b in found ==> b in SetOf(found);
  }

  /** Record the candidate's own count, then bump every listed block. */
  method BumpAll(sizes: map<BlockId, nat>, c: BlockId, found: seq<BlockId>) returns (r: map<BlockId, nat>)
    requires Distinct(found) && c !in sizes && forall b :: b in found ==> b in sizes
    ensures r.Keys == sizes.Keys + {c} && r[c] == |found|
    ensures forall b :: b in sizes ==> r[b] == sizes[b] + (if b in found then 1 else 0)
  {
    r := sizes[c := |found|];
    for i := 0 to |found|
      invariant r.Keys == sizes.Keys + {c} && r[c] == |found|
      invariant forall b :: b in sizes ==> r[b] == sizes[b] + (if b in found[..i] then 1 else 0)
    {
      var b := found[i];
      assert b in found && found[..i + 1] == found[..i] + [b];
      assert b !in found[..i];
      r := r[b := r[b] + 1];
    }
    assert found[..|found|] == found;
  }

  lemma BumpedIsWithBlue(
      g: Graph, sizes: map<BlockId, nat>, c: BlockId, found: seq<BlockId>, r: map<BlockId, nat>)
    requires Distinct(found) && SetOf(found) == AnticoneBlues(g, sizes, c) && c !in sizes
    requires r.Keys == sizes.Keys + {c} && r[c] == |found|
    requires forall b :: b in sizes ==> r[b] == sizes[b] + (if b in found then 1 else 0)
    ensures r == WithBlue(g, sizes, c)
  {
    FoundCount(found);
    assert forall b :: b in found <==> b in SetOf(found);
  }

  // ------------------------------------------------------------- lists, as values

  method Reversed<T>(s: seq<T>) returns (r: seq<T>)
    ensures |r| == |s| && forall i :: 0 <= i < |s| ==> r[i] == s[|s| - 1 - i]
  {
    r := [];
    for i := 0 to |s|
      invariant |r| == i && forall j :: 0 <= j < i ==> r[j] == s[i - 1 - j]
    {
      r := [s[i]] + r;
    }
  }

  /** `back` is the end of `all`, read backwards. */
  ghost predicate Backwards(stored: set<BlockId>, back: seq<BlockId>, all: seq<BlockId>) {
    |back| <= |all| && forall i :: 0 <= i < |back| ==> back[i] == all[|all| - 1 - i] && back[i] in stored
  }

  lemma OneBackwards(stored: set<BlockId>, last: BlockId, all: seq<BlockId>)
    requires all != [] && all[|all| - 1] == last && last in stored
    ensures Backwards(stored, [last], all)
  {
  }

  lemma OneMoreBackwards(stored: set<BlockId>, back: seq<BlockId>, all: seq<BlockId>, b: BlockId)
    requires Backwards(stored, back, all) && |back| < |all| && all[|all| - 1 - |back|] == b && b in stored
    ensures Backwards(stored, back + [b], all)
  {
  }

  lemma SameBackwards(stored: set<BlockId>, back: seq<BlockId>, all: seq<BlockId>, chain: seq<BlockId>)
    requires |chain| == |back| == |all| && Backwards(stored, back, all)
    requires forall i :: 0 <= i < |back| ==> chain[i] == back[|back| - 1 - i]
    ensures chain == all && forall b :: b in chain ==> b in stored
  {
  }

  /** The list without every occurrence of `b`. */
  function Without(s: seq<BlockId>, b: BlockId): seq<BlockId> {
    if s == [] then [] else (if s[0] == b then [] else [s[0]]) + Without(s[1..], b)
  }

  lemma ChainPrefix(all: seq<BlockId>, n: nat, shorter: seq<BlockId>, last: BlockId)
    requires 1 < n <= |all| && all[..n] == shorter + [all[n - 1]] && shorter != [] && shorter[|shorter| - 1] == last
    ensures all[..n - 1] == shorter && all[n - 2] == last
  {
    assert all[..n][..n - 1] == all[..n - 1];
    assert |shorter| == n - 1;
  }

  lemma BetterTip(gd: DataMap, seen: set<BlockId>, best: BlockId, u: BlockId)
    requires best in gd && u in gd && u !in seen && (forall b :: b in seen ==> b in gd)
    requires forall b :: b in seen && b != best ==> Lighter(gd, b, best)
    ensures Lighter(gd, best, u) ==> forall b :: b in seen ==> Lighter(gd, b, u)
  {
    hide Lighter;
    if Lighter(gd, best, u) {
      forall b | b in seen
        ensures Lighter(gd, b, u)
      {
        if b != best {
          LighterTransitive(gd, b, best, u);
        }
      }
    }
  }

  // ------------------------------------------------------------- insert, as values

  lemma {:induction false} SampleAt(nodes: Nodes, chain: seq<BlockId>, i: nat)
    requires i < |chain|
    ensures SamplesOf(nodes, chain)[i] == SampleOf(nodes, chain[i])
  {
    if i < |chain| - 1 {
      SampleAt(nodes, chain[..|chain| - 1], i);
    }
  }

  lemma SamplesAreRecent(nodes: Nodes, r: Retarget, all: seq<BlockId>, samples: seq<TimedWork>)
    requires |samples| <= |all| && |samples| <= r.window as nat + 1
    requires |samples| == |all| || |samples| == r.window as nat + 1
    requires forall i :: 0 <= i < |samples| ==> samples[i] == SampleOf(nodes, all[|all| - |samples| + i])
    ensures samples == Recent(r, SamplesOf(nodes, all))
  {
    forall i | 0 <= i < |samples|
      ensures samples[i] == SamplesOf(nodes, all)[|all| - |samples| + i]
    {
      SampleAt(nodes, all, |all| - |samples| + i);
    }
  }

  /** Truncating the walk loses nothing. */
  lemma RecentSuffices(r: Retarget, samples: seq<TimedWork>)
    requires r.window < U64_MAX
    ensures NextWork(r, Recent(r, samples)) == NextWork(r, samples)
  {
    assert Recent(r, Recent(r, samples)) == Recent(r, samples);
  }

  lemma NewBlockPast(
      g: Graph, genesis: BlockId, sp: BlockId, parents: seq<BlockId>, ms: seq<BlockId>, data: GhostdagData)
    requires WellFormed(g, genesis) && sp in parents && sp in g && ms == Mergeset(g, sp, parents)
    requires SetOf(data.mergesetBlues) + SetOf(data.mergesetReds) == SetOf(ms)
    requires |data.mergesetBlues| + |data.mergesetReds| == |ms|
    ensures |Past(g, sp)| + 1 + (|data.mergesetBlues| + |data.mergesetReds|) == |PastOf(g, parents)|
    ensures Past(g, sp) + {sp} + SetOf(data.mergesetBlues + data.mergesetReds) == PastOf(g, parents)
    ensures forall m :: m in data.mergesetBlues + data.mergesetReds ==> m in g && m !in Past(g, sp) && m != sp
  {
    hide Past, PastOf, SetOf;
    PastKnown(g, parents);
    StrictPast(g, genesis, sp);
    OrderedDistinct(g, MergedSet(g, sp, parents), ms);
    OrderedMembers(g, MergedSet(g, sp, parents), ms);
    ListsJoin(data.mergesetBlues, data.mergesetReds);
    ThreeParts(PastOf(g, parents), Past(g, sp), sp, MergedSet(g, sp, parents));
  }

  lemma StrictPast(g: Graph, genesis: BlockId, sp: BlockId)
    requires WellFormed(g, genesis) && sp in g
    ensures sp !in Past(g, sp)
  {
  }

  lemma OrderedMembers(g: Graph, s: set<BlockId>, r: seq<BlockId>)
    requires Ordered(g, s, r)
    ensures SetOf(r) == s
  {
  }

  lemma ListsJoin(a: seq<BlockId>, b: seq<BlockId>)
    ensures SetOf(a + b) == SetOf(a) + SetOf(b) && forall m :: m in a + b ==> m in SetOf(a + b)
  {
  }

  lemma ThreeParts(all: set<BlockId>, past: set<BlockId>, sp: BlockId, merged: set<BlockId>)
    requires past <= all && sp in all && sp !in past && merged == all - past - {sp}
    ensures all == past + {sp} + merged && |all| == |past| + 1 + |merged|
  {
    assert all == (past + {sp}) + merged;
  }

  lemma PastMapGrows(g: Graph, genesis: BlockId, id: BlockId, v: Vertex, g': Graph)
    requires WellFormed(g, genesis) && Grows(g, id, v, g') && v.parents != []
    ensures OracleBuild.PastMap(g') == OracleBuild.PastMap(g)[id := PastOf(g, v.parents)]
  {
    GrowthKeepsWellFormed(g, genesis, id, v, g');
    hide Past, PastOf, WellFormed;
  }

  lemma SelectedGrows(s: State, id: BlockId, block: Block)
    requires Inv(s) && Accepts(s, id, block) && HasData(DataMapOf(s.nodes), block.parents)
    ensures SelectedOf(Inserted(s, id, block).nodes) ==
      SelectedOf(s.nodes)[id := Heaviest(DataMapOf(s.nodes), block.parents)]
  {
    hide Inserted, DataMapOf, HasData, Heaviest, Inv;
    OldBlocksKept(s, id, block);
    NewParent(s, id, block);
    InsertedFacts(s, id, block);
  }

  lemma OracleCounts(s: State)
    ensures |OracleBuild.PastMap(GraphOf(s.nodes))| == |s.nodes|
    ensures OracleBuild.PastMap(GraphOf(s.nodes)).Keys == s.nodes.Keys
  {
    MapDomains(s.nodes);
    assert |OracleBuild.PastMap(GraphOf(s.nodes))| == |OracleBuild.PastMap(GraphOf(s.nodes)).Keys|;
    assert |s.nodes| == |s.nodes.Keys|;
  }

  lemma PastOfSelected(s: State, sp: BlockId)
    requires sp in s.nodes
    ensures sp in OracleBuild.PastMap(GraphOf(s.nodes))
    ensures OracleBuild.PastMap(GraphOf(s.nodes))[sp] == Past(GraphOf(s.nodes), sp)
  {
    MapDomains(s.nodes);
  }

  lemma NothingPruned(s: State)
    requires Inv(s)
    ensures s.(nodes := PrunedNodes(s.nodes, PruningScore(s, U64_MAX))) == s
  {
    hide Inv;
    ZeroPrunesNothing(s.nodes);
  }

  lemma ZeroPrunesNothing(nodes: Nodes)
    ensures PrunedNodes(nodes, 0) == nodes
  {
  }

  lemma MinedMeans(id: BlockId, work: u128)
    ensures MinedFor(id, work) <==> id as nat * (if work == 0 then 1 else work as nat) < ID_SPACE
  {
  }
}
