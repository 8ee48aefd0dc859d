/** The total order over all blocks, and the selected chain it is built around. */
module Ordering {
  import opened BlockGraph
  import opened TopoOrder
  import opened Ghostdag
  import opened KCluster
  import opened Wrappers

  /** `d` has a selected parent to recurse on. */
  ghost predicate HasParent(g: Graph, gd: DataMap, d: BlockId) {
    && d in g && d in gd && gd[d].selectedParent.Some? && gd[d].selectedParent.value in gd
    && |Past(g, gd[d].selectedParent.value)| < |Past(g, d)|
  }

  /** The selected-parent chain from genesis up to `d`. */
  ghost function Chain(g: Graph, gd: DataMap, d: BlockId): (r: seq<BlockId>)
    ensures r != [] && r[|r| - 1] == d
    decreases |Past(g, d)|
  {
    if HasParent(g, gd, d) then Chain(g, gd, gd[d].selectedParent.value) + [d] else [d]
  }

  ghost function MergesetOf(g: Graph, gd: DataMap, d: BlockId): seq<BlockId> {
    if HasParent(g, gd, d) then Mergeset(g, gd[d].selectedParent.value, g[d].parents) else []
  }

  /** order(B) = order(selected parent of B) ++ mergeset(B) ++ [B] */
  ghost function OrderOf(g: Graph, gd: DataMap, d: BlockId): seq<BlockId>
    decreases |Past(g, d)|
  {
    if HasParent(g, gd, d)
    then OrderOf(g, gd, gd[d].selectedParent.value) + (MergesetOf(g, gd, d) + [d])
    else [d]
  }

  /** The spine of the selected tip, then everything outside its past. */
  ghost function Linearized(g: Graph, gd: DataMap, tip: BlockId): seq<BlockId> {
    OrderOf(g, gd, tip) + TopoSorted(g, g.Keys - Past(g, tip) - {tip})
  }

  /** `r` lists the members of `s` once each, every block after its ancestors. */
  ghost predicate TopoList(g: Graph, s: set<BlockId>, r: seq<BlockId>) {
    && (forall b :: b in r <==> b in s)
    && (forall i, j :: 0 <= i < j < |r| ==> r[i] != r[j] && r[j] !in Past(g, r[i]))
  }

  lemma OrderedIsTopo(g: Graph, genesis: BlockId, s: set<BlockId>, r: seq<BlockId>)
    requires WellFormed(g, genesis) && Ordered(g, s, r)
    ensures TopoList(g, s, r)
  {
    OrderedDistinct(g, s, r);
    forall i, j | 0 <= i < j < |r|
      ensures r[j] !in Past(g, r[i])
    {
      if r[j] in Past(g, r[i]) {
        AncestorsFirst(g, genesis, s, r, j, i);
      }
    }
  }

  /** Lists may follow each other when the later one holds no ancestor of the earlier. */
  lemma JoinTopo(g: Graph, s1: set<BlockId>, r1: seq<BlockId>, s2: set<BlockId>, r2: seq<BlockId>)
    requires TopoList(g, s1, r1) && TopoList(g, s2, r2) && s1 !! s2
    requires forall a, b :: a in s1 && b in s2 ==> b !in Past(g, a)
    ensures TopoList(g, s1 + s2, r1 + r2)
  {
    var r := r1 + r2;
    forall i, j | 0 <= i < j < |r|
      ensures r[i] != r[j] && r[j] !in Past(g, r[i])
    {
      if i < |r1| && |r1| <= j {
        assert r[i] in s1 && r[j] in s2;
      }
    }
  }

  lemma SingleTopo(g: Graph, d: BlockId)
    ensures TopoList(g, {d}, [d])
  {
  }

  lemma ParentGuard(g: Graph, genesis: BlockId, k: nat, gd: DataMap, d: BlockId)
    requires Solves(g, genesis, k, gd) && d in g
    ensures HasParent(g, gd, d) <==> d != genesis
  {
    if d == genesis {
      assert DataAt(g, genesis, k, gd, d);
    } else {
      var sp, ms := Unfold(g, genesis, k, gd, d);
    }
  }

  /** The recursive order of a block lists its past and itself, topologically. */
  lemma {:induction false} OrderListsPast(g: Graph, genesis: BlockId, k: nat, gd: DataMap, d: BlockId)
    requires Solves(g, genesis, k, gd) && d in g
    ensures TopoList(g, Past(g, d) + {d}, OrderOf(g, gd, d))
    decreases |Past(g, d)|
  {
    ParentGuard(g, genesis, k, gd, d);
    if d == genesis {
      GenesisHasNoPast(g, genesis);
      SingleTopo(g, d);
      assert OrderOf(g, gd, d) == [d];
    } else {
      var sp, ms := Unfold(g, genesis, k, gd, d);
      OrderListsPast(g, genesis, k, gd, sp);
      JoinLevels(g, genesis, gd, k, d, sp, ms);
    }
  }

  /** A block and its past hold all their ancestors. */
  lemma ConeClosed(g: Graph, d: BlockId)
    ensures forall a, b :: a in Past(g, d) + {d} && b !in Past(g, d) + {d} ==> b !in Past(g, a)
  {
    forall a, b | a in Past(g, d) + {d} && b in Past(g, a)
      ensures b in Past(g, d) + {d}
    {
      if a != d {
        PastTransitive(g, b, a, d);
      }
    }
  }

  lemma ConeSplits(g: Graph, genesis: BlockId, gd: DataMap, k: nat, d: BlockId, sp: BlockId, ms: seq<BlockId>)
    requires WellFormed(g, genesis) && MadeFrom(g, k, gd, d, sp, ms)
    ensures Past(g, sp) + {sp} + MergedSet(g, sp, g[d].parents) == Past(g, d)
    ensures Past(g, sp) + {sp} !! MergedSet(g, sp, g[d].parents)
    ensures forall a :: a in Past(g, d) ==> d !in Past(g, a)
  {
    assert forall c :: c in ms <==> c in MergedSet(g, sp, g[d].parents);
    AncestorHasSmallerPast(g, genesis, sp, d);
    forall a | a in Past(g, d)
      ensures d !in Past(g, a)
    {
      if d in Past(g, a) {
        PastTransitive(g, d, a, d);
      }
    }
  }

  lemma JoinLevels(g: Graph, genesis: BlockId, gd: DataMap, k: nat, d: BlockId, sp: BlockId, ms: seq<BlockId>)
    requires WellFormed(g, genesis) && MadeFrom(g, k, gd, d, sp, ms) && HasParent(g, gd, d)
    requires TopoList(g, Past(g, sp) + {sp}, OrderOf(g, gd, sp))
    ensures TopoList(g, Past(g, d) + {d}, OrderOf(g, gd, d))
  {
    hide TopoList, MadeFrom, WellFormed, Past, OrderOf, MergedSet, HasParent;
    LevelFacts(g, genesis, gd, k, d, sp, ms);
    var below, merged := Past(g, sp) + {sp}, MergedSet(g, sp, g[d].parents);
    ConeClosed(g, sp);
    ConeSplits(g, genesis, gd, k, d, sp, ms);
    JoinTopo(g, below, OrderOf(g, gd, sp), merged, ms);
    SingleTopo(g, d);
    JoinTopo(g, below + merged, OrderOf(g, gd, sp) + ms, {d}, [d]);
  }

  lemma LevelFacts(g: Graph, genesis: BlockId, gd: DataMap, k: nat, d: BlockId, sp: BlockId, ms: seq<BlockId>)
    requires WellFormed(g, genesis) && MadeFrom(g, k, gd, d, sp, ms) && HasParent(g, gd, d)
    ensures d in g
    ensures TopoList(g, MergedSet(g, sp, g[d].parents), ms)
    ensures OrderOf(g, gd, d) == OrderOf(g, gd, sp) + ms + [d]
    ensures forall b :: b in MergedSet(g, sp, g[d].parents) ==> b !in Past(g, sp) + {sp}
    ensures forall a, b :: a in Past(g, sp) + {sp} && b in MergedSet(g, sp, g[d].parents) ==> b !in Past(g, a)
    ensures d !in Past(g, d)
  {
    OrderedIsTopo(g, genesis, MergedSet(g, sp, g[d].parents), ms);
    hide TopoList, Past;
    ConeClosed(g, sp);
    assert OrderOf(g, gd, sp) + (ms + [d]) == OrderOf(g, gd, sp) + ms + [d];
  }

  /** The linearization lists every block exactly once, after all its ancestors. */
  lemma LinearizationIsTotal(g: Graph, genesis: BlockId, k: nat, gd: DataMap, tip: BlockId)
    requires Solves(g, genesis, k, gd) && tip in g
    ensures TopoList(g, g.Keys, Linearized(g, gd, tip)) && |Linearized(g, gd, tip)| == |g|
  {
    hide TopoList, OrderOf, DataAt;
    OrderListsPast(g, genesis, k, gd, tip);
    var spine, rest := Past(g, tip) + {tip}, g.Keys - Past(g, tip) - {tip};
    OrderedIsTopo(g, genesis, rest, TopoSorted(g, rest));
    ConeClosed(g, tip);
    assert spine + rest == g.Keys && spine !! rest;
    hide Past;
    JoinTopo(g, spine, OrderOf(g, gd, tip), rest, TopoSorted(g, rest));
    TopoCount(g, g.Keys, Linearized(g, gd, tip));
    assert |g| == |g.Keys|;
  }

  lemma TopoCount(g: Graph, s: set<BlockId>, r: seq<BlockId>)
    requires TopoList(g, s, r)
    ensures |r| == |s|
  {
    DistinctCount(r);
    assert SetOf(r) == s;
  }

  // ---------------------------------------------------------- the spine as a loop

  /** Each chain block after its mergeset, along a chain. */
  ghost function Spine(g: Graph, gd: DataMap, chain: seq<BlockId>): seq<BlockId> {
    if chain == [] then []
    else Spine(g, gd, chain[..|chain| - 1]) + (MergesetOf(g, gd, chain[|chain| - 1]) + [chain[|chain| - 1]])
  }

  /** Walking the selected chain unrolls the recursion. */
  lemma {:induction false} SpineIsOrder(g: Graph, gd: DataMap, d: BlockId)
    ensures Spine(g, gd, Chain(g, gd, d)) == OrderOf(g, gd, d)
    decreases |Past(g, d)|
  {
    var chain := Chain(g, gd, d);
    if HasParent(g, gd, d) {
      SpineIsOrder(g, gd, gd[d].selectedParent.value);
      assert chain[..|chain| - 1] == Chain(g, gd, gd[d].selectedParent.value);
    } else {
      assert chain[..0] == [];
      assert Spine(g, gd, chain[..0]) == [];
    }
  }

  /** `a` appears in `b`, in order, at increasing places. */
  ghost predicate AppearsAt(a: seq<BlockId>, b: seq<BlockId>, at: seq<nat>) {
    && |at| == |a| && (forall i :: 0 <= i < |a| ==> at[i] < |b| && b[at[i]] == a[i])
    && (forall i, j :: 0 <= i < j < |at| ==> at[i] < at[j])
  }

  lemma AppearsExtended(a: seq<BlockId>, b: seq<BlockId>, at: seq<nat>, c: seq<BlockId>, x: BlockId)
    requires AppearsAt(a, b, at)
    ensures AppearsAt(a + [x], b + (c + [x]), at + [|b| + |c|])
  {
    var b', at' := b + (c + [x]), at + [|b| + |c|];
    assert b'[|b| + |c|] == x;
    forall i | 0 <= i < |a|
      ensures at'[i] < |b| && b'[at'[i]] == a[i]
    {
      assert at'[i] == at[i];
    }
  }

  /** The selected chain of a block is a subsequence of its order. */
  lemma {:induction false} ChainInSpine(g: Graph, gd: DataMap, d: BlockId) returns (at: seq<nat>)
    ensures AppearsAt(Chain(g, gd, d), OrderOf(g, gd, d), at)
    decreases |Past(g, d)|
  {
    hide MergesetOf, AppearsAt;
    if HasParent(g, gd, d) {
      var sp := gd[d].selectedParent.value;
      at := ChainInSpine(g, gd, sp);
      AppearsExtended(Chain(g, gd, sp), OrderOf(g, gd, sp), at, MergesetOf(g, gd, d), d);
      at := at + [|OrderOf(g, gd, sp)| + |MergesetOf(g, gd, d)|];
    } else {
      AppearsAlone(d);
      at := [0];
    }
  }

  /** The selected chain is a subsequence of the whole total order. */
  lemma ChainInOrder(g: Graph, gd: DataMap, tip: BlockId) returns (at: seq<nat>)
    ensures AppearsAt(Chain(g, gd, tip), Linearized(g, gd, tip), at)
  {
    hide Chain, OrderOf, TopoSorted;
    at := ChainInSpine(g, gd, tip);
  }

  /** The selected chain starts at genesis, and every block of it selects the one before. */
  lemma {:induction false} ChainFromGenesis(g: Graph, genesis: BlockId, k: nat, gd: DataMap, d: BlockId)
    requires Solves(g, genesis, k, gd) && d in g
    ensures var chain := Chain(g, gd, d);
      && chain[0] == genesis && (forall b :: b in chain ==> b in g)
      && forall i :: 0 < i < |chain| ==> chain[i] in gd && gd[chain[i]].selectedParent == Some(chain[i - 1])
    decreases |Past(g, d)|
  {
    hide Solves, Past, Chain;
    if d == genesis {
      ChainOfGenesis(g, genesis, k, gd);
    } else {
      ChainStep(g, genesis, k, gd, d);
      ChainFromGenesis(g, genesis, k, gd, gd[d].selectedParent.value);
    }
  }

  lemma ChainOfGenesis(g: Graph, genesis: BlockId, k: nat, gd: DataMap)
    requires Solves(g, genesis, k, gd)
    ensures genesis in g && Chain(g, gd, genesis) == [genesis]
  {
    ParentGuard(g, genesis, k, gd, genesis);
  }

  lemma ChainStep(g: Graph, genesis: BlockId, k: nat, gd: DataMap, d: BlockId)
    requires Solves(g, genesis, k, gd) && d in g && d != genesis
    ensures d in gd && gd[d].selectedParent.Some?
    ensures var sp := gd[d].selectedParent.value;
      sp in g && |Past(g, sp)| < |Past(g, d)| && Chain(g, gd, d) == Chain(g, gd, sp) + [d]
  {
    ParentGuard(g, genesis, k, gd, d);
    hide Past;
  }

  lemma AppearsAlone(d: BlockId)
    ensures AppearsAt([d], [d], [0])
  {
  }

  /** Building on `t` keeps the order of `t` as a prefix. */
  lemma OrderExtends(g: Graph, gd: DataMap, d: BlockId)
    requires HasParent(g, gd, d)
    ensures OrderOf(g, gd, gd[d].selectedParent.value) <= OrderOf(g, gd, d)
  {
  }
}
