/** The selected chain and the total order in plain terms: where every block stands, without
    saying how the order is put together. */
module OrderLaws {
  import opened BlockGraph
  import opened TopoOrder
  import opened Ghostdag
  import opened Laws
  import opened Ordering
  import opened Wrappers

  // ------------------------------------------------------------------- the chain

  /** From genesis to `tip`, every block selecting the one before. */
  ghost predicate IsChain(gd: DataMap, genesis: BlockId, tip: BlockId, chain: seq<BlockId>) {
    && chain != [] && chain[0] == genesis && chain[|chain| - 1] == tip
    && (forall b :: b in chain ==> b in gd) && gd[genesis].selectedParent == None
    && forall i :: 0 < i < |chain| ==> gd[chain[i]].selectedParent == Some(chain[i - 1])
  }

  lemma ChainIsChain(g: Graph, genesis: BlockId, k: nat, gd: DataMap, d: BlockId)
    requires Solves(g, genesis, k, gd) && d in g
    ensures IsChain(gd, genesis, d, Chain(g, gd, d))
  {
    var ms := StoredFollows(g, genesis, k, gd, genesis);
    ChainFromGenesis(g, genesis, k, gd, d);
    hide Chain;
    SolvedKeys(g, genesis, k, gd);
  }

  lemma {:induction false} ChainOnce(
      gd: DataMap, genesis: BlockId, tip: BlockId, chain: seq<BlockId>, chain': seq<BlockId>)
    requires IsChain(gd, genesis, tip, chain) && IsChain(gd, genesis, tip, chain')
    ensures chain == chain'
    decreases |chain|
  {
    var n, m := |chain| - 1, |chain'| - 1;
    assert n > 0 ==> gd[tip].selectedParent == Some(chain[n - 1]);
    assert m > 0 ==> gd[tip].selectedParent == Some(chain'[m - 1]);
    if n > 0 && m > 0 {
      ChainFront(gd, genesis, tip, chain);
      ChainFront(gd, genesis, tip, chain');
      ChainOnce(gd, genesis, chain[n - 1], chain[..n], chain'[..m]);
      assert chain == chain[..n] + [tip] && chain' == chain'[..m] + [tip];
    }
  }

  lemma ChainFront(gd: DataMap, genesis: BlockId, tip: BlockId, chain: seq<BlockId>)
    requires IsChain(gd, genesis, tip, chain) && |chain| > 1
    ensures IsChain(gd, genesis, chain[|chain| - 2], chain[..|chain| - 1])
  {
    assert forall b :: b in chain[..|chain| - 1] ==> b in chain;
  }

  // -------------------------------------------------------------- the total order

  /** Chain block `i` stands at `at[i]`, and what it merges stands between it and the one
      before. */
  ghost predicate StandsAt(g: Graph, chain: seq<BlockId>, order: seq<BlockId>, at: seq<nat>, i: nat)
    requires |at| == |chain| && i < |chain|
  {
    && at[i] < |order| && order[at[i]] == chain[i] && chain[i] in g
    && if i == 0 then at[0] == 0
       else at[i - 1] < at[i] && Merges(g, chain[i - 1], g[chain[i]].parents, order[at[i - 1] + 1..at[i]])
  }

  /** What comes last: everything that is not `tip` nor below it. */
  ghost predicate Leftover(g: Graph, tip: BlockId, rest: seq<BlockId>) {
    ByPastThenId(g, rest) && forall c :: c in rest <==> c in g && c != tip && c !in Past(g, tip)
  }

  ghost predicate Linear(g: Graph, tip: BlockId, chain: seq<BlockId>, order: seq<BlockId>, at: seq<nat>) {
    && |at| == |chain| && chain != [] && (forall i :: 0 <= i < |chain| ==> StandsAt(g, chain, order, at, i))
    && at[|chain| - 1] < |order| && Leftover(g, tip, order[at[|chain| - 1] + 1..])
  }

  lemma StandsLater(g: Graph, chain: seq<BlockId>, order: seq<BlockId>, more: seq<BlockId>, at: seq<nat>, i: nat)
    requires |at| == |chain| && i < |chain| && StandsAt(g, chain, order, at, i)
    requires i > 0 ==> at[i - 1] < |order|
    ensures StandsAt(g, chain, order + more, at, i)
  {
    if i > 0 {
      assert (order + more)[at[i - 1] + 1..at[i]] == order[at[i - 1] + 1..at[i]];
    }
  }

  /** Along the chain, each block comes after what it merges. */
  lemma {:induction false} SpineStands(
      g: Graph, genesis: BlockId, k: nat, gd: DataMap, tip: BlockId, chain: seq<BlockId>) returns (at: seq<nat>)
    requires Solves(g, genesis, k, gd) && IsChain(gd, genesis, tip, chain)
    ensures |at| == |chain| && at[|at| - 1] + 1 == |Spine(g, gd, chain)|
    ensures forall i :: 0 <= i < |chain| ==> StandsAt(g, chain, Spine(g, gd, chain), at, i)
    decreases |chain|
  {
    SolvedKeys(g, genesis, k, gd);
    var n := |chain| - 1;
    var front := chain[..n];
    var merged := MergesetOf(g, gd, tip);
    SpineLast(g, gd, chain);
    hide Solves, Spine, MergesetOf, Merges, Past;
    if n == 0 {
      NothingMerged(g, genesis, k, gd);
      EmptySpine(g, gd);
      assert front == [] && [] + (merged + [tip]) == [tip];
      at := [0];
    } else {
      ChainFront(gd, genesis, tip, chain);
      var at0 := SpineStands(g, genesis, k, gd, chain[n - 1], front);
      TipMerges(g, genesis, k, gd, tip, chain[n - 1]);
      at := LastStands(g, chain, front, Spine(g, gd, front), merged, at0);
    }
  }

  lemma EmptySpine(g: Graph, gd: DataMap)
    ensures Spine(g, gd, []) == []
  {
  }

  lemma SpineLast(g: Graph, gd: DataMap, chain: seq<BlockId>)
    requires chain != []
    ensures Spine(g, gd, chain) ==
      Spine(g, gd, chain[..|chain| - 1]) + (MergesetOf(g, gd, chain[|chain| - 1]) + [chain[|chain| - 1]])
  {
  }

  lemma NothingMerged(g: Graph, genesis: BlockId, k: nat, gd: DataMap)
    requires Solves(g, genesis, k, gd) && genesis in g
    ensures MergesetOf(g, gd, genesis) == []
  {
    ParentGuard(g, genesis, k, gd, genesis);
  }

  lemma TipMerges(g: Graph, genesis: BlockId, k: nat, gd: DataMap, d: BlockId, sp: BlockId)
    requires Solves(g, genesis, k, gd) && d in g && d in gd && gd[d].selectedParent == Some(sp)
    ensures Merges(g, sp, g[d].parents, MergesetOf(g, gd, d))
  {
    var ms := StoredFollows(g, genesis, k, gd, d);
    ParentGuard(g, genesis, k, gd, d);
    MergesetMerges(g, sp, g[d].parents);
    hide Mergeset, Merges;
  }

  lemma LastStands(
      g: Graph, chain: seq<BlockId>, front: seq<BlockId>, before: seq<BlockId>, merged: seq<BlockId>, at0: seq<nat>)
    returns (at: seq<nat>)
    requires |chain| > 1 && front == chain[..|chain| - 1] && |at0| == |front| && at0[|at0| - 1] + 1 == |before|
    requires forall i :: 0 <= i < |at0| ==> StandsAt(g, front, before, at0, i)
    requires var d := chain[|chain| - 1]; d in g && Merges(g, chain[|chain| - 2], g[d].parents, merged)
    ensures var order := before + (merged + [chain[|chain| - 1]]);
      && |at| == |chain| && at[|at| - 1] + 1 == |order|
      && forall i :: 0 <= i < |chain| ==> StandsAt(g, chain, order, at, i)
  {
    hide Merges;
    var n, d := |chain| - 1, chain[|chain| - 1];
    var order := before + (merged + [d]);
    at := at0 + [|before| + |merged|];
    forall i | 0 <= i < n
      ensures StandsAt(g, chain, order, at, i)
    {
      assert StandsAt(g, front, before, at0, i);
      if i > 0 {
        assert StandsAt(g, front, before, at0, i - 1);
      }
      StandsLater(g, front, before, merged + [d], at0, i);
    }
    assert order[at[n - 1] + 1..at[n]] == merged;
  }

  /** The total order is this one. */
  lemma LinearizedIsLinear(g: Graph, genesis: BlockId, k: nat, gd: DataMap, tip: BlockId) returns (at: seq<nat>)
    requires Solves(g, genesis, k, gd) && tip in g
    ensures Linear(g, tip, Chain(g, gd, tip), Linearized(g, gd, tip), at)
  {
    hide Solves, Chain, Spine, OrderOf, TopoSorted, Past, IsChain, StandsAt, Linear, Leftover;
    var chain, rest := Chain(g, gd, tip), TopoSorted(g, g.Keys - Past(g, tip) - {tip});
    ChainIsChain(g, genesis, k, gd, tip);
    SpineIsOrder(g, gd, tip);
    RestIsLeftover(g, tip);
    at := SpineStands(g, genesis, k, gd, tip, chain);
    LeftoverFollows(g, tip, chain, Spine(g, gd, chain), rest, at);
  }

  lemma RestIsLeftover(g: Graph, tip: BlockId)
    ensures Leftover(g, tip, TopoSorted(g, g.Keys - Past(g, tip) - {tip}))
  {
    hide Past, ByPastThenId;
    OrderedByPast(g, g.Keys - Past(g, tip) - {tip}, TopoSorted(g, g.Keys - Past(g, tip) - {tip}));
  }

  lemma LeftoverFollows(
      g: Graph, tip: BlockId, chain: seq<BlockId>, spine: seq<BlockId>, rest: seq<BlockId>, at: seq<nat>)
    requires |at| == |chain| && chain != [] && at[|at| - 1] + 1 == |spine| && Leftover(g, tip, rest)
    requires forall i :: 0 <= i < |chain| ==> StandsAt(g, chain, spine, at, i)
    ensures Linear(g, tip, chain, spine + rest, at)
  {
    hide Leftover, Merges;
    forall i | 0 <= i < |chain|
      ensures StandsAt(g, chain, spine + rest, at, i)
    {
      assert i > 0 ==> StandsAt(g, chain, spine, at, i - 1);
      StandsLater(g, chain, spine, rest, at, i);
    }
    assert (spine + rest)[at[|chain| - 1] + 1..] == rest;
  }

  lemma LeftoverOnce(g: Graph, tip: BlockId, rest: seq<BlockId>, rest': seq<BlockId>)
    requires Leftover(g, tip, rest) && Leftover(g, tip, rest')
    ensures rest == rest'
  {
    hide ByPastThenId, Past;
    ListedOnce(g, rest, rest');
  }

  lemma MergesOnce(g: Graph, sp: BlockId, parents: seq<BlockId>, ms: seq<BlockId>, ms': seq<BlockId>)
    requires Merges(g, sp, parents, ms) && Merges(g, sp, parents, ms')
    ensures ms == ms'
  {
    hide ByPastThenId, Past;
    ListedOnce(g, ms, ms');
  }

  lemma {:induction false} StandsOnce(
      g: Graph, chain: seq<BlockId>, order: seq<BlockId>, at: seq<nat>, order': seq<BlockId>, at': seq<nat>, i: nat)
    requires |at| == |at'| == |chain| && i < |chain|
    requires forall j :: 0 <= j < |chain| ==> StandsAt(g, chain, order, at, j) && StandsAt(g, chain, order', at', j)
    ensures at[i] == at'[i] && at[i] < |order| && at[i] < |order'| && order[..at[i] + 1] == order'[..at[i] + 1]
  {
    hide Merges;
    assert StandsAt(g, chain, order, at, i) && StandsAt(g, chain, order', at', i);
    if i > 0 {
      StandsOnce(g, chain, order, at, order', at', i - 1);
      MergesOnce(
        g, chain[i - 1], g[chain[i]].parents, order[at[i - 1] + 1..at[i]], order'[at'[i - 1] + 1..at'[i]]);
      hide StandsAt, Merges;
      var a := at[i - 1] + 1;
      assert |order[a..at[i]]| == |order'[a..at'[i]]|;
      PrefixGrows(order, order', a, at[i]);
    }
  }

  lemma PrefixGrows(s: seq<BlockId>, t: seq<BlockId>, a: nat, b: nat)
    requires a <= b < |s| && b < |t| && s[..a] == t[..a] && s[a..b] == t[a..b] && s[b] == t[b]
    ensures s[..b + 1] == t[..b + 1]
  {
    assert s[..b + 1] == s[..a] + s[a..b] + [s[b]];
    assert t[..b + 1] == t[..a] + t[a..b] + [t[b]];
  }

  lemma SameParts(s: seq<BlockId>, t: seq<BlockId>, n: nat)
    requires n <= |s| && n <= |t| && s[..n] == t[..n] && s[n..] == t[n..]
    ensures s == t
  {
    assert s == s[..n] + s[n..] && t == t[..n] + t[n..];
  }

  /** There is only one such order. */
  lemma LinearOnce(
      g: Graph, tip: BlockId, chain: seq<BlockId>, order: seq<BlockId>, at: seq<nat>, order': seq<BlockId>, at': seq<nat>)
    requires Linear(g, tip, chain, order, at) && Linear(g, tip, chain, order', at')
    ensures order == order'
  {
    hide StandsAt, Leftover;
    var last := |chain| - 1;
    StandsOnce(g, chain, order, at, order', at', last);
    LeftoverOnce(g, tip, order[at[last] + 1..], order'[at'[last] + 1..]);
    SameParts(order, order', at[last] + 1);
  }
}
