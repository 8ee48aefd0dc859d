/** GHOSTDAG as a local equation: the data of a block from the data of its
    parents and the block graph. */
module Ghostdag {
  import opened BlockGraph
  import opened TopoOrder
  import opened Wrappers

  datatype GhostdagData = GhostdagData(
    selectedParent: Option<BlockId>,
    mergesetBlues: seq<BlockId>,
    mergesetReds: seq<BlockId>,
    blueScore: nat,
    blueWork: nat,
    blueAnticoneSizes: map<BlockId, nat>)

  const GENESIS_DATA := GhostdagData(None, [], [], 0, 0, map[])

  type DataMap = map<BlockId, GhostdagData>

  // ------------------------------------------------------------- chain selection

  /** Heavier blue work wins, then higher blue score, then the larger id. */
  predicate Lighter(gd: DataMap, a: BlockId, b: BlockId)
    requires a in gd && b in gd
  {
    || gd[a].blueWork < gd[b].blueWork
    || (gd[a].blueWork == gd[b].blueWork && gd[a].blueScore < gd[b].blueScore)
    || (gd[a].blueWork == gd[b].blueWork && gd[a].blueScore == gd[b].blueScore && a < b)
  }

  /** The heaviest of a nonempty list. */
  function Heaviest(gd: DataMap, s: seq<BlockId>): (h: BlockId)
    requires s != [] && forall b :: b in s ==> b in gd
    ensures h in s && forall b :: b in s ==> b == h || Lighter(gd, b, h)
  {
    if |s| == 1 then s[0]
    else
      var h := Heaviest(gd, s[..|s| - 1]);
      assert forall b :: b in s ==> b in s[..|s| - 1] || b == s[|s| - 1];
      if Lighter(gd, h, s[|s| - 1]) then s[|s| - 1] else h
  }

  lemma HeaviestUnique(gd: DataMap, gd': DataMap, s: seq<BlockId>, s': seq<BlockId>)
    requires s != [] && s' != [] && forall b :: b in s <==> b in s'
    requires forall b :: b in s ==> b in gd && b in gd' && gd[b] == gd'[b]
    ensures Heaviest(gd, s) == Heaviest(gd', s')
  {
  }

  // -------------------------------------------------------------------- mergeset

  /** What a block with these parents merges: its past outside the selected
      parent's past and the selected parent itself. */
  ghost function MergedSet(g: Graph, sp: BlockId, parents: seq<BlockId>): set<BlockId> {
    PastOf(g, parents) - Past(g, sp) - {sp}
  }

  ghost function Mergeset(g: Graph, sp: BlockId, parents: seq<BlockId>): seq<BlockId> {
    TopoSorted(g, MergedSet(g, sp, parents))
  }

  // ------------------------------------------------------------------- colouring

  /** A colouring in progress: the blue anticone sizes and the coloured mergeset. */
  datatype Colouring = Colouring(sizes: map<BlockId, nat>, blues: seq<BlockId>, reds: seq<BlockId>)

  ghost function AnticoneBlues(g: Graph, sizes: map<BlockId, nat>, c: BlockId): set<BlockId> {
    set b | b in sizes && Anticone(g, b, c)
  }

  /** The k-cluster rule: neither the candidate nor any blue may see more than `k`. */
  ghost predicate CanBeBlue(g: Graph, k: nat, sizes: map<BlockId, nat>, c: BlockId) {
    && |AnticoneBlues(g, sizes, c)| <= k
    && forall b :: b in AnticoneBlues(g, sizes, c) ==> sizes[b] + 1 <= k
  }

  /** Record the candidate's own count, and one more for every blue that sees it. */
  ghost function WithBlue(g: Graph, sizes: map<BlockId, nat>, c: BlockId): map<BlockId, nat> {
    (map b | b in sizes :: if b in AnticoneBlues(g, sizes, c) then sizes[b] + 1 else sizes[b])
      [c := |AnticoneBlues(g, sizes, c)|]
  }

  ghost function ColourStep(g: Graph, k: nat, st: Colouring, c: BlockId): Colouring {
    if CanBeBlue(g, k, st.sizes, c)
    then Colouring(WithBlue(g, st.sizes, c), st.blues + [c], st.reds)
    else Colouring(st.sizes, st.blues, st.reds + [c])
  }

  ghost function Colour(g: Graph, k: nat, st: Colouring, ms: seq<BlockId>): Colouring {
    if ms == [] then st else ColourStep(g, k, Colour(g, k, st, ms[..|ms| - 1]), ms[|ms| - 1])
  }

  function SumWork(g: Graph, s: seq<BlockId>): nat {
    if s == [] then 0 else SumWork(g, s[..|s| - 1]) + (if s[|s| - 1] in g then g[s[|s| - 1]].work else 0)
  }

  // ---------------------------------------------------------- the local equation

  ghost predicate HasData(gd: DataMap, parents: seq<BlockId>) {
    parents != [] && forall p :: p in parents ==> p in gd
  }

  ghost function Start(gd: DataMap, sp: BlockId): Colouring
    requires sp in gd
  {
    Colouring(gd[sp].blueAnticoneSizes[sp := 0], [], [])
  }

  ghost function Coloured(g: Graph, k: nat, gd: DataMap, parents: seq<BlockId>): Colouring
    requires HasData(gd, parents)
  {
    var sp := Heaviest(gd, parents);
    Colour(g, k, Start(gd, sp), Mergeset(g, sp, parents))
  }

  ghost function DataOf(g: Graph, k: nat, gd: DataMap, parents: seq<BlockId>): GhostdagData
    requires HasData(gd, parents)
  {
    var sp := Heaviest(gd, parents);
    var st := Coloured(g, k, gd, parents);
    GhostdagData(
      Some(sp), st.blues, st.reds,
      gd[sp].blueScore + 1 + |st.blues|,
      gd[sp].blueWork + (if sp in g then g[sp].work else 0) + SumWork(g, st.blues),
      st.sizes)
  }

  ghost predicate DataAt(g: Graph, genesis: BlockId, k: nat, gd: DataMap, d: BlockId) {
    d in g && d in gd &&
    if d == genesis then gd[d] == GENESIS_DATA
    else HasData(gd, g[d].parents) && gd[d] == DataOf(g, k, gd, g[d].parents)
  }

  /** Every block's data solves the equation. */
  ghost predicate Solves(g: Graph, genesis: BlockId, k: nat, gd: DataMap) {
    && WellFormed(g, genesis) && gd.Keys == g.Keys
    && forall d :: d in g ==> DataAt(g, genesis, k, gd, d)
  }

  // ------------------------------------------------------------------ uniqueness

  lemma DataOfAgrees(g: Graph, k: nat, gd: DataMap, gd': DataMap, parents: seq<BlockId>)
    requires HasData(gd, parents) && HasData(gd', parents)
    requires forall p :: p in parents ==> gd[p] == gd'[p]
    ensures DataOf(g, k, gd, parents) == DataOf(g, k, gd', parents)
  {
    HeaviestUnique(gd, gd', parents, parents);
  }

  /** The equation has at most one solution: consensus data is a function of the
      block graph, whatever order the blocks arrived in. */
  lemma {:induction false} SolutionUnique(
      g: Graph, genesis: BlockId, k: nat, gd: DataMap, gd': DataMap, d: BlockId)
    requires Solves(g, genesis, k, gd) && Solves(g, genesis, k, gd') && d in g
    ensures gd[d] == gd'[d]
    decreases |Past(g, d)|
  {
    assert DataAt(g, genesis, k, gd, d) && DataAt(g, genesis, k, gd', d);
    if d != genesis {
      var parents := g[d].parents;
      assert KnownParents(g, parents);
      forall p | p in parents
        ensures gd[p] == gd'[p]
      {
        ParentInPast(g, p, d);
        AncestorHasSmallerPast(g, genesis, p, d);
        SolutionUnique(g, genesis, k, gd, gd', p);
      }
      DataOfAgrees(g, k, gd, gd', parents);
    }
  }

  // --------------------------------------------------------------------- growing

  lemma {:induction false} ColourAgrees(
      g: Graph, g': Graph, k: nat, st: Colouring, ms: seq<BlockId>, known: set<BlockId>)
    requires forall a, b :: a in known && b in known ==> (Anticone(g, a, b) <==> Anticone(g', a, b))
    requires st.sizes.Keys <= known && forall c :: c in ms ==> c in known
    ensures Colour(g, k, st, ms) == Colour(g', k, st, ms)
    ensures Colour(g, k, st, ms).sizes.Keys <= known
  {
    if ms != [] {
      var c, front := ms[|ms| - 1], ms[..|ms| - 1];
      assert c in ms && c in known;
      ColourAgrees(g, g', k, st, front, known);
      var st1 := Colour(g, k, st, front);
      assert AnticoneBlues(g, st1.sizes, c) == AnticoneBlues(g', st1.sizes, c);
      assert WithBlue(g, st1.sizes, c) == WithBlue(g', st1.sizes, c);
    }
  }

  lemma {:induction false} SumWorkAgrees(g: Graph, g': Graph, s: seq<BlockId>)
    requires forall b :: b in s ==> b in g && b in g' && g[b] == g'[b]
    ensures SumWork(g, s) == SumWork(g', s)
  {
    if s != [] {
      assert s[|s| - 1] in s;
      SumWorkAgrees(g, g', s[..|s| - 1]);
    }
  }
}
