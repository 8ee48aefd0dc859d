/** The block graph: what consensus reads of the stored blocks, and the one
    relation everything else is defined from, ancestry along parent edges. */
module BlockGraph {

  const ID_SPACE: int := 0x1_0000000000000000_0000000000000000_0000000000000000_0000000000000000

  /** A 32-byte id, read as a big-endian number: byte order is number order. */
  newtype BlockId = x: int | 0 <= x < ID_SPACE

  datatype Vertex = Vertex(parents: seq<BlockId>, work: nat, timestampMs: nat)

  type Graph = map<BlockId, Vertex>

  function SetOf(s: seq<BlockId>): set<BlockId> {
    set b | b in s
  }

  ghost predicate Distinct(s: seq<BlockId>) {
    forall i, j :: 0 <= i < j < |s| ==> s[i] != s[j]
  }

  /** `a` is reached from `d` by following at least one and at most `n` parent edges. */
  ghost predicate ReachesIn(g: Graph, a: BlockId, d: BlockId, n: nat)
    decreases n
  {
    n > 0 && d in g && exists p :: p in g[d].parents && (p == a || ReachesIn(g, a, p, n - 1))
  }

  /** The transitive closure of the parent edges. */
  ghost predicate Ancestor(g: Graph, a: BlockId, d: BlockId) {
    exists n: nat :: ReachesIn(g, a, d, n)
  }

  ghost function Past(g: Graph, d: BlockId): set<BlockId> {
    set a | a in g && Ancestor(g, a, d)
  }

  /** The past a block listing these parents has. */
  ghost function PastOf(g: Graph, parents: seq<BlockId>): set<BlockId> {
    set a | a in g && InPastOf(g, parents, a)
  }

  ghost predicate InPastOf(g: Graph, parents: seq<BlockId>, a: BlockId) {
    exists p :: p in parents && (a == p || a in Past(g, p))
  }

  /** Distinct blocks neither of which is an ancestor of the other. */
  ghost predicate Anticone(g: Graph, a: BlockId, b: BlockId) {
    a != b && a !in Past(g, b) && b !in Past(g, a)
  }

  ghost predicate KnownParents(g: Graph, parents: seq<BlockId>) {
    forall p :: p in parents ==> p in g
  }

  ghost predicate WellFormed(g: Graph, genesis: BlockId) {
    && genesis in g && g[genesis].parents == []
    && (forall d :: d in g ==> KnownParents(g, g[d].parents))
    && (forall d :: d in g && d != genesis ==> g[d].parents != [])
    && (forall d :: d in g ==> !Ancestor(g, d, d))
  }

  lemma {:induction false} ReachesMonotone(g: Graph, a: BlockId, d: BlockId, n: nat, m: nat)
    requires ReachesIn(g, a, d, n) && n <= m
    ensures ReachesIn(g, a, d, m)
    decreases n
  {
    var p :| p in g[d].parents && (p == a || ReachesIn(g, a, p, n - 1));
    if p != a {
      ReachesMonotone(g, a, p, n - 1, m - 1);
    }
  }

  lemma {:induction false} ReachesTransitive(g: Graph, a: BlockId, b: BlockId, c: BlockId, n: nat, m: nat)
    requires ReachesIn(g, a, b, n) && ReachesIn(g, b, c, m)
    ensures ReachesIn(g, a, c, n + m)
    decreases m
  {
    var p :| p in g[c].parents && (p == b || ReachesIn(g, b, p, m - 1));
    if p == b {
      ReachesMonotone(g, a, b, n, n + m - 1);
    } else {
      ReachesTransitive(g, a, b, p, n, m - 1);
    }
  }

  lemma PastTransitive(g: Graph, a: BlockId, b: BlockId, c: BlockId)
    requires a in Past(g, b) && b in Past(g, c)
    ensures a in Past(g, c)
  {
    var n: nat :| ReachesIn(g, a, b, n);
    var m: nat :| ReachesIn(g, b, c, m);
    ReachesTransitive(g, a, b, c, n, m);
  }

  /** One step of the closure: a block's past is its parents and their pasts. */
  lemma PastIsPastOfParents(g: Graph, d: BlockId)
    requires d in g && KnownParents(g, g[d].parents)
    ensures Past(g, d) == PastOf(g, g[d].parents)
  {
    forall a | a in Past(g, d)
      ensures a in PastOf(g, g[d].parents)
    {
      var n: nat :| ReachesIn(g, a, d, n);
      var p :| p in g[d].parents && (p == a || ReachesIn(g, a, p, n - 1));
      assert InPastOf(g, g[d].parents, a);
    }
    forall a | a in PastOf(g, g[d].parents)
      ensures a in Past(g, d)
    {
      var p :| p in g[d].parents && (a == p || a in Past(g, p));
      if a == p {
        assert ReachesIn(g, a, d, 1);
      } else {
        var n: nat :| ReachesIn(g, a, p, n);
        assert ReachesIn(g, a, d, n + 1);
      }
    }
  }

  lemma ParentInPast(g: Graph, p: BlockId, d: BlockId)
    requires p in g && d in g && p in g[d].parents
    ensures p in Past(g, d)
  {
    assert ReachesIn(g, p, d, 1);
  }

  lemma {:induction false} DistinctCount(s: seq<BlockId>)
    requires Distinct(s)
    ensures |SetOf(s)| == |s|
  {
    if s != [] {
      var x, front := s[|s| - 1], s[..|s| - 1];
      assert s == front + [x];
      DistinctCount(front);
      assert SetOf(s) == SetOf(front) + {x} && x !in SetOf(front);
    }
  }

  lemma SubsetSize<T>(a: set<T>, b: set<T>)
    requires a <= b
    ensures |a| <= |b|
    ensures a != b ==> |a| < |b|
  {
    assert b == a + (b - a);
    if a != b {
      var x :| x in b - a;
    }
  }

  /** An ancestor has a strictly smaller past: the induction measure. */
  lemma AncestorHasSmallerPast(g: Graph, genesis: BlockId, a: BlockId, d: BlockId)
    requires WellFormed(g, genesis) && a in Past(g, d)
    ensures Past(g, a) < Past(g, d) && |Past(g, a)| < |Past(g, d)|
  {
    forall x | x in Past(g, a)
      ensures x in Past(g, d)
    {
      PastTransitive(g, x, a, d);
    }
    SubsetSize(Past(g, a), Past(g, d));
  }

  lemma PastKnown(g: Graph, parents: seq<BlockId>)
    ensures PastOf(g, parents) <= g.Keys
    ensures forall p :: p in parents && p in g ==> p in PastOf(g, parents) && Past(g, p) <= PastOf(g, parents)
  {
    forall p | p in parents && p in g
      ensures p in PastOf(g, parents) && Past(g, p) <= PastOf(g, parents)
    {
      assert InPastOf(g, parents, p);
      forall a | a in Past(g, p)
        ensures a in PastOf(g, parents)
      {
        assert InPastOf(g, parents, a);
      }
    }
  }

  /** The past of a parent list is closed under taking ancestors. */
  lemma PastOfClosed(g: Graph, parents: seq<BlockId>, b: BlockId, a: BlockId)
    requires b in PastOf(g, parents) && a in Past(g, b)
    ensures a in PastOf(g, parents)
  {
    var p :| p in parents && (b == p || b in Past(g, p));
    if b != p {
      PastTransitive(g, a, b, p);
    }
    assert InPastOf(g, parents, a);
  }

  lemma GenesisHasNoPast(g: Graph, genesis: BlockId)
    requires WellFormed(g, genesis)
    ensures Past(g, genesis) == {}
  {
    PastIsPastOfParents(g, genesis);
    assert forall a :: !InPastOf(g, [], a);
  }

  lemma {:induction false} GenesisIsInEveryPast(g: Graph, genesis: BlockId, d: BlockId)
    requires WellFormed(g, genesis) && d in g && d != genesis
    ensures genesis in Past(g, d)
    decreases |Past(g, d)|
  {
    var p := g[d].parents[0];
    assert p in g[d].parents;
    ParentInPast(g, p, d);
    if p != genesis {
      AncestorHasSmallerPast(g, genesis, p, d);
      GenesisIsInEveryPast(g, genesis, p);
      PastTransitive(g, genesis, p, d);
    }
  }

  // ---------------------------------------------------------------- growing

  ghost predicate Grows(g: Graph, id: BlockId, v: Vertex, g': Graph) {
    id !in g && KnownParents(g, v.parents) && g' == g[id := v]
  }

  lemma {:induction false} ReachesKeptByGrowth(
      g: Graph, genesis: BlockId, id: BlockId, v: Vertex, g': Graph, a: BlockId, d: BlockId, n: nat)
    requires WellFormed(g, genesis) && Grows(g, id, v, g') && d in g
    ensures ReachesIn(g, a, d, n) <==> ReachesIn(g', a, d, n)
    ensures ReachesIn(g', a, d, n) ==> a in g
    decreases n
  {
    if n > 0 {
      forall p | p in g[d].parents
        ensures ReachesIn(g, a, p, n - 1) <==> ReachesIn(g', a, p, n - 1)
        ensures ReachesIn(g', a, p, n - 1) ==> a in g
      {
        assert KnownParents(g, g[d].parents);
        ReachesKeptByGrowth(g, genesis, id, v, g', a, p, n - 1);
      }
      assert KnownParents(g, g[d].parents);
    }
  }

  lemma PastKeptByGrowth(g: Graph, genesis: BlockId, id: BlockId, v: Vertex, g': Graph, d: BlockId)
    requires WellFormed(g, genesis) && Grows(g, id, v, g') && d in g
    ensures Past(g', d) == Past(g, d)
  {
    forall a: BlockId, n: nat
      ensures ReachesIn(g, a, d, n) <==> ReachesIn(g', a, d, n)
      ensures ReachesIn(g', a, d, n) ==> a in g
    {
      ReachesKeptByGrowth(g, genesis, id, v, g', a, d, n);
    }
  }

  lemma PastOfKeptByGrowth(g: Graph, genesis: BlockId, id: BlockId, v: Vertex, g': Graph, parents: seq<BlockId>)
    requires WellFormed(g, genesis) && Grows(g, id, v, g') && KnownParents(g, parents)
    ensures PastOf(g', parents) == PastOf(g, parents)
  {
    forall p | p in parents
      ensures Past(g', p) == Past(g, p)
    {
      PastKeptByGrowth(g, genesis, id, v, g', p);
    }
    forall a: BlockId
      ensures InPastOf(g', parents, a) <==> InPastOf(g, parents, a)
    {
    }
  }

  /** Adding a childless block keeps every past, and keeps the graph acyclic. */
  lemma GrowthKeepsWellFormed(g: Graph, genesis: BlockId, id: BlockId, v: Vertex, g': Graph)
    requires WellFormed(g, genesis) && Grows(g, id, v, g') && v.parents != []
    ensures WellFormed(g', genesis)
    ensures forall d :: d in g ==> Past(g', d) == Past(g, d)
    ensures Past(g', id) == PastOf(g, v.parents) && id !in Past(g', id)
  {
    forall d | d in g
      ensures Past(g', d) == Past(g, d) && KnownParents(g', g'[d].parents) && !Ancestor(g', d, d)
    {
      PastKeptByGrowth(g, genesis, id, v, g', d);
      assert KnownParents(g, g[d].parents);
      assert d !in Past(g, d);
      assert d !in Past(g', d);
    }
    assert KnownParents(g', v.parents);
    PastIsPastOfParents(g', id);
    PastOfKeptByGrowth(g, genesis, id, v, g', v.parents);
    assert id !in Past(g', id);
    assert !Ancestor(g', id, id);
  }
}
