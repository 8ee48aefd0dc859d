/** The bounded backward walk that collects a mergeset. */
module MergesetWalk {
  import opened BlockGraph
  import opened TopoOrder
  import opened Ghostdag

  /** In the past of the selected parent, or the selected parent: not merged. */
  ghost predicate Boundary(g: Graph, sp: BlockId, x: BlockId) {
    x !in g || x == sp || x in Past(g, sp)
  }

  ghost predicate Queued(seen: set<BlockId>, queue: seq<BlockId>, x: BlockId) {
    x in seen || x in queue
  }

  /** Where the walk stands: what was seen lies in the past of the parents, the merged
      list is what was seen beyond the boundary, and its parents are not forgotten. */
  ghost predicate Walking(
      g: Graph, sp: BlockId, parents: seq<BlockId>, seen: set<BlockId>, queue: seq<BlockId>, ms: seq<BlockId>) {
    && (forall x :: Queued(seen, queue, x) ==> x in parents || InPastOf(g, parents, x))
    && (forall i, j :: 0 <= i < j < |ms| ==> ms[i] != ms[j])
    && (forall x :: x in ms <==> x in seen && !Boundary(g, sp, x))
    && (forall p :: p in parents ==> Queued(seen, queue, p))
    && (forall x :: x in ms ==> ParentsQueued(g, seen, queue, x))
  }

  ghost predicate ParentsQueued(g: Graph, seen: set<BlockId>, queue: seq<BlockId>, x: BlockId) {
    x in g && forall p :: p in g[x].parents ==> Queued(seen, queue, p)
  }

  lemma WalkStart(g: Graph, sp: BlockId, parents: seq<BlockId>)
    ensures Walking(g, sp, parents, {}, parents, [])
  {
  }

  /** A block already seen, or on the boundary, is dropped from the queue. */
  lemma WalkSkip(
      g: Graph, sp: BlockId, parents: seq<BlockId>, seen: set<BlockId>, x: BlockId, rest: seq<BlockId>, ms: seq<BlockId>)
    requires Walking(g, sp, parents, seen, [x] + rest, ms) && (x in seen || Boundary(g, sp, x))
    ensures Walking(g, sp, parents, seen + {x}, rest, ms)
  {
    hide Boundary, InPastOf;
    assert forall y :: y in [x] + rest <==> y == x || y in rest;
    assert forall y :: Queued(seen, [x] + rest, y) <==> Queued(seen + {x}, rest, y);
    forall y | y in ms
      ensures ParentsQueued(g, seen + {x}, rest, y)
    {
      assert ParentsQueued(g, seen, [x] + rest, y);
    }
  }

  /** A merged block puts its parents on the queue. */
  lemma WalkMerge(
      g: Graph, genesis: BlockId, sp: BlockId, parents: seq<BlockId>, seen: set<BlockId>, x: BlockId, rest: seq<BlockId>,
      ms: seq<BlockId>)
    requires WellFormed(g, genesis) && Walking(g, sp, parents, seen, [x] + rest, ms)
    requires x !in seen && !Boundary(g, sp, x)
    ensures x in g && Walking(g, sp, parents, seen + {x}, rest + g[x].parents, ms + [x])
  {
    var queue := rest + g[x].parents;
    assert forall y :: y in [x] + rest <==> y == x || y in rest;
    assert Queued(seen, [x] + rest, x);
    ParentsInPastOf(g, genesis, parents, x);
    hide Boundary, InPastOf, WellFormed;
    assert forall y :: Queued(seen, [x] + rest, y) ==> Queued(seen + {x}, queue, y);
    forall y | y in ms + [x]
      ensures ParentsQueued(g, seen + {x}, queue, y)
    {
      if y != x {
        assert ParentsQueued(g, seen, [x] + rest, y);
      }
    }
  }

  lemma ParentsInPastOf(g: Graph, genesis: BlockId, parents: seq<BlockId>, x: BlockId)
    requires WellFormed(g, genesis) && x in g && (x in parents || InPastOf(g, parents, x))
    ensures forall p :: p in g[x].parents ==> InPastOf(g, parents, p)
  {
    assert KnownParents(g, g[x].parents);
    assert InPastOf(g, parents, x);
    forall p | p in g[x].parents
      ensures InPastOf(g, parents, p)
    {
      ParentInPast(g, p, x);
      assert x in PastOf(g, parents);
      PastOfClosed(g, parents, x, p);
      assert p in PastOf(g, parents);
    }
  }

  /** Everything between a seen block and a block beyond the boundary was seen. */
  lemma {:induction false} WalkReaches(
      g: Graph, genesis: BlockId, sp: BlockId, parents: seq<BlockId>, seen: set<BlockId>, ms: seq<BlockId>,
      a: BlockId, d: BlockId, n: nat)
    requires WellFormed(g, genesis) && Walking(g, sp, parents, seen, [], ms)
    requires ReachesIn(g, a, d, n) && a in g && !Boundary(g, sp, a) && d in seen
    ensures a in seen
    decreases n
  {
    var p :| p in g[d].parents && (p == a || ReachesIn(g, a, p, n - 1));
    assert a in Past(g, d);
    assert !Boundary(g, sp, d) by {
      if d in Past(g, sp) {
        PastTransitive(g, a, d, sp);
      }
    }
    assert d in ms && ParentsQueued(g, seen, [], d);
    assert Queued(seen, [], p);
    if p != a {
      WalkReaches(g, genesis, sp, parents, seen, ms, a, p, n - 1);
    }
  }

  /** An exhausted queue means the whole mergeset was found, and nothing else. */
  lemma WalkComplete(
      g: Graph, genesis: BlockId, sp: BlockId, parents: seq<BlockId>, seen: set<BlockId>, ms: seq<BlockId>)
    requires WellFormed(g, genesis) && Walking(g, sp, parents, seen, [], ms)
    ensures forall x :: x in ms <==> x in MergedSet(g, sp, parents)
  {
    forall x | x in ms
      ensures x in MergedSet(g, sp, parents)
    {
      assert Queued(seen, [], x);
      assert InPastOf(g, parents, x);
    }
    forall x | x in MergedSet(g, sp, parents)
      ensures x in ms
    {
      var p :| p in parents && (x == p || x in Past(g, p));
      assert Queued(seen, [], p);
      if x != p {
        var n: nat :| ReachesIn(g, x, p, n);
        WalkReaches(g, genesis, sp, parents, seen, ms, x, p, n);
      }
    }
  }

  /** Sorting the walk's list by stored past sizes gives the mergeset in order. */
  lemma SortedIsMergeset(
      g: Graph, sp: BlockId, parents: seq<BlockId>, size: map<BlockId, nat>, r: seq<BlockId>)
    requires forall x :: x in r <==> x in MergedSet(g, sp, parents)
    requires KeysAscend(size, r) && forall x :: x in r ==> size[x] == |Past(g, x)|
    ensures r == Mergeset(g, sp, parents)
  {
    var s := MergedSet(g, sp, parents);
    SortedIsOrdered(g, s, size, r);
    OrderUnique(g, g, s, r, TopoSorted(g, s));
  }

  lemma SortedIsOrdered(g: Graph, s: set<BlockId>, size: map<BlockId, nat>, r: seq<BlockId>)
    requires (forall x :: x in r <==> x in s) && KeysAscend(size, r)
    requires forall x :: x in r ==> size[x] == |Past(g, x)|
    ensures Ordered(g, s, r)
  {
    forall i, j | 0 <= i < j < |r|
      ensures Before(g, r[i], r[j])
    {
      assert r[i] in r && r[j] in r;
    }
  }
}
