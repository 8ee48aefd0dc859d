/** What the GHOSTDAG equation guarantees of every block: heavier keys along every
    edge, exact anticone counts, and a blue set that is a k-cluster. */
module KCluster {
  import opened BlockGraph
  import opened TopoOrder
  import opened Ghostdag
  import opened Words
  import opened Wrappers

  // ------------------------------------------------- what colouring does to a list

  ghost predicate Fresh(st: Colouring, ms: seq<BlockId>) {
    Distinct(ms) && forall c :: c in ms ==> c !in st.sizes
  }

  lemma FreshFront(st: Colouring, ms: seq<BlockId>, front: seq<BlockId>, c: BlockId)
    requires Fresh(st, ms) && ms == front + [c]
    ensures Fresh(st, front) && c !in front && c !in st.sizes
    ensures c !in SetOf(front)
  {
    assert ms[|front|] == c;
    assert forall i :: 0 <= i < |front| ==> front[i] == ms[i] && front[i] in ms;
  }

  /** `r` splits `ms` into blues and reds, and the blues joined the blue set. */
  ghost predicate Splits(st: Colouring, ms: seq<BlockId>, r: Colouring) {
    && SetOf(r.blues) + SetOf(r.reds) == SetOf(ms)
    && |r.blues| + |r.reds| == |ms|
    && r.sizes.Keys == st.sizes.Keys + SetOf(r.blues)
    && |r.sizes.Keys| == |st.sizes.Keys| + |r.blues|
    && Distinct(r.blues)
  }

  lemma SetOfAppend(s: seq<BlockId>, c: BlockId)
    ensures SetOf(s + [c]) == SetOf(s) + {c}
  {
  }

  lemma DistinctAppend(s: seq<BlockId>, c: BlockId)
    requires Distinct(s) && c !in SetOf(s)
    ensures Distinct(s + [c])
  {
  }

  lemma BlueJoins(st: Colouring, front: seq<BlockId>, r: Colouring, c: BlockId, sizes: map<BlockId, nat>)
    requires Splits(st, front, r) && c !in SetOf(front) && c !in st.sizes && sizes.Keys == r.sizes.Keys + {c}
    ensures Splits(st, front + [c], Colouring(sizes, r.blues + [c], r.reds))
  {
    SetOfAppend(front, c);
    SetOfAppend(r.blues, c);
    DistinctAppend(r.blues, c);
    hide Distinct, SetOf;
    AddToUnion(SetOf(r.blues), SetOf(r.reds), c);
    AddToUnion(SetOf(r.blues), st.sizes.Keys, c);
    AddOne(r.sizes.Keys, c, sizes.Keys);
  }

  lemma AddToUnion(a: set<BlockId>, b: set<BlockId>, c: BlockId)
    ensures (a + {c}) + b == (a + b) + {c} && b + (a + {c}) == (b + a) + {c}
  {
  }

  lemma AddOne(a: set<BlockId>, c: BlockId, b: set<BlockId>)
    requires c !in a && b == a + {c}
    ensures |b| == |a| + 1
  {
  }

  lemma RedJoins(st: Colouring, front: seq<BlockId>, r: Colouring, c: BlockId)
    requires Splits(st, front, r)
    ensures Splits(st, front + [c], Colouring(r.sizes, r.blues, r.reds + [c]))
  {
    SetOfAppend(front, c);
    SetOfAppend(r.reds, c);
    hide Distinct, SetOf;
  }

  lemma WithBlueKeys(g: Graph, sizes: map<BlockId, nat>, c: BlockId)
    ensures WithBlue(g, sizes, c).Keys == sizes.Keys + {c}
  {
  }

  lemma StepSplits(g: Graph, k: nat, st: Colouring, front: seq<BlockId>, r: Colouring, c: BlockId)
    requires Splits(st, front, r) && c !in SetOf(front) && c !in st.sizes
    ensures Splits(st, front + [c], ColourStep(g, k, r, c))
  {
    hide Splits, CanBeBlue, WithBlue, SetOf;
    WithBlueKeys(g, r.sizes, c);
    BlueJoins(st, front, r, c, WithBlue(g, r.sizes, c));
    RedJoins(st, front, r, c);
  }

  /** Colouring splits the mergeset. */
  lemma {:induction false} ColourSplits(g: Graph, k: nat, st: Colouring, ms: seq<BlockId>)
    requires st.blues == [] && st.reds == [] && Fresh(st, ms)
    ensures Splits(st, ms, Colour(g, k, st, ms))
  {
    if ms != [] {
      var c, front := ms[|ms| - 1], ms[..|ms| - 1];
      assert ms == front + [c];
      FreshFront(st, ms, front, c);
      hide Fresh, Splits, ColourStep;
      ColourSplits(g, k, st, front);
      StepSplits(g, k, st, front, Colour(g, k, st, front), c);
    }
  }

  // -------------------------------------------------------------- exact counting

  /** Each recorded size is the number of blue-set members in that block's anticone. */
  ghost predicate CountsExact(g: Graph, k: nat, sizes: map<BlockId, nat>) {
    forall b :: b in sizes ==> sizes[b] == |AnticoneBlues(g, sizes, b)| <= k
  }

  /** Seeing one more blue block. */
  lemma CountOneMore(g: Graph, sizes: map<BlockId, nat>, sizes': map<BlockId, nat>, c: BlockId, b: BlockId)
    requires c !in sizes && sizes'.Keys == sizes.Keys + {c}
    ensures |AnticoneBlues(g, sizes', b)| == |AnticoneBlues(g, sizes, b)| + (if Anticone(g, c, b) then 1 else 0)
  {
    if Anticone(g, c, b) {
      assert AnticoneBlues(g, sizes', b) == AnticoneBlues(g, sizes, b) + {c};
    } else {
      assert AnticoneBlues(g, sizes', b) == AnticoneBlues(g, sizes, b);
    }
  }

  lemma StepKeepsCounts(g: Graph, k: nat, st: Colouring, c: BlockId)
    requires CountsExact(g, k, st.sizes) && c !in st.sizes
    ensures CountsExact(g, k, ColourStep(g, k, st, c).sizes)
  {
    if CanBeBlue(g, k, st.sizes, c) {
      var sizes' := WithBlue(g, st.sizes, c);
      forall b | b in sizes'
        ensures sizes'[b] == |AnticoneBlues(g, sizes', b)| <= k
      {
        CountOneMore(g, st.sizes, sizes', c, b);
        assert Anticone(g, b, c) <==> Anticone(g, c, b);
      }
    }
  }

  lemma {:induction false} ColourKeepsCounts(g: Graph, k: nat, st: Colouring, ms: seq<BlockId>)
    requires st.blues == [] && st.reds == [] && Fresh(st, ms) && CountsExact(g, k, st.sizes)
    ensures CountsExact(g, k, Colour(g, k, st, ms).sizes)
  {
    if ms != [] {
      var c, front := ms[|ms| - 1], ms[..|ms| - 1];
      assert ms == front + [c];
      FreshFront(st, ms, front, c);
      ColourSplits(g, k, st, front);
      assert c !in Colour(g, k, st, front).sizes;
      hide Fresh, Splits, ColourStep, CountsExact;
      ColourKeepsCounts(g, k, st, front);
      StepKeepsCounts(g, k, Colour(g, k, st, front), c);
    }
  }

  /** The selected parent joins its own blue set without seeing any of it. */
  lemma StartKeepsCounts(g: Graph, k: nat, sizes: map<BlockId, nat>, sp: BlockId)
    requires CountsExact(g, k, sizes) && sp !in sizes && sizes.Keys <= Past(g, sp)
    ensures CountsExact(g, k, sizes[sp := 0])
  {
    var sizes' := sizes[sp := 0];
    assert AnticoneBlues(g, sizes, sp) == {};
    forall b | b in sizes'
      ensures sizes'[b] == |AnticoneBlues(g, sizes', b)| <= k
    {
      CountOneMore(g, sizes, sizes', sp, b);
    }
  }

  // ------------------------------------------------------------------ blue work

  ghost function WorkOf(g: Graph, b: BlockId): nat {
    if b in g then g[b].work else 0
  }

  ghost function SetWork(g: Graph, s: set<BlockId>): nat {
    if s == {} then 0 else var b :| b in s; WorkOf(g, b) + SetWork(g, s - {b})
  }

  lemma {:induction false} SetWorkSplit(g: Graph, s: set<BlockId>, x: BlockId)
    requires x in s
    ensures SetWork(g, s) == WorkOf(g, x) + SetWork(g, s - {x})
    decreases s
  {
    var b :| b in s && SetWork(g, s) == WorkOf(g, b) + SetWork(g, s - {b});
    if b != x {
      SetWorkSplit(g, s - {b}, x);
      SetWorkSplit(g, s - {x}, b);
      assert s - {b} - {x} == s - {x} - {b};
    }
  }

  lemma SetWorkAdd(g: Graph, s: set<BlockId>, x: BlockId)
    requires x !in s
    ensures SetWork(g, s + {x}) == SetWork(g, s) + WorkOf(g, x)
  {
    SetWorkSplit(g, s + {x}, x);
    assert s + {x} - {x} == s;
  }

  lemma {:induction false} SetWorkGrows(g: Graph, a: set<BlockId>, b: set<BlockId>)
    requires a <= b
    ensures SetWork(g, a) <= SetWork(g, b)
    decreases b
  {
    if a != b {
      var x :| x in b && x !in a;
      SetWorkSplit(g, b, x);
      SetWorkGrows(g, a, b - {x});
    }
  }

  lemma SumWorkLast(g: Graph, front: seq<BlockId>, x: BlockId)
    ensures SumWork(g, front + [x]) == SumWork(g, front) + WorkOf(g, x)
  {
    assert (front + [x])[..|front|] == front;
  }

  lemma {:induction false} SetWorkAddList(g: Graph, s: set<BlockId>, l: seq<BlockId>)
    requires Distinct(l) && forall b :: b in l ==> b !in s
    ensures SetWork(g, s + SetOf(l)) == SetWork(g, s) + SumWork(g, l)
  {
    if l == [] {
      assert s + SetOf(l) == s;
    } else {
      var x, front := l[|l| - 1], l[..|l| - 1];
      assert l == front + [x] && x in l && forall b :: b in front ==> b in l;
      hide SetWork, WorkOf;
      SetWorkAddList(g, s, front);
      SetOfAppend(front, x);
      SetWorkAdd(g, s + SetOf(front), x);
      assert SumWork(g, l) == SumWork(g, front) + WorkOf(g, x) by {
        SumWorkLast(g, front, x);
      }
      hide SumWork, SetOf;
      assert s + SetOf(l) == s + SetOf(front) + {x};
    }
  }

  // ---------------------------------------------------- what holds of every block

  /** The blue set of `d`: the blue blocks in its past. */
  ghost function BlueSet(gd: DataMap, d: BlockId): set<BlockId>
    requires d in gd
  {
    gd[d].blueAnticoneSizes.Keys
  }

  /** Blue score and work measure the blue set, every count in it is the true one
      and at most `k`, and it lies in the past. */
  ghost predicate ClusterAt(g: Graph, k: nat, gd: DataMap, d: BlockId)
    requires d in gd
  {
    && BlueSet(gd, d) <= Past(g, d)
    && gd[d].blueScore == |BlueSet(gd, d)|
    && gd[d].blueWork == SetWork(g, BlueSet(gd, d))
    && CountsExact(g, k, gd[d].blueAnticoneSizes)
  }

  /** How a block's data was made, with the mergeset spelled out. */
  ghost predicate MadeFrom(g: Graph, k: nat, gd: DataMap, d: BlockId, sp: BlockId, ms: seq<BlockId>) {
    && d in g && d in gd && sp in g && sp in gd && HasData(gd, g[d].parents)
    && sp == Heaviest(gd, g[d].parents) && gd[d].selectedParent == Some(sp)
    && Ordered(g, MergedSet(g, sp, g[d].parents), ms) && Distinct(ms)
    && gd[d] == DataOf(g, k, gd, g[d].parents) && ms == Mergeset(g, sp, g[d].parents)
    && sp in Past(g, d) && |Past(g, sp)| < |Past(g, d)|
    && (forall c :: c in ms <==> c in Past(g, d) && c !in Past(g, sp) && c != sp)
  }

  lemma Unfold(g: Graph, genesis: BlockId, k: nat, gd: DataMap, d: BlockId) returns (sp: BlockId, ms: seq<BlockId>)
    requires Solves(g, genesis, k, gd) && d in g && d != genesis
    ensures MadeFrom(g, k, gd, d, sp, ms) && sp in g[d].parents
  {
    assert DataAt(g, genesis, k, gd, d) && KnownParents(g, g[d].parents);
    sp := Heaviest(gd, g[d].parents);
    ms := Mergeset(g, sp, g[d].parents);
    OrderedDistinct(g, MergedSet(g, sp, g[d].parents), ms);
    PastIsPastOfParents(g, d);
    ParentInPast(g, sp, d);
    AncestorHasSmallerPast(g, genesis, sp, d);
  }

  lemma StartIsFresh(g: Graph, genesis: BlockId, k: nat, gd: DataMap, d: BlockId, sp: BlockId, ms: seq<BlockId>)
    requires WellFormed(g, genesis) && MadeFrom(g, k, gd, d, sp, ms) && ClusterAt(g, k, gd, sp)
    ensures sp !in BlueSet(gd, sp) && Fresh(Start(gd, sp), ms)
    ensures Start(gd, sp).sizes.Keys == BlueSet(gd, sp) + {sp}
    ensures |Start(gd, sp).sizes.Keys| == gd[sp].blueScore + 1
  {
    assert sp !in Past(g, sp);
  }

  /** The blue set grows by the selected parent and the blue mergeset blocks. */
  lemma BlueSetGrows(g: Graph, genesis: BlockId, k: nat, gd: DataMap, d: BlockId, sp: BlockId, ms: seq<BlockId>)
    requires WellFormed(g, genesis) && MadeFrom(g, k, gd, d, sp, ms) && ClusterAt(g, k, gd, sp)
    ensures BlueSet(gd, d) == BlueSet(gd, sp) + {sp} + SetOf(gd[d].mergesetBlues)
    ensures forall c :: c in ms <==> c in gd[d].mergesetBlues || c in gd[d].mergesetReds
    ensures |gd[d].mergesetBlues| + |gd[d].mergesetReds| == |ms|
    ensures |BlueSet(gd, d)| == gd[sp].blueScore + 1 + |gd[d].mergesetBlues|
    ensures Distinct(gd[d].mergesetBlues)
  {
    StartIsFresh(g, genesis, k, gd, d, sp, ms);
    ColourSplits(g, k, Start(gd, sp), ms);
    SplitMembers(gd[d].mergesetBlues, gd[d].mergesetReds, ms);
  }

  lemma SplitMembers(blues: seq<BlockId>, reds: seq<BlockId>, ms: seq<BlockId>)
    requires SetOf(blues) + SetOf(reds) == SetOf(ms)
    ensures forall c :: c in ms <==> c in blues || c in reds
  {
    assert forall c :: c in ms <==> c in SetOf(ms);
    assert forall c :: c in blues <==> c in SetOf(blues);
    assert forall c :: c in reds <==> c in SetOf(reds);
  }

  lemma BlueWorkMeasures(g: Graph, genesis: BlockId, k: nat, gd: DataMap, d: BlockId, sp: BlockId, ms: seq<BlockId>)
    requires WellFormed(g, genesis) && MadeFrom(g, k, gd, d, sp, ms) && ClusterAt(g, k, gd, sp)
    ensures gd[d].blueWork == SetWork(g, BlueSet(gd, d))
  {
    StartIsFresh(g, genesis, k, gd, d, sp, ms);
    BlueSetGrows(g, genesis, k, gd, d, sp, ms);
    SetWorkAdd(g, BlueSet(gd, sp), sp);
    forall b | b in gd[d].mergesetBlues
      ensures b !in BlueSet(gd, sp) + {sp}
    {
      assert b in ms;
    }
    SetWorkAddList(g, BlueSet(gd, sp) + {sp}, gd[d].mergesetBlues);
  }

  lemma BlueSetInPast(g: Graph, genesis: BlockId, k: nat, gd: DataMap, d: BlockId, sp: BlockId, ms: seq<BlockId>)
    requires WellFormed(g, genesis) && MadeFrom(g, k, gd, d, sp, ms) && ClusterAt(g, k, gd, sp)
    ensures BlueSet(gd, d) <= Past(g, d)
  {
    BlueSetGrows(g, genesis, k, gd, d, sp, ms);
    forall b | b in BlueSet(gd, d)
      ensures b in Past(g, d)
    {
      if b in BlueSet(gd, sp) {
        PastTransitive(g, b, sp, d);
      } else if b != sp {
        assert b in ms;
      }
    }
  }

  /** The data of a block, in terms of the colouring it came from. */
  lemma MadeData(g: Graph, k: nat, gd: DataMap, d: BlockId, sp: BlockId, ms: seq<BlockId>)
    requires MadeFrom(g, k, gd, d, sp, ms)
    ensures d in gd && sp in gd && sp in g && |Past(g, sp)| < |Past(g, d)|
    ensures gd[d].blueScore == gd[sp].blueScore + 1 + |gd[d].mergesetBlues|
    ensures gd[d].blueAnticoneSizes == Colour(g, k, Start(gd, sp), ms).sizes
  {
  }

  lemma ClusterGrows(g: Graph, genesis: BlockId, k: nat, gd: DataMap, d: BlockId, sp: BlockId, ms: seq<BlockId>)
    requires WellFormed(g, genesis) && MadeFrom(g, k, gd, d, sp, ms) && ClusterAt(g, k, gd, sp)
    ensures ClusterAt(g, k, gd, d)
  {
    hide WellFormed, MadeFrom, CountsExact, Fresh, Colour, SetWork, SetOf, Distinct, Past;
    MadeData(g, k, gd, d, sp, ms);
    StartIsFresh(g, genesis, k, gd, d, sp, ms);
    BlueSetGrows(g, genesis, k, gd, d, sp, ms);
    BlueWorkMeasures(g, genesis, k, gd, d, sp, ms);
    StartKeepsCounts(g, k, gd[sp].blueAnticoneSizes, sp);
    ColourKeepsCounts(g, k, Start(gd, sp), ms);
    BlueSetInPast(g, genesis, k, gd, d, sp, ms);
  }

  /** In every reachable graph, every block's blue set is an exactly counted k-cluster. */
  lemma {:induction false} EveryBlockIsCluster(g: Graph, genesis: BlockId, k: nat, gd: DataMap, d: BlockId)
    requires Solves(g, genesis, k, gd) && d in g
    ensures ClusterAt(g, k, gd, d)
    decreases |Past(g, d)|
  {
    if d == genesis {
      assert DataAt(g, genesis, k, gd, genesis);
    } else {
      var sp, ms := Unfold(g, genesis, k, gd, d);
      MadeData(g, k, gd, d, sp, ms);
      hide DataAt, WellFormed, MadeFrom, ClusterAt, Past;
      EveryBlockIsCluster(g, genesis, k, gd, sp);
      ClusterGrows(g, genesis, k, gd, d, sp, ms);
    }
  }

  /** A cluster's blue set lies in its past, so the mergeset is new to it. */
  lemma ClusterStartsFresh(g: Graph, k: nat, gd: DataMap, sp: BlockId, parents: seq<BlockId>)
    requires sp in gd && ClusterAt(g, k, gd, sp)
    ensures var ms := Mergeset(g, sp, parents);
      && Fresh(Start(gd, sp), ms) && SetOf(ms) == MergedSet(g, sp, parents)
      && Start(gd, sp).sizes.Keys <= Past(g, sp) + {sp}
  {
    hide Past, PastOf, CountsExact;
    OrderedDistinct(g, MergedSet(g, sp, parents), Mergeset(g, sp, parents));
  }

  // -------------------------------------------------------------- chain-key order

  /** A child's key is heavier than each of its parents'. */
  lemma ParentIsLighter(g: Graph, genesis: BlockId, k: nat, gd: DataMap, p: BlockId, d: BlockId)
    requires Solves(g, genesis, k, gd) && d in g && p in g[d].parents
    ensures p in gd && Lighter(gd, p, d)
  {
    assert d != genesis && KnownParents(g, g[d].parents);
    var sp, ms := Unfold(g, genesis, k, gd, d);
    assert p == sp || Lighter(gd, p, sp);
    assert gd[d].blueScore >= gd[sp].blueScore + 1 && gd[d].blueWork >= gd[sp].blueWork by {
      hide Colour, Mergeset, Heaviest;
    }
    hide DataOf, MadeFrom, Solves;
  }

  /** Keys strictly increase along every path. */
  lemma {:induction false} AncestorIsLighter(g: Graph, genesis: BlockId, k: nat, gd: DataMap, a: BlockId, d: BlockId)
    requires Solves(g, genesis, k, gd) && d in g && a in Past(g, d)
    ensures Lighter(gd, a, d)
    decreases |Past(g, d)|
  {
    assert KnownParents(g, g[d].parents);
    PastIsPastOfParents(g, d);
    var p :| p in g[d].parents && (a == p || a in Past(g, p));
    ParentIsLighter(g, genesis, k, gd, p, d);
    if a != p {
      ParentInPast(g, p, d);
      AncestorHasSmallerPast(g, genesis, p, d);
      AncestorIsLighter(g, genesis, k, gd, a, p);
    }
  }

  /** Nothing a block merges descends from its selected parent: the mergeset is
      exactly the selected parent's anticone within the block's past. */
  lemma MergesetIsAnticone(g: Graph, genesis: BlockId, k: nat, gd: DataMap, d: BlockId, c: BlockId)
    requires Solves(g, genesis, k, gd) && d in g && d != genesis
    ensures gd[d].selectedParent.Some? && gd[d].selectedParent.value in g[d].parents
    ensures c in Mergeset(g, gd[d].selectedParent.value, g[d].parents) <==>
      c in Past(g, d) && Anticone(g, c, gd[d].selectedParent.value)
  {
    var sp, ms := Unfold(g, genesis, k, gd, d);
    if c in Past(g, d) && sp in Past(g, c) {
      PastIsPastOfParents(g, d);
      var p :| p in g[d].parents && (c == p || c in Past(g, p));
      if c != p {
        PastTransitive(g, sp, c, p);
      }
      assert KnownParents(g, g[d].parents);
      AncestorIsLighter(g, genesis, k, gd, sp, p);
      assert false;
    }
  }

  /** At most `k` merged blocks are blue, so blue scores grow by 1 to k + 1. */
  lemma AtMostKBlues(g: Graph, genesis: BlockId, k: nat, gd: DataMap, d: BlockId)
    requires Solves(g, genesis, k, gd) && d in g && d != genesis
    ensures gd[d].selectedParent.Some? && gd[d].selectedParent.value in gd
    ensures |gd[d].mergesetBlues| <= k
    ensures var sp := gd[d].selectedParent.value;
      gd[sp].blueScore + 1 <= gd[d].blueScore <= gd[sp].blueScore + 1 + k
  {
    var sp, ms := Unfold(g, genesis, k, gd, d);
    EveryBlockIsCluster(g, genesis, k, gd, sp);
    EveryBlockIsCluster(g, genesis, k, gd, d);
    BlueSetGrows(g, genesis, k, gd, d, sp, ms);
    forall b | b in gd[d].mergesetBlues
      ensures b in AnticoneBlues(g, gd[d].blueAnticoneSizes, sp)
    {
      assert b in ms;
      MergesetIsAnticone(g, genesis, k, gd, d, b);
    }
    DistinctCount(gd[d].mergesetBlues);
    SubsetSize(SetOf(gd[d].mergesetBlues), AnticoneBlues(g, gd[d].blueAnticoneSizes, sp));
  }

  /** The stored numbers fit their machine words: below the largest 16-bit k, with a 64-bit
      count of blocks and a 128-bit total work, none of them ever wraps. */
  lemma WordsSuffice(g: Graph, genesis: BlockId, k: nat, gd: DataMap, d: BlockId)
    requires Solves(g, genesis, k, gd) && d in g
    requires k < 0xFFFF && |g| <= U64_MAX as nat && SetWork(g, g.Keys) <= U128_MAX as nat
    ensures forall b :: b in gd[d].blueAnticoneSizes ==> gd[d].blueAnticoneSizes[b] + 1 <= 0xFFFF
    ensures gd[d].blueScore <= U64_MAX as nat && gd[d].blueWork <= U128_MAX as nat
  {
    EveryBlockIsCluster(g, genesis, k, gd, d);
    hide Solves, Past, Anticone, SetWork;
    assert BlueSet(gd, d) <= g.Keys && |g| == |g.Keys| by {
      InGraph(g, d);
    }
    SubsetSize(BlueSet(gd, d), g.Keys);
    SetWorkGrows(g, BlueSet(gd, d), g.Keys);
  }

  lemma InGraph(g: Graph, d: BlockId)
    ensures Past(g, d) <= g.Keys
  {
  }
}
