/** The consensus rules in plain terms: what a block's numbers and lists are, given the
    block graph and the numbers of the blocks below it. No rule mentions how it is
    computed, and none leaves a choice. */
module Laws {
  import opened BlockGraph
  import opened TopoOrder
  import opened Ghostdag
  import opened KCluster
  import opened Wrappers

  // ---------------------------------------------------------------------- ranking

  /** `u` ranks no higher than `t`: less blue work counts first, then a lower blue score,
      then a smaller id. */
  ghost predicate RanksNoHigher(gd: DataMap, u: BlockId, t: BlockId)
    requires u in gd && t in gd
  {
    && gd[u].blueWork <= gd[t].blueWork
    && (gd[u].blueWork == gd[t].blueWork ==> gd[u].blueScore <= gd[t].blueScore)
    && (gd[u].blueWork == gd[t].blueWork && gd[u].blueScore == gd[t].blueScore ==> u <= t)
  }

  /** Work before score before id: the comparison the code makes is this one. */
  lemma RankIsLighter(gd: DataMap, u: BlockId, t: BlockId)
    requires u in gd && t in gd
    ensures RanksNoHigher(gd, u, t) <==> u == t || Lighter(gd, u, t)
  {
  }

  // --------------------------------------------------------------------- listing

  /** Fewer ancestors first; among equally many, the smaller id. */
  ghost predicate ByPastThenId(g: Graph, r: seq<BlockId>) {
    forall i, j :: 0 <= i < j < |r| ==>
      && |Past(g, r[i])| <= |Past(g, r[j])|
      && (|Past(g, r[i])| == |Past(g, r[j])| ==> r[i] < r[j])
  }

  lemma OrderedByPast(g: Graph, s: set<BlockId>, r: seq<BlockId>)
    ensures Ordered(g, s, r) <==> ByPastThenId(g, r) && forall b :: b in r <==> b in s
  {
    hide Past;
    assert forall i, j :: 0 <= i < j < |r| ==>
      (Before(g, r[i], r[j]) <==>
       |Past(g, r[i])| <= |Past(g, r[j])| && (|Past(g, r[i])| == |Past(g, r[j])| ==> r[i] < r[j]));
  }

  /** There is one such list of each set. */
  lemma ListedOnce(g: Graph, r: seq<BlockId>, r': seq<BlockId>)
    requires ByPastThenId(g, r) && ByPastThenId(g, r') && forall b :: b in r <==> b in r'
    ensures r == r'
  {
    hide ByPastThenId;
    var s := SetOf(r);
    OrderedByPast(g, s, r);
    OrderedByPast(g, s, r');
    OrderUnique(g, g, s, r, r');
  }

  /** What a block on these parents merges, the selected parent being `sp`: the blocks in
      its past that are not `sp` nor below it. */
  ghost predicate Merges(g: Graph, sp: BlockId, parents: seq<BlockId>, ms: seq<BlockId>) {
    && ByPastThenId(g, ms)
    && forall c :: c in ms <==>
      && c in g && c != sp && c !in Past(g, sp)
      && exists p :: p in parents && (c == p || c in Past(g, p))
  }

  lemma MergesetMerges(g: Graph, sp: BlockId, parents: seq<BlockId>)
    ensures Merges(g, sp, parents, Mergeset(g, sp, parents))
  {
    hide Past;
    var s := MergedSet(g, sp, parents);
    OrderedByPast(g, s, Mergeset(g, sp, parents));
    forall c
      ensures c in PastOf(g, parents) <==> c in g && exists p :: p in parents && (c == p || c in Past(g, p))
    {
      assert InPastOf(g, parents, c) <==> exists p :: p in parents && (c == p || c in Past(g, p));
    }
  }

  // -------------------------------------------------------------------- colouring

  /** The members of `s` beside `b`: neither above nor below it. */
  ghost function Beside(g: Graph, s: set<BlockId>, b: BlockId): set<BlockId> {
    set x | x in s && x != b && x !in Past(g, b) && b !in Past(g, x)
  }

  /** No member has more than `k` others beside it. */
  ghost predicate Cluster(g: Graph, k: nat, s: set<BlockId>) {
    forall b :: b in s ==> |Beside(g, s, b)| <= k
  }

  /** The blues among the first `i` merged blocks. */
  ghost function BluesBefore(ms: seq<BlockId>, i: nat, blues: seq<BlockId>): set<BlockId>
    requires i <= |ms|
  {
    set b | b in ms[..i] && b in blues
  }

  /** A merged block is blue exactly when the blue blocks so far are a cluster with it. */
  ghost predicate Greedy(g: Graph, k: nat, base: set<BlockId>, ms: seq<BlockId>, blues: seq<BlockId>) {
    forall i :: 0 <= i < |ms| ==> (ms[i] in blues <==> Cluster(g, k, base + BluesBefore(ms, i, blues) + {ms[i]}))
  }

  /** Every merged block is blue or red, and both lists keep the order. */
  ghost predicate Parted(g: Graph, ms: seq<BlockId>, blues: seq<BlockId>, reds: seq<BlockId>) {
    && ByPastThenId(g, blues) && ByPastThenId(g, reds)
    && forall c :: (c in ms <==> c in blues || c in reds) && !(c in blues && c in reds)
  }

  lemma BesideIsAnticone(g: Graph, sizes: map<BlockId, nat>, b: BlockId)
    ensures Beside(g, sizes.Keys, b) == AnticoneBlues(g, sizes, b)
  {
  }

  lemma BesideOneMore(g: Graph, s: set<BlockId>, c: BlockId, b: BlockId)
    requires c !in s
    ensures |Beside(g, s + {c}, b)| == |Beside(g, s, b)| + (if Anticone(g, c, b) then 1 else 0)
  {
    if Anticone(g, c, b) {
      assert Beside(g, s + {c}, b) == Beside(g, s, b) + {c};
    } else {
      assert Beside(g, s + {c}, b) == Beside(g, s, b);
    }
  }

  /** The rule the code checks, with its counts, is that the blues stay a cluster. */
  lemma CanBeBlueIff(g: Graph, k: nat, sizes: map<BlockId, nat>, c: BlockId)
    requires CountsExact(g, k, sizes) && c !in sizes
    ensures CanBeBlue(g, k, sizes, c) <==> Cluster(g, k, sizes.Keys + {c})
  {
    hide Past;
    var s := sizes.Keys;
    forall b | b in s + {c}
      ensures |Beside(g, s + {c}, b)| == |AnticoneBlues(g, sizes, b)| + (if Anticone(g, c, b) then 1 else 0)
    {
      BesideOneMore(g, s, c, b);
      BesideIsAnticone(g, sizes, b);
    }
    hide Beside;
    forall b | b in s
      ensures |Beside(g, s + {c}, b)| <= k <==> b in AnticoneBlues(g, sizes, c) ==> sizes[b] + 1 <= k
    {
      assert Anticone(g, c, b) <==> Anticone(g, b, c);
    }
  }

  lemma ListAppends(g: Graph, front: seq<BlockId>, c: BlockId, list: seq<BlockId>)
    requires ByPastThenId(g, front + [c]) && ByPastThenId(g, list) && forall x :: x in list ==> x in front
    ensures ByPastThenId(g, list + [c])
  {
    hide Past;
    var ms := front + [c];
    forall i | 0 <= i < |list|
      ensures |Past(g, list[i])| <= |Past(g, c)| && (|Past(g, list[i])| == |Past(g, c)| ==> list[i] < c)
    {
      assert list[i] in front;
      var j :| 0 <= j < |front| && front[j] == list[i];
      assert ms[j] == list[i] && ms[|front|] == c;
    }
  }

  lemma FrontByPast(g: Graph, front: seq<BlockId>, c: BlockId)
    requires ByPastThenId(g, front + [c])
    ensures ByPastThenId(g, front)
  {
    hide Past;
    assert forall i :: 0 <= i < |front| ==> front[i] == (front + [c])[i];
  }

  lemma BluesBeforeFront(front: seq<BlockId>, c: BlockId, i: nat, blues: seq<BlockId>, blues': seq<BlockId>)
    requires i <= |front| && c !in front && forall x :: x != c ==> (x in blues <==> x in blues')
    ensures BluesBefore(front + [c], i, blues') == BluesBefore(front, i, blues)
  {
    assert (front + [c])[..i] == front[..i];
    assert forall x :: x in front[..i] ==> x in front;
  }

  lemma GreedyStep(
      g: Graph, k: nat, base: set<BlockId>, front: seq<BlockId>, c: BlockId, blues: seq<BlockId>, blues': seq<BlockId>)
    requires Greedy(g, k, base, front, blues) && c !in front && forall x :: x in blues ==> x in front
    requires blues' == blues || blues' == blues + [c]
    requires c in blues' <==> Cluster(g, k, base + SetOf(blues) + {c})
    ensures Greedy(g, k, base, front + [c], blues')
  {
    hide Cluster;
    var ms := front + [c];
    assert forall x :: x != c ==> (x in blues <==> x in blues');
    forall i | 0 <= i < |ms|
      ensures ms[i] in blues' <==> Cluster(g, k, base + BluesBefore(ms, i, blues') + {ms[i]})
    {
      BluesBeforeFront(front, c, i, blues, blues');
      if i < |front| {
        assert ms[i] == front[i] && front[i] in front;
      } else {
        assert front[..i] == front;
        assert BluesBefore(front, i, blues) == SetOf(blues);
      }
    }
  }

  lemma PartedStep(
      g: Graph, front: seq<BlockId>, c: BlockId, blues: seq<BlockId>, reds: seq<BlockId>, blues': seq<BlockId>,
      reds': seq<BlockId>)
    requires Parted(g, front, blues, reds) && c !in front && ByPastThenId(g, front + [c])
    requires (blues' == blues + [c] && reds' == reds) || (blues' == blues && reds' == reds + [c])
    ensures Parted(g, front + [c], blues', reds')
  {
    ListAppends(g, front, c, blues);
    ListAppends(g, front, c, reds);
    hide ByPastThenId;
  }

  /** Colouring in order is greedy, and parts the mergeset. */
  lemma {:induction false} ColourIsGreedy(g: Graph, k: nat, st: Colouring, ms: seq<BlockId>)
    requires st.blues == [] && st.reds == [] && Fresh(st, ms) && CountsExact(g, k, st.sizes) && ByPastThenId(g, ms)
    ensures var r := Colour(g, k, st, ms);
      && Greedy(g, k, st.sizes.Keys, ms, r.blues) && Parted(g, ms, r.blues, r.reds)
      && r.sizes.Keys == st.sizes.Keys + SetOf(r.blues)
  {
    if ms != [] {
      var c, front := ms[|ms| - 1], ms[..|ms| - 1];
      assert ms == front + [c];
      FreshFront(st, ms, front, c);
      FrontByPast(g, front, c);
      ColourIsGreedy(g, k, st, front);
      var r := Colour(g, k, st, front);
      ColourStepGreedy(g, k, st, front, c, r);
    }
  }

  lemma ColourStepGreedy(g: Graph, k: nat, st: Colouring, front: seq<BlockId>, c: BlockId, r: Colouring)
    requires st.blues == [] && st.reds == [] && Fresh(st, front) && CountsExact(g, k, st.sizes) && c !in front
    requires c !in st.sizes && r == Colour(g, k, st, front) && ByPastThenId(g, front + [c])
    requires Greedy(g, k, st.sizes.Keys, front, r.blues) && Parted(g, front, r.blues, r.reds)
    requires r.sizes.Keys == st.sizes.Keys + SetOf(r.blues)
    ensures var r' := ColourStep(g, k, r, c);
      && Greedy(g, k, st.sizes.Keys, front + [c], r'.blues) && Parted(g, front + [c], r'.blues, r'.reds)
      && r'.sizes.Keys == st.sizes.Keys + SetOf(r'.blues)
  {
    hide CanBeBlue, Cluster, WithBlue, Greedy, Parted, CountsExact, Fresh, ByPastThenId, Colour, SetOf;
    var r' := ColourStep(g, k, r, c);
    ColourKeepsCounts(g, k, st, front);
    BluesAreEarlier(g, front, c, r.blues, r.reds);
    CanBeBlueIff(g, k, r.sizes, c);
    WithBlueKeys(g, r.sizes, c);
    SetOfAppend(r.blues, c);
    GreedyStep(g, k, st.sizes.Keys, front, c, r.blues, r'.blues);
    PartedStep(g, front, c, r.blues, r.reds, r'.blues, r'.reds);
  }

  lemma BluesAreEarlier(g: Graph, front: seq<BlockId>, c: BlockId, blues: seq<BlockId>, reds: seq<BlockId>)
    requires Parted(g, front, blues, reds) && c !in front
    ensures c !in blues && c !in SetOf(blues) && forall x :: x in blues ==> x in front
    ensures forall x :: x in SetOf(blues + [c]) <==> x in SetOf(blues) || x == c
  {
  }

  // ------------------------------------------------------------- the data of a block

  /** The work of the listed blocks. */
  ghost function WorkOfAll(g: Graph, s: seq<BlockId>): nat {
    if s == [] then 0 else WorkOfAll(g, s[..|s| - 1]) + (if s[|s| - 1] in g then g[s[|s| - 1]].work else 0)
  }

  lemma {:induction false} WorkIsSum(g: Graph, s: seq<BlockId>)
    ensures WorkOfAll(g, s) == SumWork(g, s)
  {
    if s != [] {
      WorkIsSum(g, s[..|s| - 1]);
    }
  }

  /** Of the parents, the selected one ranks highest. */
  ghost predicate Selects(gd: DataMap, parents: seq<BlockId>, sp: BlockId) {
    sp in gd && sp in parents && forall p :: p in parents ==> p in gd && RanksNoHigher(gd, p, sp)
  }

  /** Score and work add the selected parent and the merged blues to the selected parent's. */
  ghost predicate Measures(g: Graph, gd: DataMap, sp: BlockId, data: GhostdagData)
    requires sp in gd
  {
    && data.blueScore == gd[sp].blueScore + 1 + |data.mergesetBlues|
    && data.blueWork == gd[sp].blueWork + WorkOfAll(g, [sp]) + WorkOfAll(g, data.mergesetBlues)
  }

  /** Every blue block is recorded with the number of blue blocks beside it. */
  ghost predicate Counts(g: Graph, base: set<BlockId>, data: GhostdagData) {
    && data.blueAnticoneSizes.Keys == base + SetOf(data.mergesetBlues)
    && forall b :: b in data.blueAnticoneSizes ==>
      data.blueAnticoneSizes[b] == |Beside(g, data.blueAnticoneSizes.Keys, b)|
  }

  /** The GHOSTDAG data of a block on these parents, merging `ms`. */
  ghost predicate Follows(
      g: Graph, gd: DataMap, k: nat, parents: seq<BlockId>, ms: seq<BlockId>, data: GhostdagData) {
    && data.selectedParent.Some? && Selects(gd, parents, data.selectedParent.value)
    && var sp := data.selectedParent.value;
      var base := gd[sp].blueAnticoneSizes.Keys + {sp};
      && Merges(g, sp, parents, ms)
      && Greedy(g, k, base, ms, data.mergesetBlues) && Parted(g, ms, data.mergesetBlues, data.mergesetReds)
      && Measures(g, gd, sp, data) && Counts(g, base, data)
  }

  lemma HeaviestIsSelected(gd: DataMap, parents: seq<BlockId>)
    requires HasData(gd, parents)
    ensures Selects(gd, parents, Heaviest(gd, parents))
  {
    forall p | p in parents
      ensures RanksNoHigher(gd, p, Heaviest(gd, parents))
    {
      RankIsLighter(gd, p, Heaviest(gd, parents));
    }
  }

  /** The data the colouring computes follows the rules. */
  lemma DataFollows(g: Graph, genesis: BlockId, k: nat, gd: DataMap, parents: seq<BlockId>)
    requires Solves(g, genesis, k, gd) && HasData(gd, parents)
    ensures Follows(g, gd, k, parents, Mergeset(g, Heaviest(gd, parents), parents), DataOf(g, k, gd, parents))
  {
    hide Solves, Heaviest, Mergeset, Colour, Fresh, CountsExact, Greedy, Parted, Selects, Merges, ByPastThenId, Past, ClusterAt;
    hide Counts, Measures;
    var sp := Heaviest(gd, parents);
    var ms := Mergeset(g, sp, parents);
    HeaviestIsSelected(gd, parents);
    SelectedFacts(g, genesis, k, gd, parents, sp);
    EveryBlockIsCluster(g, genesis, k, gd, sp);
    ClusterStartsFresh(g, k, gd, sp, parents);
    MergesetMerges(g, sp, parents);
    ListedByPast(g, sp, parents, ms);
    StartCounts(g, genesis, k, gd, sp);
    ColourIsGreedy(g, k, Start(gd, sp), ms);
    ColourKeepsCounts(g, k, Start(gd, sp), ms);
    var data := DataOf(g, k, gd, parents);
    CountsFollow(g, k, gd[sp].blueAnticoneSizes.Keys + {sp}, data);
    MeasuresFollow(g, k, gd, parents, sp, data);
  }

  lemma SelectedFacts(g: Graph, genesis: BlockId, k: nat, gd: DataMap, parents: seq<BlockId>, sp: BlockId)
    requires Solves(g, genesis, k, gd) && Selects(gd, parents, sp)
    ensures sp in g && sp in gd && WellFormed(g, genesis)
  {
  }

  lemma ListedByPast(g: Graph, sp: BlockId, parents: seq<BlockId>, ms: seq<BlockId>)
    requires Merges(g, sp, parents, ms)
    ensures ByPastThenId(g, ms)
  {
  }

  lemma StartCounts(g: Graph, genesis: BlockId, k: nat, gd: DataMap, sp: BlockId)
    requires WellFormed(g, genesis) && sp in g && sp in gd && ClusterAt(g, k, gd, sp)
    ensures CountsExact(g, k, Start(gd, sp).sizes)
    ensures Start(gd, sp).sizes.Keys == gd[sp].blueAnticoneSizes.Keys + {sp}
  {
    hide CountsExact, Past;
    NotBelowItself(g, genesis, sp);
    StartKeepsCounts(g, k, gd[sp].blueAnticoneSizes, sp);
  }

  lemma NotBelowItself(g: Graph, genesis: BlockId, sp: BlockId)
    requires WellFormed(g, genesis) && sp in g
    ensures sp !in Past(g, sp)
  {
  }

  lemma CountsFollow(g: Graph, k: nat, base: set<BlockId>, data: GhostdagData)
    requires CountsExact(g, k, data.blueAnticoneSizes)
    requires data.blueAnticoneSizes.Keys == base + SetOf(data.mergesetBlues)
    ensures Counts(g, base, data)
  {
    hide Anticone, SetOf;
    forall b | b in data.blueAnticoneSizes
      ensures data.blueAnticoneSizes[b] == |Beside(g, data.blueAnticoneSizes.Keys, b)|
    {
      BesideIsAnticone(g, data.blueAnticoneSizes, b);
    }
  }

  lemma MeasuresFollow(g: Graph, k: nat, gd: DataMap, parents: seq<BlockId>, sp: BlockId, data: GhostdagData)
    requires HasData(gd, parents) && sp == Heaviest(gd, parents) && data == DataOf(g, k, gd, parents) && sp in gd
    ensures Measures(g, gd, sp, data)
  {
    hide Coloured, Heaviest;
    WorkIsSum(g, data.mergesetBlues);
    assert [sp][..0] == [];
    assert WorkOfAll(g, [sp]) == if sp in g then g[sp].work else 0;
  }

  // ------------------------------------------------------- the rules leave no choice

  lemma SelectsOnce(gd: DataMap, parents: seq<BlockId>, sp: BlockId, sp': BlockId)
    requires Selects(gd, parents, sp) && Selects(gd, parents, sp')
    ensures sp == sp' && sp in gd
  {
  }

  lemma {:induction false} GreedyOnce(
      g: Graph, k: nat, base: set<BlockId>, ms: seq<BlockId>, blues: seq<BlockId>, blues': seq<BlockId>, n: nat)
    requires Greedy(g, k, base, ms, blues) && Greedy(g, k, base, ms, blues') && n <= |ms|
    ensures forall i :: 0 <= i < n ==> (ms[i] in blues <==> ms[i] in blues')
    decreases n
  {
    hide Cluster;
    if n > 0 {
      GreedyOnce(g, k, base, ms, blues, blues', n - 1);
      var i := n - 1;
      SameBluesBefore(ms, i, blues, blues');
    }
  }

  lemma SameBluesBefore(ms: seq<BlockId>, i: nat, blues: seq<BlockId>, blues': seq<BlockId>)
    requires i <= |ms| && forall j :: 0 <= j < i ==> (ms[j] in blues <==> ms[j] in blues')
    ensures BluesBefore(ms, i, blues) == BluesBefore(ms, i, blues')
  {
    forall x | x in ms[..i]
      ensures x in blues <==> x in blues'
    {
      var j :| 0 <= j < i && ms[j] == x;
    }
  }

  lemma PartedOnce(
      g: Graph, ms: seq<BlockId>, blues: seq<BlockId>, reds: seq<BlockId>, blues': seq<BlockId>, reds': seq<BlockId>)
    requires Parted(g, ms, blues, reds) && Parted(g, ms, blues', reds')
    requires forall i :: 0 <= i < |ms| ==> (ms[i] in blues <==> ms[i] in blues')
    ensures blues == blues' && reds == reds'
  {
    hide ByPastThenId;
    forall c
      ensures (c in blues <==> c in blues') && (c in reds <==> c in reds')
    {
      if c in ms {
        var i :| 0 <= i < |ms| && ms[i] == c;
      }
    }
    ListedOnce(g, blues, blues');
    ListedOnce(g, reds, reds');
  }

  /** A block's data is the only data that follows the rules. */
  lemma FollowsOnce(
      g: Graph, gd: DataMap, k: nat, parents: seq<BlockId>, ms: seq<BlockId>, data: GhostdagData, ms': seq<BlockId>,
      data': GhostdagData)
    requires Follows(g, gd, k, parents, ms, data) && Follows(g, gd, k, parents, ms', data')
    ensures ms == ms' && data == data'
  {
    hide Selects, Greedy, Parted, ByPastThenId, Beside, Cluster, Past;
    var sp := data.selectedParent.value;
    SelectsOnce(gd, parents, sp, data'.selectedParent.value);
    ListedOnce(g, ms, ms');
    hide Merges;
    var base := gd[sp].blueAnticoneSizes.Keys + {sp};
    GreedyOnce(g, k, base, ms, data.mergesetBlues, data'.mergesetBlues, |ms|);
    PartedOnce(g, ms, data.mergesetBlues, data.mergesetReds, data'.mergesetBlues, data'.mergesetReds);
    assert data.blueAnticoneSizes == data'.blueAnticoneSizes;
  }

  lemma SolvedKeys(g: Graph, genesis: BlockId, k: nat, gd: DataMap)
    requires Solves(g, genesis, k, gd)
    ensures gd.Keys == g.Keys && genesis in g
  {
  }

  /** Every stored block's data follows the rules, and genesis has none. */
  lemma StoredFollows(g: Graph, genesis: BlockId, k: nat, gd: DataMap, d: BlockId) returns (ms: seq<BlockId>)
    requires Solves(g, genesis, k, gd) && d in g
    ensures d in gd
    ensures d == genesis ==> gd[d] == GhostdagData(None, [], [], 0, 0, map[])
    ensures d != genesis ==> Follows(g, gd, k, g[d].parents, ms, gd[d])
  {
    assert DataAt(g, genesis, k, gd, d);
    hide Solves, Follows;
    ms := [];
    if d != genesis {
      DataFollows(g, genesis, k, gd, g[d].parents);
      ms := Mergeset(g, Heaviest(gd, g[d].parents), g[d].parents);
    }
  }
}
