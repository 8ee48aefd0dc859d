/** Covering lists are kept sorted by interval start insert by insert. When a relayout leaves
    such a list sorted, and an oracle whose list it does not. */
module CoverOrder {
  import opened BlockGraph
  import opened IntervalTree
  import opened Relayout
  import opened Words
  import opened R = Reachability

  // ------------------------------------------------------------- where two blocks part

  /** `c` and `d` are the different children of `x` that `y` and `z` lie under. */
  ghost predicate PartsAt(t: Tree, x: BlockId, c: BlockId, d: BlockId, y: BlockId, z: BlockId) {
    x in t.kids && c in t.kids[x] && d in t.kids[x] && c != d && Under(t, c, y) && Under(t, d, z)
  }

  /** Where the branches to `y` and `z` part, the one to `y` has the smaller id. */
  ghost predicate BranchesAscend(t: Tree, y: BlockId, z: BlockId) {
    exists x, c, d :: PartsAt(t, x, c, d, y, z) && c < d
  }

  /** `y` comes before `z` once the subtree of `anchor` is laid out anew: if both are in it,
      by their branches, and otherwise as they were. */
  ghost predicate StaysBefore(t: Tree, anchor: BlockId, iv0: map<BlockId, Interval>, y: BlockId, z: BlockId)
    requires y in iv0 && z in iv0
  {
    if Under(t, anchor, y) && Under(t, anchor, z) then BranchesAscend(t, y, z) else iv0[y].hi < iv0[z].lo
  }

  lemma {:induction false} PartingPoint(t: Tree, a: BlockId, y: BlockId, z: BlockId)
    returns (x: BlockId, c: BlockId, d: BlockId)
    requires Shape(t) && y in t.kids && z in t.kids && Under(t, a, y) && Under(t, a, z)
    requires !Under(t, y, z) && !Under(t, z, y)
    ensures PartsAt(t, x, c, d, y, z)
    decreases if a in t.depth && y in t.depth then t.depth[y] as int - t.depth[a] else 0
  {
    UnderStaysInTree(t, a, y);
    x := a;
    c := BranchOf(t, a, y);
    d := BranchOf(t, a, z);
    if c == d {
      assert ChildOf(t, c, a);
      UnderStaysInTree(t, c, y);
      x, c, d := PartingPoint(t, c, y, z);
    }
  }

  /** Blocks above both part no higher than where they part. */
  lemma PartsBelow(t: Tree, anchor: BlockId, x: BlockId, c: BlockId, d: BlockId, y: BlockId, z: BlockId)
    requires Shape(t) && y in t.kids && z in t.kids && PartsAt(t, x, c, d, y, z)
    requires Under(t, anchor, y) && Under(t, anchor, z)
    ensures Under(t, anchor, x)
  {
    assert ChildOf(t, c, x) && Under(t, x, c);
    UnderTransitive(t, x, c, y);
    UnderStaysInTree(t, anchor, y);
    OneLineAbove(t, anchor, x, y);
    if x != anchor && Under(t, x, anchor) {
      var e := BranchOf(t, x, anchor);
      UnderTransitive(t, e, anchor, y);
      UnderTransitive(t, e, anchor, z);
      if e != c {
        SiblingsDisjoint(t, x, e, c, y);
      } else {
        SiblingsDisjoint(t, x, e, d, z);
      }
    }
  }

  /** Below a node whose children lie in id order, the branches decide. */
  lemma BranchesDecide(
      t: Tree, iv: map<BlockId, Interval>, nf: map<BlockId, u64>, x: BlockId, c: BlockId, d: BlockId, y: BlockId,
      z: BlockId)
    requires Shape(t) && LaidOut(t, iv, nf) && IdOrder(t, iv, x) && PartsAt(t, x, c, d, y, z)
    requires y in t.kids && z in t.kids
    ensures iv[y].hi < iv[z].lo <==> c < d
  {
    DescendantInside(t, iv, nf, c, y);
    DescendantInside(t, iv, nf, d, z);
    LayoutFacts(t, iv, nf, y);
    LayoutFacts(t, iv, nf, z);
    hide Shape, LaidOut, Under;
    assert c < d || d < c;
  }

  // ------------------------------------------------------------------- one relayout

  /** Between the blocks of `t0`, who is under whom is the same in `t`. */
  ghost predicate SubtreesKept(t0: Tree, t: Tree) {
    t0.kids.Keys <= t.kids.Keys && forall x, y :: y in t0.kids ==> (Under(t, x, y) <==> Under(t0, x, y))
  }

  lemma SubtreesSame(t: Tree)
    ensures SubtreesKept(t, t)
  {
  }

  lemma LeafKeepsSubtrees(t: Tree, sp: BlockId, id: BlockId, t': Tree)
    requires Shape(t) && LeafAdded(t, sp, id, t')
    ensures SubtreesKept(t, t')
  {
    LeafNodes(t, sp, id, t');
    forall x, y | y in t.kids
      ensures Under(t', x, y) <==> Under(t, x, y)
    {
      LeafKeepsUnder(t, sp, id, t', x, y);
    }
  }

  /** The tree and its labels before a relayout of the subtree of `anchor`, and after. */
  ghost predicate LaidAnew(
      t0: Tree, iv0: map<BlockId, Interval>, nf0: map<BlockId, u64>, t: Tree, anchor: BlockId,
      iv: map<BlockId, Interval>, nf: map<BlockId, u64>) {
    && Shape(t0) && LaidOut(t0, iv0, nf0) && Shape(t) && LaidOut(t, iv, nf) && SubtreesKept(t0, t)
    && anchor in t0.kids && Relaid(t, anchor, iv0, iv)
  }

  lemma PairInside(
      t0: Tree, iv0: map<BlockId, Interval>, nf0: map<BlockId, u64>, t: Tree, anchor: BlockId,
      iv: map<BlockId, Interval>, nf: map<BlockId, u64>, y: BlockId, z: BlockId)
    requires LaidAnew(t0, iv0, nf0, t, anchor, iv, nf) && y in t0.kids && z in t0.kids
    requires Under(t, anchor, y) && Under(t, anchor, z) && !Under(t, y, z) && !Under(t, z, y)
    ensures y in iv && z in iv && (iv[y].hi < iv[z].lo <==> BranchesAscend(t, y, z))
  {
    InTreeIsLabelled(t, iv, nf);
    hide LaidOut, Shape, Under, IdOrder, PartsAt, SubtreesKept;
    forall x, c, d | PartsAt(t, x, c, d, y, z)
      ensures iv[y].hi < iv[z].lo <==> c < d
    {
      PartsBelow(t, anchor, x, c, d, y, z);
      PartsInTree(t, x, c, d, y, z);
      BranchesDecide(t, iv, nf, x, c, d, y, z);
    }
    var x, c, d := PartingPoint(t, anchor, y, z);
  }

  lemma PartsInTree(t: Tree, x: BlockId, c: BlockId, d: BlockId, y: BlockId, z: BlockId)
    requires PartsAt(t, x, c, d, y, z)
    ensures x in t.kids
  {
  }

  /** Of `y` under `anchor` and `z` beside it, the order is that of `anchor` and `z`. */
  lemma OrderFromAnchor(
      t: Tree, iv: map<BlockId, Interval>, nf: map<BlockId, u64>, anchor: BlockId, y: BlockId, z: BlockId)
    requires Shape(t) && LaidOut(t, iv, nf) && anchor in t.kids && y in t.kids && z in t.kids
    requires Under(t, anchor, y) && !Under(t, anchor, z) && !Under(t, z, y)
    ensures anchor in iv && y in iv && z in iv
    ensures iv[y].hi < iv[z].lo <==> iv[anchor].hi < iv[z].lo
    ensures iv[z].hi < iv[y].lo <==> iv[z].hi < iv[anchor].lo
  {
    hide Shape, LaidOut, Under;
    InTreeIsLabelled(t, iv, nf);
    if Under(t, z, anchor) {
      UnderTransitive(t, z, anchor, y);
    }
    UnrelatedApart(t, iv, nf, anchor, z);
    DescendantInside(t, iv, nf, anchor, y);
    LayoutFacts(t, iv, nf, y);
    LayoutFacts(t, iv, nf, z);
    LayoutFacts(t, iv, nf, anchor);
  }

  lemma PairOutside(
      t0: Tree, iv0: map<BlockId, Interval>, nf0: map<BlockId, u64>, t: Tree, anchor: BlockId,
      iv: map<BlockId, Interval>, nf: map<BlockId, u64>, y: BlockId, z: BlockId)
    requires LaidAnew(t0, iv0, nf0, t, anchor, iv, nf) && y in t0.kids && z in t0.kids
    requires !(Under(t, anchor, y) && Under(t, anchor, z)) && !Under(t, y, z) && !Under(t, z, y)
    ensures y in iv0 && z in iv0 && y in iv && z in iv
    ensures iv[y].hi < iv[z].lo <==> iv0[y].hi < iv0[z].lo
  {
    InTreeIsLabelled(t, iv, nf);
    InTreeIsLabelled(t0, iv0, nf0);
    hide LaidOut, Shape, Under, IdOrder;
    if Under(t, anchor, y) {
      OrderFromAnchor(t, iv, nf, anchor, y, z);
      OrderFromAnchor(t0, iv0, nf0, anchor, y, z);
    } else if Under(t, anchor, z) {
      OrderFromAnchor(t, iv, nf, anchor, z, y);
      OrderFromAnchor(t0, iv0, nf0, anchor, z, y);
    }
  }

  lemma NotBeforeItself(
      t0: Tree, iv0: map<BlockId, Interval>, nf0: map<BlockId, u64>, t: Tree, anchor: BlockId,
      iv: map<BlockId, Interval>, nf: map<BlockId, u64>, y: BlockId)
    requires LaidAnew(t0, iv0, nf0, t, anchor, iv, nf) && y in t0.kids
    ensures y in iv0 && y in iv && !(iv[y].hi < iv[y].lo) && !StaysBefore(t, anchor, iv0, y, y)
  {
    LayoutFacts(t0, iv0, nf0, y);
    LayoutFacts(t, iv, nf, y);
    hide LaidOut, Under, IdOrder;
    forall x, c, d | PartsAt(t, x, c, d, y, y)
      ensures false
    {
      SiblingsDisjoint(t, x, c, d, y);
    }
  }

  /** Two blocks of a minimal list. */
  lemma PairStaysBefore(
      t0: Tree, iv0: map<BlockId, Interval>, nf0: map<BlockId, u64>, t: Tree, anchor: BlockId,
      iv: map<BlockId, Interval>, nf: map<BlockId, u64>, y: BlockId, z: BlockId)
    requires LaidAnew(t0, iv0, nf0, t, anchor, iv, nf) && y in t0.kids && z in t0.kids
    requires y != z ==> !Under(t, y, z) && !Under(t, z, y)
    ensures y in iv0 && z in iv0 && y in iv && z in iv
    ensures iv[y].hi < iv[z].lo <==> StaysBefore(t, anchor, iv0, y, z)
  {
    hide LaidAnew, Under, BranchesAscend;
    if y == z {
      NotBeforeItself(t0, iv0, nf0, t, anchor, iv, nf, y);
    } else if Under(t, anchor, y) && Under(t, anchor, z) {
      PairInside(t0, iv0, nf0, t, anchor, iv, nf, y, z);
      BothLabelled(t0, iv0, nf0, t, anchor, iv, nf);
    } else {
      PairOutside(t0, iv0, nf0, t, anchor, iv, nf, y, z);
    }
  }

  lemma BothLabelled(
      t0: Tree, iv0: map<BlockId, Interval>, nf0: map<BlockId, u64>, t: Tree, anchor: BlockId,
      iv: map<BlockId, Interval>, nf: map<BlockId, u64>)
    requires LaidAnew(t0, iv0, nf0, t, anchor, iv, nf)
    ensures forall y :: y in t0.kids ==> y in iv0 && y in iv && 1 <= iv[y].lo <= iv[y].hi
    ensures forall x, y :: y in t0.kids ==> (Under(t, x, y) <==> Under(t0, x, y))
  {
    InTreeIsLabelled(t0, iv0, nf0);
    forall y | y in t0.kids
      ensures y in iv && 1 <= iv[y].lo <= iv[y].hi
    {
      LayoutFacts(t, iv, nf, y);
    }
  }

  /** After a relayout a minimal covering list is sorted by interval start if and only if its
      entries inside the subtree are in the order of their branches, and every other pair was
      in order before. */
  lemma RelaidSortedIff(
      t0: Tree, iv0: map<BlockId, Interval>, nf0: map<BlockId, u64>, t: Tree, anchor: BlockId,
      iv: map<BlockId, Interval>, nf: map<BlockId, u64>, a: BlockId, covers: seq<BlockId>)
    requires LaidAnew(t0, iv0, nf0, t, anchor, iv, nf) && LeanAt(t0, covers, a) && forall c :: c in covers ==> c in t0.kids
    ensures forall c :: c in covers ==> c in iv0
    ensures InOrder(covers, iv) <==>
      forall i, j :: 0 <= i < j < |covers| ==> StaysBefore(t, anchor, iv0, covers[i], covers[j])
  {
    hide LaidAnew, StaysBefore, Under;
    BothLabelled(t0, iv0, nf0, t, anchor, iv, nf);
    forall i, j | 0 <= i < j < |covers|
      ensures iv[covers[i]].hi < iv[covers[j]].lo <==> StaysBefore(t, anchor, iv0, covers[i], covers[j])
    {
      assert covers[i] in covers && covers[j] in covers;
      PairStaysBefore(t0, iv0, nf0, t, anchor, iv, nf, covers[i], covers[j]);
    }
  }

  /** So a list that was sorted stays so if and only if its entries inside the subtree are
      in the order of their branches. */
  lemma SortedSurvivesIff(
      t0: Tree, iv0: map<BlockId, Interval>, nf0: map<BlockId, u64>, t: Tree, anchor: BlockId,
      iv: map<BlockId, Interval>, nf: map<BlockId, u64>, a: BlockId, covers: seq<BlockId>)
    requires LaidAnew(t0, iv0, nf0, t, anchor, iv, nf) && LeanAt(t0, covers, a) && forall c :: c in covers ==> c in t0.kids
    requires InOrder(covers, iv0)
    ensures InOrder(covers, iv) <==>
      forall i, j :: 0 <= i < j < |covers| && Under(t, anchor, covers[i]) && Under(t, anchor, covers[j]) ==>
        BranchesAscend(t, covers[i], covers[j])
  {
    hide LaidAnew, Under, BranchesAscend, LeanAt;
    RelaidSortedIff(t0, iv0, nf0, t, anchor, iv, nf, a, covers);
  }

  // ------------------------------------------------------------------- a list unsorted

  /** Genesis 0 with children 1 and 2; then 4 and after it 3 on 2, both merging 1. */
  ghost function Merging(): Tree {
    Tree(0, Up(), Kids(), map[0 := 0, 1 := 1, 2 := 1, 3 := 2, 4 := 2])
  }

  function Up(): map<BlockId, BlockId> {
    map[1 := 0, 2 := 0, 3 := 2, 4 := 2]
  }

  function Kids(): map<BlockId, seq<BlockId>> {
    map[0 := [1, 2], 1 := [], 2 := [3, 4], 3 := [], 4 := []]
  }

  const RESERVE: u64 := CHILD_RESERVE
  const HALF: u64 := 0x80_0000_0000
  const QUARTER: u64 := 0x40_0000_0000

  function AsCarved(): map<BlockId, Interval> {
    map[
      0 := Interval(1, ROOT_CAPACITY), 1 := Interval(2, RESERVE + 1), 2 := Interval(RESERVE + 2, 2 * RESERVE + 1),
      3 := Interval(RESERVE + HALF + 3, RESERVE + HALF + QUARTER + 2), 4 := Interval(RESERVE + 3, RESERVE + HALF + 2)]
  }

  function FreeAt(): map<BlockId, u64> {
    map[
      0 := 2 * RESERVE + 2, 1 := 3, 2 := RESERVE + HALF + QUARTER + 3, 3 := RESERVE + HALF + 4, 4 := RESERVE + 4]
  }

  function Sizes(): map<BlockId, u64> {
    map[0 := 5, 1 := 1, 2 := 3, 3 := 1, 4 := 1]
  }

  function MergedBy(): map<BlockId, seq<BlockId>> {
    map[1 := [4, 3]]
  }

  ghost function Pasts(): map<BlockId, set<BlockId>> {
    map[0 := {}, 1 := {0}, 2 := {0}, 3 := {0, 1, 2}, 4 := {0, 1, 2}]
  }

  predicate Five(x: BlockId) {
    x == 0 || x == 1 || x == 2 || x == 3 || x == 4
  }

  lemma MergingFacts()
    ensures var t := Merging();
      && t.root == 0 && (forall x :: x in t.kids <==> Five(x)) && (forall x :: x in t.depth <==> Five(x))
      && (forall x :: x in t.up <==> Five(x) && x != 0)
      && t.up[1] == 0 && t.up[2] == 0 && t.up[3] == 2 && t.up[4] == 2
      && t.kids[0] == [1, 2] && t.kids[1] == [] && t.kids[2] == [3, 4] && t.kids[3] == [] && t.kids[4] == []
      && t.depth[0] == 0 && t.depth[1] == 1 && t.depth[2] == 1 && t.depth[3] == 2 && t.depth[4] == 2
  {
  }

  lemma LabelFacts()
    ensures var iv, nf, size := AsCarved(), FreeAt(), Sizes();
      && (forall x :: x in iv <==> Five(x)) && (forall x :: x in nf <==> Five(x)) && (forall x :: x in size <==> Five(x))
      && iv[0] == Interval(1, ROOT_CAPACITY) && iv[1] == Interval(2, RESERVE + 1)
      && iv[2] == Interval(RESERVE + 2, 2 * RESERVE + 1)
      && iv[3] == Interval(RESERVE + HALF + 3, RESERVE + HALF + QUARTER + 2)
      && iv[4] == Interval(RESERVE + 3, RESERVE + HALF + 2)
      && nf[0] == 2 * RESERVE + 2 && nf[1] == 3 && nf[2] == RESERVE + HALF + QUARTER + 3
      && nf[3] == RESERVE + HALF + 4 && nf[4] == RESERVE + 4
      && size[0] == 5 && size[1] == 1 && size[2] == 3 && size[3] == 1 && size[4] == 1
  {
  }

  /** The labels are those the blocks are given, arriving as 1, 2, 4, 3. */
  lemma LabelsAreCarved()
    ensures AsCarved()[1] == Interval(2, CarveEnd(2, ROOT_CAPACITY))
    ensures AsCarved()[2] == Interval(RESERVE + 2, CarveEnd(RESERVE + 2, ROOT_CAPACITY))
    ensures AsCarved()[4] == Interval(RESERVE + 3, CarveEnd(RESERVE + 3, AsCarved()[2].hi))
    ensures AsCarved()[3] == Interval(RESERVE + HALF + 3, CarveEnd(RESERVE + HALF + 3, AsCarved()[2].hi))
  {
    LabelFacts();
    hide AsCarved;
  }

  lemma MergingShape()
    ensures Shape(Merging())
  {
    MergingFacts();
    hide Merging;
    var t := Merging();
    PairMembers(1, 2);
    PairMembers(3, 4);
    forall x, c | x in t.kids && c in t.kids[x]
      ensures ChildOf(t, c, x)
    {
      assert Five(x);
    }
  }

  lemma PairMembers(c: BlockId, d: BlockId)
    ensures forall x :: x in [c, d] <==> x == c || x == d
    ensures [c, d][0] == c && [c, d][1] == d
  {
  }

  lemma MergingSized()
    ensures Sized(Merging(), Sizes())
  {
    MergingFacts();
    LabelFacts();
    hide Merging, Sizes;
    var size := Sizes();
    forall x | Five(x)
      ensures SizedAt(Merging(), size, x)
    {
      TwoSizes(size, 1, 2);
      TwoSizes(size, 3, 4);
    }
  }

  lemma TwoSizes(size: map<BlockId, u64>, c: BlockId, d: BlockId)
    requires c in size && d in size
    ensures SumSizes(size, [c, d]) == size[c] as nat + size[d] as nat && SumSizes(size, []) == 0
  {
    assert [c, d][1..] == [d] && [d][1..] == [];
    assert SumSizes(size, [d]) == size[d] as nat;
  }

  lemma LeafLaidOut(t: Tree, iv: map<BlockId, Interval>, nf: map<BlockId, u64>, x: BlockId)
    requires x in t.kids && x in iv && x in nf && t.kids[x] == []
    requires 1 <= iv[x].lo <= iv[x].hi <= ROOT_CAPACITY && iv[x].lo < nf[x] <= iv[x].hi + 1
    ensures LaidOutAt(t, iv, nf, x)
  {
  }

  lemma ForkLaidOut(t: Tree, iv: map<BlockId, Interval>, nf: map<BlockId, u64>, x: BlockId, c: BlockId, d: BlockId)
    requires x in t.kids && x in iv && x in nf && c in iv && d in iv && t.kids[x] == [c, d]
    requires 1 <= iv[x].lo <= iv[x].hi <= ROOT_CAPACITY && iv[x].lo < nf[x] <= iv[x].hi + 1
    requires iv[x].lo < iv[c].lo <= iv[c].hi < nf[x] && iv[x].lo < iv[d].lo <= iv[d].hi < nf[x] && Apart(iv, c, d)
    ensures LaidOutAt(t, iv, nf, x)
  {
    PairMembers(c, d);
  }

  lemma MergingLaidOut()
    ensures LaidOut(Merging(), AsCarved(), FreeAt())
  {
    MergingFacts();
    LabelFacts();
    hide Merging, AsCarved, FreeAt, LaidOutAt, LaidOut;
    var t, iv, nf := Merging(), AsCarved(), FreeAt();
    ForkLaidOut(t, iv, nf, 0, 1, 2);
    LeafLaidOut(t, iv, nf, 1);
    ForkLaidOut(t, iv, nf, 2, 3, 4);
    LeafLaidOut(t, iv, nf, 3);
    LeafLaidOut(t, iv, nf, 4);
    FiveLaidOut(t, iv, nf);
  }

  lemma FiveLaidOut(t: Tree, iv: map<BlockId, Interval>, nf: map<BlockId, u64>)
    requires t.root in iv && iv[t.root] == Interval(1, ROOT_CAPACITY)
    requires forall x :: (x in t.kids <==> Five(x)) && (x in iv <==> Five(x)) && (x in nf <==> Five(x))
    requires forall x :: Five(x) ==> LaidOutAt(t, iv, nf, x)
    ensures LaidOut(t, iv, nf)
  {
    hide LaidOutAt;
  }

  lemma MergingUnder(x: BlockId, y: BlockId)
    requires Five(y)
    ensures Under(Merging(), x, y) <==> x == y || (x == 0 && Five(y)) || (x == 2 && (y == 3 || y == 4))
  {
    MergingFacts();
    hide Merging;
    var t := Merging();
    assert Under(t, x, 0) <==> x == 0;
    assert Under(t, x, 1) <==> x == 1 || x == 0;
    assert Under(t, x, 2) <==> x == 2 || x == 0;
  }

  lemma MergingExact()
    ensures Exact(Merging(), MergedBy(), Pasts())
  {
    MergingFacts();
    PastFacts();
    PairMembers(4, 3);
    hide Merging, Pasts, MergedBy, Reached;
    forall a, d | Five(a) && Five(d)
      ensures a in Pasts()[d] <==> Reached(Merging(), MergedBy(), a, d)
    {
      MergingReached(a, d);
    }
  }

  lemma MergingLean()
    ensures AllLean(Merging(), MergedBy())
  {
    hide Merging, MergedBy, Under;
    PastFacts();
    PairMembers(4, 3);
    MergingUnder(1, 3);
    MergingUnder(1, 4);
    MergingUnder(3, 4);
    MergingUnder(4, 3);
  }

  lemma MergingReached(a: BlockId, d: BlockId)
    requires Five(a) && Five(d)
    ensures Reached(Merging(), MergedBy(), a, d) <==>
      (a == 0 && d != 0) || (a == 1 && (d == 3 || d == 4)) || (a == 2 && (d == 3 || d == 4))
  {
    PastFacts();
    PairMembers(4, 3);
    MergingUnder(a, d);
    MergingUnder(3, d);
    MergingUnder(4, d);
    hide Merging, MergedBy, Under;
    assert a == 1 ==> (Covered(Merging(), [4, 3], d) <==> d == 4 || d == 3);
  }

  lemma PastFacts()
    ensures var p, fcs := Pasts(), MergedBy();
      && (forall x :: x in p <==> Five(x)) && p[0] == {} && p[1] == {0} && p[2] == {0}
      && p[3] == {0, 1, 2} && p[4] == {0, 1, 2} && |p| == 5
      && (forall x :: x in fcs <==> x == 1) && fcs[1] == [4, 3]
  {
    assert Pasts().Keys == {0, 1, 2, 3, 4} && |Pasts()| == |Pasts().Keys|;
  }

  /** Sorted while the blocks arrive, not after a relayout above them. */
  lemma RelayoutUnsorts(anchor: BlockId, iv: map<BlockId, Interval>, nf: map<BlockId, u64>)
    requires LaidOut(Merging(), iv, nf) && Under(Merging(), anchor, 2) && Relaid(Merging(), anchor, AsCarved(), iv)
    ensures InOrder([4, 3], AsCarved()) && !InOrder([4, 3], iv)
  {
    hide Merging, AsCarved, LaidOut, Under, InOrder, Relaid;
    MergingFacts();
    LabelFacts();
    LayoutFacts(Merging(), iv, nf, 3);
    LayoutFacts(Merging(), iv, nf, 4);
    PairMembers(3, 4);
    ChildrenAscend(Merging(), anchor, iv, 2, 3, 4);
    PairInOrder(AsCarved(), 4, 3);
    PairInOrder(iv, 4, 3);
  }

  lemma ChildrenAscend(t: Tree, anchor: BlockId, iv: map<BlockId, Interval>, x: BlockId, c: BlockId, d: BlockId)
    requires Relaid(t, anchor, AsCarved(), iv) && x in t.kids && Under(t, anchor, x)
    requires c in t.kids[x] && d in t.kids[x] && c < d
    ensures c in iv && d in iv && iv[c].hi < iv[d].lo
  {
    assert IdOrder(t, iv, x);
  }

  lemma PairInOrder(iv: map<BlockId, Interval>, c: BlockId, d: BlockId)
    requires c in iv && d in iv && iv[c].lo <= iv[c].hi && iv[d].lo <= iv[d].hi
    ensures InOrder([c, d], iv) <==> iv[c].hi < iv[d].lo
  {
    var s := [c, d];
    assert s[0] == c && s[1] == d;
  }

  /** The oracle of these blocks, sound, with the covering list of 1 sorted. */
  method SortedOracle() returns (r: Reachability)
    ensures fresh(r) && r.Valid() && r.TreeOf() == Merging() && r.subtreeSize == Sizes()
    ensures r.intervals == AsCarved() && r.fcs == MergedBy() && InOrder(CoversOf(r.fcs, 1), r.intervals)
  {
    hide Shape, Sized, LaidOut, Exact, AllLean, InOrder, AsCarved, FreeAt;
    MergingShape();
    MergingSized();
    MergingLaidOut();
    MergingExact();
    MergingLean();
    PastFacts();
    LabelFacts();
    PairInOrder(AsCarved(), 4, 3);
    r := new Reachability.Seed(0, Kids(), Up(), Sizes(), Merging().depth);
    r.intervals, r.nextFree := AsCarved(), FreeAt();
    r.Install(MergedBy(), Pasts());
  }

  /** A reindex at 2 leaves it sound, and the list unsorted. */
  method ReindexUnsorts() returns (r: Reachability)
    ensures fresh(r) && r.Valid() && !InOrder(CoversOf(r.fcs, 1), r.intervals)
  {
    hide Shape, Sized, LaidOut, LaidOutOff, Exact, AllLean, InOrder, RelaidAbove, Reindexed;
    hide Merging, AsCarved, Sizes, MergedBy;
    r := SortedOracle();
    MergingSizes();
    LaidOutIsOff(r.TreeOf(), r.intervals, r.nextFree, 2);
    r.Reindex(2);
    ReindexedUnsorts(r.intervals, r.nextFree);
  }

  lemma MergingSizes()
    ensures Merging().root in Sizes() && Sizes()[Merging().root] <= ROOT_CAPACITY && 2 in Merging().kids
  {
  }

  lemma ReindexedUnsorts(iv: map<BlockId, Interval>, nf: map<BlockId, u64>)
    requires LaidOut(Merging(), iv, nf) && RelaidAbove(Merging(), 2, Merging(), AsCarved(), iv)
    ensures !InOrder(CoversOf(MergedBy(), 1), iv)
  {
    hide Merging, AsCarved, LaidOut, Under, InOrder, Relaid;
    PastFacts();
    var anchor :| Under(Merging(), anchor, 2) && Relaid(Merging(), anchor, AsCarved(), iv);
    RelayoutUnsorts(anchor, iv, nf);
  }

  lemma LaidOutIsOff(t: Tree, iv: map<BlockId, Interval>, nf: map<BlockId, u64>, node: BlockId)
    requires LaidOut(t, iv, nf) && node in t.kids
    ensures LaidOutOff(t, iv, nf, node)
  {
    assert LaidOutAt(t, iv, nf, node);
  }
}
