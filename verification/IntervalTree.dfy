/** The reachability tree (the selected-parent tree), its subtree sizes and its
    interval labels, as values: what it means for them to agree, and what
    agreement buys. */
module IntervalTree {
  import opened BlockGraph
  import opened SortedIds
  import opened Words

  const ROOT_CAPACITY: u64 := 0x7FFF_FFFF_FFFF_FFFF
  const CHILD_RESERVE: u64 := 0x100_0000_0000

  /** The labels from `lo` to `hi`, both included. */
  datatype Interval = Interval(lo: u64, hi: u64) {
    predicate Holds(other: Interval) {
      lo <= other.lo <= hi
    }

    ghost function Width(): int {
      hi as int - lo as int + 1
    }
  }

  /** The interval of `x` holds the label of `y`. */
  predicate Contains(iv: map<BlockId, Interval>, x: BlockId, y: BlockId) {
    x in iv && y in iv && iv[x].Holds(iv[y])
  }

  /** `up` maps a block to its tree parent, `kids` to its tree children. */
  datatype Tree = Tree(
    root: BlockId,
    up: map<BlockId, BlockId>,
    kids: map<BlockId, seq<BlockId>>,
    ghost depth: map<BlockId, nat>)

  ghost predicate Shape(t: Tree) {
    && t.root in t.kids && t.kids.Keys == t.depth.Keys
    && t.up.Keys == t.kids.Keys - {t.root}
    && (forall c :: c in t.up ==> t.up[c] in t.kids && t.depth[c] == t.depth[t.up[c]] + 1)
    && (forall x :: x in t.kids ==> Ascending(t.kids[x]))
    && (forall x, c :: x in t.kids && c in t.kids[x] ==> ChildOf(t, c, x))
    && (forall c :: c in t.up ==> c in t.kids[t.up[c]])
  }

  ghost predicate ChildOf(t: Tree, c: BlockId, x: BlockId) {
    c in t.up && t.up[c] == x
  }

  /** `y` lies in the tree subtree of `x` (or is `x`). */
  ghost predicate Under(t: Tree, x: BlockId, y: BlockId)
    decreases if y in t.depth then t.depth[y] else 0
  {
    || x == y
    || (y in t.up && y in t.depth && t.up[y] in t.depth && t.depth[t.up[y]] < t.depth[y] && Under(t, x, t.up[y]))
  }

  lemma {:induction false} UnderTransitive(t: Tree, x: BlockId, y: BlockId, z: BlockId)
    requires Under(t, x, y) && Under(t, y, z)
    ensures Under(t, x, z)
    decreases if z in t.depth then t.depth[z] else 0
  {
    if y != z {
      UnderTransitive(t, x, y, t.up[z]);
    }
  }

  lemma {:induction false} UnderStaysInTree(t: Tree, x: BlockId, y: BlockId)
    requires Shape(t) && Under(t, x, y) && y in t.kids
    ensures x in t.kids
    ensures x == y || t.depth[x] < t.depth[y]
    decreases t.depth[y]
  {
    if x != y {
      UnderStaysInTree(t, x, t.up[y]);
    }
  }

  /** A strict descendant of `x` lies under exactly one of its children. */
  lemma {:induction false} BranchOf(t: Tree, x: BlockId, y: BlockId) returns (c: BlockId)
    requires Shape(t) && Under(t, x, y) && x != y && y in t.kids
    ensures x in t.kids && c in t.kids[x] && Under(t, c, y)
    decreases t.depth[y]
  {
    if t.up[y] == x {
      c := y;
    } else {
      c := BranchOf(t, x, t.up[y]);
    }
  }

  lemma {:induction false} EverythingUnderRoot(t: Tree, y: BlockId)
    requires Shape(t) && y in t.kids
    ensures Under(t, t.root, y)
    decreases t.depth[y]
  {
    if y != t.root {
      EverythingUnderRoot(t, t.up[y]);
    }
  }

  /** Two nodes above the same node are on one path. */
  lemma {:induction false} OneLineAbove(t: Tree, x: BlockId, y: BlockId, z: BlockId)
    requires Shape(t) && z in t.kids && Under(t, x, z) && Under(t, y, z)
    ensures Under(t, x, y) || Under(t, y, x)
    decreases t.depth[z]
  {
    if x != z && y != z {
      OneLineAbove(t, x, y, t.up[z]);
    }
  }

  lemma SiblingsDisjoint(t: Tree, x: BlockId, c: BlockId, d: BlockId, y: BlockId)
    requires Shape(t) && x in t.kids && c in t.kids[x] && d in t.kids[x] && c != d && y in t.kids
    ensures !(Under(t, c, y) && Under(t, d, y))
  {
    assert ChildOf(t, c, x) && ChildOf(t, d, x);
    if Under(t, c, y) && Under(t, d, y) {
      OneLineAbove(t, c, d, y);
      if Under(t, c, d) {
        UnderStaysInTree(t, c, d);
      } else {
        UnderStaysInTree(t, d, c);
      }
    }
  }

  // ------------------------------------------------------- interval labels

  /** Node `x` has a proper interval, its children's intervals lie apart inside
      it above its own label, and its free space starts above all of them. */
  ghost predicate LaidOutAt(t: Tree, iv: map<BlockId, Interval>, nf: map<BlockId, u64>, x: BlockId) {
    && x in t.kids && x in iv && x in nf
    && 1 <= iv[x].lo <= iv[x].hi <= ROOT_CAPACITY
    && iv[x].lo < nf[x] <= iv[x].hi + 1
    && (forall c :: c in t.kids[x] ==> c in iv && iv[x].lo < iv[c].lo <= iv[c].hi < nf[x])
    && (forall c, d :: c in t.kids[x] && d in t.kids[x] && c != d ==> Apart(iv, c, d))
  }

  ghost predicate Apart(iv: map<BlockId, Interval>, c: BlockId, d: BlockId)
    requires c in iv && d in iv
  {
    iv[c].hi < iv[d].lo || iv[d].hi < iv[c].lo
  }

  ghost predicate LaidOut(t: Tree, iv: map<BlockId, Interval>, nf: map<BlockId, u64>) {
    && t.root in iv && iv[t.root] == Interval(1, ROOT_CAPACITY)
    && iv.Keys == t.kids.Keys && nf.Keys == t.kids.Keys
    && forall x :: x in t.kids ==> LaidOutAt(t, iv, nf, x)
  }

  /** Subtrees nest: a descendant's interval lies inside, with a higher label. */
  lemma {:induction false} DescendantInside(
      t: Tree, iv: map<BlockId, Interval>, nf: map<BlockId, u64>, x: BlockId, y: BlockId)
    requires Shape(t) && LaidOut(t, iv, nf) && y in t.kids && Under(t, x, y)
    ensures x in t.kids && iv[x].lo <= iv[y].lo && iv[y].hi <= iv[x].hi
    ensures x != y ==> iv[x].lo < iv[y].lo
    decreases t.depth[y]
  {
    UnderStaysInTree(t, x, y);
    if x != y {
      DescendantInside(t, iv, nf, x, t.up[y]);
      assert LaidOutAt(t, iv, nf, t.up[y]);
    }
  }

  /** Unrelated subtrees occupy disjoint intervals. */
  lemma {:induction false} UnrelatedApart(
      t: Tree, iv: map<BlockId, Interval>, nf: map<BlockId, u64>, x: BlockId, y: BlockId)
    requires Shape(t) && LaidOut(t, iv, nf) && x in t.kids && y in t.kids
    requires !Under(t, x, y) && !Under(t, y, x)
    ensures Apart(iv, x, y)
    decreases t.depth[y]
  {
    if y == t.root {
      EverythingUnderRoot(t, x);
    } else {
      var p := t.up[y];
      assert LaidOutAt(t, iv, nf, p);
      if Under(t, p, x) {
        assert x != p;
        var c := BranchOf(t, p, x);
        assert c != y;
        DescendantInside(t, iv, nf, c, x);
        assert Apart(iv, c, y);
      } else {
        assert !Under(t, x, p);
        UnrelatedApart(t, iv, nf, x, p);
      }
    }
  }

  /** The label test decides tree ancestry. */
  lemma LabelsDecideSubtree(
      t: Tree, iv: map<BlockId, Interval>, nf: map<BlockId, u64>, x: BlockId, y: BlockId)
    requires Shape(t) && LaidOut(t, iv, nf) && x in t.kids && y in t.kids
    ensures iv[x].Holds(iv[y]) <==> Under(t, x, y)
  {
    assert LaidOutAt(t, iv, nf, x) && LaidOutAt(t, iv, nf, y);
    if Under(t, x, y) {
      DescendantInside(t, iv, nf, x, y);
    } else if Under(t, y, x) {
      DescendantInside(t, iv, nf, y, x);
    } else {
      UnrelatedApart(t, iv, nf, x, y);
    }
  }

  // ---------------------------------------------------------- subtree sizes

  ghost function SumSizes(size: map<BlockId, u64>, s: seq<BlockId>): nat {
    if s == [] then 0 else (if s[0] in size then size[s[0]] as nat else 0) + SumSizes(size, s[1..])
  }

  ghost predicate SizedAt(t: Tree, size: map<BlockId, u64>, x: BlockId) {
    x in t.kids && x in size && size[x] as nat == 1 + SumSizes(size, t.kids[x])
  }

  ghost predicate Sized(t: Tree, size: map<BlockId, u64>) {
    size.Keys == t.kids.Keys && forall x :: x in t.kids ==> SizedAt(t, size, x)
  }

  lemma {:induction false} SumSplit(size: map<BlockId, u64>, a: seq<BlockId>, b: seq<BlockId>)
    ensures SumSizes(size, a + b) == SumSizes(size, a) + SumSizes(size, b)
  {
    if a == [] {
      assert a + b == b;
    } else {
      assert (a + b)[1..] == a[1..] + b;
      SumSplit(size, a[1..], b);
    }
  }

  lemma {:induction false} SumAgrees(size: map<BlockId, u64>, size': map<BlockId, u64>, s: seq<BlockId>)
    requires forall c :: c in s ==> (c in size <==> c in size') && (c in size ==> size[c] == size'[c])
    ensures SumSizes(size, s) == SumSizes(size', s)
  {
    if s != [] {
      SumAgrees(size, size', s[1..]);
    }
  }

  /** Raising one summand by one raises the sum by one. */
  lemma {:induction false} SumRaised(
      size: map<BlockId, u64>, size': map<BlockId, u64>, s: seq<BlockId>, c: BlockId)
    requires Ascending(s) && c in s && c in size && size[c] < U64_MAX
    requires size' == size[c := size[c] + 1]
    ensures SumSizes(size', s) == SumSizes(size, s) + 1
  {
    assert [s[0]] + s[1..] == s;
    if s[0] == c {
      SumAgrees(size, size', s[1..]);
    } else {
      SumRaised(size, size', s[1..], c);
    }
  }

  lemma {:induction false} SumBoundsMember(size: map<BlockId, u64>, s: seq<BlockId>, c: BlockId)
    requires c in s && c in size
    ensures size[c] as nat <= SumSizes(size, s)
  {
    if s[0] != c {
      SumBoundsMember(size, s[1..], c);
    }
  }

  lemma {:induction false} SizeBelowRoot(t: Tree, size: map<BlockId, u64>, x: BlockId)
    requires Shape(t) && Sized(t, size) && x in t.kids
    ensures size[x] <= size[t.root]
    decreases t.depth[x]
  {
    if x != t.root {
      var p := t.up[x];
      assert SizedAt(t, size, p);
      SumBoundsMember(size, t.kids[p], x);
      SizeBelowRoot(t, size, p);
    }
  }

  // --------------------------------------------------------- gaining a leaf

  ghost predicate LeafAdded(t: Tree, sp: BlockId, id: BlockId, t': Tree) {
    && id !in t.kids && sp in t.kids && sp in t.depth
    && t'.root == t.root && t'.up == t.up[id := sp] && t'.depth == t.depth[id := t.depth[sp] + 1]
    && t'.kids.Keys == t.kids.Keys + {id} && t'.kids[id] == []
    && (forall x :: x in t.kids && x != sp ==> t'.kids[x] == t.kids[x])
    && Ascending(t'.kids[sp])
    && forall c :: c in t'.kids[sp] <==> c == id || c in t.kids[sp]
  }

  lemma LeafKeepsChildren(t: Tree, sp: BlockId, id: BlockId, t': Tree)
    requires Shape(t) && LeafAdded(t, sp, id, t')
    ensures forall x, c :: x in t'.kids && c in t'.kids[x] ==> ChildOf(t', c, x)
  {
    forall x, c | x in t'.kids && c in t'.kids[x]
      ensures ChildOf(t', c, x)
    {
      if c != id {
        assert c in t.kids[x];
        assert ChildOf(t, c, x);
      }
    }
  }

  lemma LeafKeepsShape(t: Tree, sp: BlockId, id: BlockId, t': Tree)
    requires Shape(t) && LeafAdded(t, sp, id, t')
    ensures Shape(t')
  {
    LeafKeepsChildren(t, sp, id, t');
    forall c | c in t'.up
      ensures t'.up[c] in t'.kids && c in t'.kids[t'.up[c]]
    {
      if c != id {
        assert c in t.kids[t.up[c]];
      }
    }
  }

  lemma {:induction false} LeafKeepsUnder(t: Tree, sp: BlockId, id: BlockId, t': Tree, x: BlockId, y: BlockId)
    requires Shape(t) && LeafAdded(t, sp, id, t') && y in t.kids
    ensures Under(t', x, y) <==> Under(t, x, y)
    decreases t.depth[y]
  {
    LeafKeepsShape(t, sp, id, t');
    if y in t.up {
      LeafKeepsUnder(t, sp, id, t', x, t.up[y]);
    }
  }

  lemma UnderLeaf(t: Tree, sp: BlockId, id: BlockId, t': Tree, x: BlockId)
    requires Shape(t) && LeafAdded(t, sp, id, t')
    ensures Under(t', x, id) <==> x == id || Under(t, x, sp)
  {
    LeafKeepsUnder(t, sp, id, t', x, sp);
  }

  /** Everything is sized except `x`, which is one short. */
  ghost predicate ShortAt(t: Tree, size: map<BlockId, u64>, x: BlockId) {
    && x in t.kids && size.Keys == t.kids.Keys
    && size[x] as nat == SumSizes(size, t.kids[x])
    && forall y :: y in t.kids && y != x ==> SizedAt(t, size, y)
  }

  lemma LeafLeavesParentShort(
      t: Tree, sp: BlockId, id: BlockId, t': Tree, size: map<BlockId, u64>, pos: nat)
    requires Shape(t) && LeafAdded(t, sp, id, t') && Sized(t, size)
    requires pos <= |t.kids[sp]| && t'.kids[sp] == t.kids[sp][..pos] + [id] + t.kids[sp][pos..]
    ensures ShortAt(t', size[id := 1], sp)
  {
    var size' := size[id := 1];
    forall x | x in t.kids
      ensures SumSizes(size', t.kids[x]) == SumSizes(size, t.kids[x]) && SizedAt(t, size, x)
    {
      assert id !in t.up && id !in t.kids[x];
      SumAgrees(size, size', t.kids[x]);
      assert SizedAt(t, size, x);
    }
    SumInserted(size', t.kids[sp], id, pos, t'.kids[sp]);
  }

  lemma SumInserted(size: map<BlockId, u64>, s: seq<BlockId>, c: BlockId, pos: nat, s': seq<BlockId>)
    requires pos <= |s| && s' == s[..pos] + [c] + s[pos..] && c in size
    ensures SumSizes(size, s') == SumSizes(size, s) + size[c] as nat
  {
    var a, b := s[..pos], s[pos..];
    assert s == a + b && s' == a + ([c] + b);
    SumSplit(size, a, b);
    SumSplit(size, a, [c] + b);
    SumSplit(size, [c], b);
    assert SumSizes(size, [c]) == size[c] as nat;
  }

  /** Crediting the short node passes the shortage to its tree parent. */
  lemma CreditMovesUp(t: Tree, size: map<BlockId, u64>, x: BlockId, size': map<BlockId, u64>)
    requires Shape(t) && ShortAt(t, size, x) && size[x] < U64_MAX && size' == size[x := size[x] + 1]
    ensures x == t.root ==> Sized(t, size')
    ensures x != t.root ==> ShortAt(t, size', t.up[x])
  {
    forall y | y in t.kids && (x == t.root || y != t.up[x])
      ensures SizedAt(t, size', y)
    {
      assert x !in t.kids[y];
      SumAgrees(size, size', t.kids[y]);
      assert y != x ==> SizedAt(t, size, y);
    }
    if x != t.root {
      var p := t.up[x];
      assert SizedAt(t, size, p);
      SumRaised(size, size', t.kids[p], x);
    }
  }
}
