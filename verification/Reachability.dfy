/** The reachability oracle: interval labels on the selected-parent tree plus a
    future-covering set per block, maintained one block at a time. */
module Reachability {
  import opened BlockGraph
  import opened IntervalTree
  import opened SortedIds
  import opened Words
  import opened Relayout

  /** `d` lies in the tree subtree of a member of `s`. */
  ghost predicate Covered(t: Tree, s: seq<BlockId>, d: BlockId) {
    exists c :: c in s && Under(t, c, d)
  }

  ghost function CoversOf(fcs: map<BlockId, seq<BlockId>>, a: BlockId): seq<BlockId> {
    if a in fcs then fcs[a] else []
  }

  /** Tree ancestry and future-covering sets together say exactly who is in whose past. */
  ghost predicate Exact(t: Tree, fcs: map<BlockId, seq<BlockId>>, past: map<BlockId, set<BlockId>>) {
    && past.Keys == t.kids.Keys && fcs.Keys <= t.kids.Keys
    && (forall a, c :: a in fcs && c in fcs[a] ==> c in t.kids)
    && (forall d :: d in past ==> past[d] <= t.kids.Keys)
    && (forall a, d :: a in t.kids && d in t.kids ==> (a in past[d] <==> Reached(t, fcs, a, d)))
  }

  ghost predicate Reached(t: Tree, fcs: map<BlockId, seq<BlockId>>, a: BlockId, d: BlockId) {
    a != d && (Under(t, a, d) || Covered(t, CoversOf(fcs, a), d))
  }

  /** The covers `fcs'` of `a` reach what `fcs` did, and the subtree of `id` if `a` is merged. */
  ghost predicate CoverStep(
      t: Tree, fcs: map<BlockId, seq<BlockId>>, fcs': map<BlockId, seq<BlockId>>,
      merged: set<BlockId>, id: BlockId, a: BlockId, d: BlockId) {
    Covered(t, CoversOf(fcs', a), d) <==> Covered(t, CoversOf(fcs, a), d) || (a in merged && Under(t, id, d))
  }

  lemma LeafKeepsCovered(t: Tree, sp: BlockId, id: BlockId, t': Tree, s: seq<BlockId>, d: BlockId)
    requires Shape(t) && LeafAdded(t, sp, id, t') && id !in s
    ensures d in t.kids ==> (Covered(t', s, d) <==> Covered(t, s, d))
    ensures Covered(t', s, id) <==> Covered(t, s, sp)
  {
    forall c
      ensures d in t.kids ==> (Under(t', c, d) <==> Under(t, c, d))
      ensures Under(t', c, id) <==> c == id || Under(t, c, sp)
    {
      if d in t.kids {
        LeafKeepsUnder(t, sp, id, t', c, d);
      }
      UnderLeaf(t, sp, id, t', c);
    }
  }

  lemma LeafReachesNothing(
      t: Tree, sp: BlockId, id: BlockId, t': Tree, fcs: map<BlockId, seq<BlockId>>, d: BlockId)
    requires Shape(t) && LeafAdded(t, sp, id, t') && id !in fcs && d in t'.kids
    ensures !Reached(t', fcs, id, d)
    ensures d != id ==> !Under(t', id, d)
  {
    assert CoversOf(fcs, id) == [];
    if d != id {
      LeafKeepsUnder(t, sp, id, t', id, d);
      if Under(t, id, d) {
        UnderStaysInTree(t, id, d);
      }
    }
  }

  lemma LeafKeepsReached(
      t: Tree, sp: BlockId, id: BlockId, t': Tree, fcs: map<BlockId, seq<BlockId>>,
      fcs': map<BlockId, seq<BlockId>>, merged: set<BlockId>, a: BlockId, d: BlockId)
    requires Shape(t) && LeafAdded(t, sp, id, t') && a in t.kids && d in t'.kids
    requires id !in CoversOf(fcs, a) && id !in fcs'
    requires CoverStep(t', fcs, fcs', merged, id, a, d)
    ensures d != id ==> (Reached(t', fcs', a, d) <==> Reached(t, fcs, a, d))
    ensures Reached(t', fcs', a, id) || d != id <==>
      d != id || a == sp || a in merged || Reached(t, fcs, a, sp)
  {
    LeafKeepsCovered(t, sp, id, t', CoversOf(fcs, a), d);
    LeafReachesNothing(t, sp, id, t', fcs', d);
    if d == id {
      UnderLeaf(t, sp, id, t', a);
    } else {
      LeafKeepsUnder(t, sp, id, t', a, d);
    }
  }

  /** Adding a leaf whose id joins the cover of every merged block keeps exactness. */
  lemma LeafKeepsExact(
      t: Tree, sp: BlockId, id: BlockId, t': Tree,
      fcs: map<BlockId, seq<BlockId>>, fcs': map<BlockId, seq<BlockId>>, past: map<BlockId, set<BlockId>>,
      merged: set<BlockId>)
    requires Shape(t) && LeafAdded(t, sp, id, t') && Exact(t, fcs, past)
    requires merged <= t.kids.Keys && fcs'.Keys <= t.kids.Keys
    requires forall a, c :: a in fcs' && c in fcs'[a] ==> c in t'.kids
    requires forall a, d :: a in t.kids && d in t'.kids ==> CoverStep(t', fcs, fcs', merged, id, a, d)
    ensures Exact(t', fcs', past[id := past[sp] + {sp} + merged])
  {
    var past' := past[id := past[sp] + {sp} + merged];
    forall a, d | a in t'.kids && d in t'.kids
      ensures a in past'[d] <==> Reached(t', fcs', a, d)
    {
      if a == id {
        LeafReachesNothing(t, sp, id, t', fcs', d);
      } else {
        LeafKeepsReached(t, sp, id, t', fcs, fcs', merged, a, d);
      }
    }
  }

  // ---------------------------------------------------- covers stay minimal

  /** No cover of `a` is under `a`, nor under another cover: each is needed. */
  ghost predicate LeanAt(t: Tree, covers: seq<BlockId>, a: BlockId) {
    forall c :: c in covers ==> !Under(t, a, c) && forall other :: other in covers && other != c ==> !Under(t, other, c)
  }

  ghost predicate AllLean(t: Tree, fcs: map<BlockId, seq<BlockId>>) {
    forall a :: a in t.kids ==> LeanAt(t, CoversOf(fcs, a), a)
  }

  /** The covers of `a` only gain `id`, and only if `a` is merged. */
  ghost predicate GainsOnly(covers: seq<BlockId>, covers': seq<BlockId>, id: BlockId, merged: bool) {
    forall c :: c in covers' ==> c in covers || (c == id && merged)
  }

  /** A new leaf covers only what its selected parent does not reach yet, so every cover
      stays needed. */
  lemma LeafKeepsLeanAt(
      t: Tree, sp: BlockId, id: BlockId, t': Tree, covers: seq<BlockId>, covers': seq<BlockId>, a: BlockId, merged: bool)
    requires Shape(t) && LeafAdded(t, sp, id, t') && a in t.kids && LeanAt(t, covers, a)
    requires forall c :: c in covers ==> c in t.kids
    requires GainsOnly(covers, covers', id, merged)
    requires merged ==> !Under(t, a, sp) && !Covered(t, covers, sp)
    ensures LeanAt(t', covers', a)
  {
    forall c | c in covers'
      ensures !Under(t', a, c) && forall other :: other in covers' && other != c ==> !Under(t', other, c)
    {
      if c == id {
        UnderLeaf(t, sp, id, t', a);
        forall other | other in covers' && other != id
          ensures !Under(t', other, id)
        {
          UnderLeaf(t, sp, id, t', other);
        }
      } else {
        LeafKeepsUnder(t, sp, id, t', a, c);
        forall other | other in covers' && other != c
          ensures !Under(t', other, c)
        {
          LeafKeepsUnder(t, sp, id, t', other, c);
          if other == id && Under(t, id, c) {
            UnderStaysInTree(t, id, c);
          }
        }
      }
    }
  }

  lemma LeafKeepsLean(
      t: Tree, sp: BlockId, id: BlockId, t': Tree, fcs: map<BlockId, seq<BlockId>>, fcs': map<BlockId, seq<BlockId>>,
      past: map<BlockId, set<BlockId>>, merged: set<BlockId>)
    requires Shape(t) && LeafAdded(t, sp, id, t') && Exact(t, fcs, past) && AllLean(t, fcs) && id !in fcs'
    requires forall a :: GainsOnly(CoversOf(fcs, a), CoversOf(fcs', a), id, a in merged)
    requires merged !! past[sp] + {sp}
    ensures AllLean(t', fcs')
  {
    hide Shape, LeafAdded, Under, Covered, LeanAt, GainsOnly;
    forall a | a in t'.kids
      ensures LeanAt(t', CoversOf(fcs', a), a)
    {
      if a == id {
        NothingIsLean(t', a);
      } else {
        LeafNodes(t, sp, id, t');
        assert a in merged ==> !Reached(t, fcs, a, sp);
        LeafKeepsLeanAt(t, sp, id, t', CoversOf(fcs, a), CoversOf(fcs', a), a, a in merged);
      }
    }
  }

  lemma NothingIsLean(t: Tree, a: BlockId)
    ensures LeanAt(t, [], a)
  {
  }

  // ------------------------------------------------- standard-library searches

  /** Everything before `pos` is below `id`, everything from it on is not. */
  predicate Splits(s: seq<BlockId>, pos: nat, id: BlockId)
    requires pos <= |s|
  {
    (forall i :: 0 <= i < pos ==> s[i] < id) && (forall i :: pos <= i < |s| ==> id <= s[i])
  }

  /** Index of the first element of an ascending slice not below `id`. */
  method PartitionById(s: seq<BlockId>, id: BlockId) returns (pos: nat)
    ensures pos <= |s|
    ensures Ascending(s) ==> Splits(s, pos, id)
  {
    pos := 0;
    var end := |s|;
    while pos < end
      invariant pos <= end <= |s|
      invariant Ascending(s) ==> (forall i :: 0 <= i < pos ==> s[i] < id) && (forall i :: end <= i < |s| ==> id <= s[i])
    {
      var mid := pos + (end - pos) / 2;
      if s[mid] < id {
        pos := mid + 1;
      } else {
        end := mid;
      }
    }
  }

  /** Sorted by start, with intervals that lie apart. */
  ghost predicate InOrder(s: seq<BlockId>, iv: map<BlockId, Interval>) {
    && (forall c :: c in s ==> c in iv && iv[c].lo <= iv[c].hi)
    && forall i, j :: 0 <= i < j < |s| ==> iv[s[i]].hi < iv[s[j]].lo
  }

  /** Up to `pos` entries start no later than `start`, from `end` on they start later. */
  ghost predicate StartsSplit(s: seq<BlockId>, iv: map<BlockId, Interval>, pos: nat, end: nat, start: u64)
    requires pos <= end <= |s| && forall c :: c in s ==> c in iv
  {
    (forall i :: 0 <= i < pos ==> iv[s[i]].lo <= start) && (forall i :: end <= i < |s| ==> start < iv[s[i]].lo)
  }

  /** The same search by interval start. A reindex can leave `s` unsorted, and
      then nothing is known of the index but its range. */
  method PartitionByStart(s: seq<BlockId>, iv: map<BlockId, Interval>, start: u64) returns (pos: nat)
    requires forall c :: c in s ==> c in iv
    ensures pos <= |s|
    ensures InOrder(s, iv) ==> StartsSplit(s, iv, pos, pos, start)
  {
    pos := 0;
    var end := |s|;
    while pos < end
      invariant pos <= end <= |s|
      invariant InOrder(s, iv) ==> StartsSplit(s, iv, pos, end, start)
    {
      var mid := pos + (end - pos) / 2;
      if iv[s[mid]].lo <= start {
        pos := mid + 1;
      } else {
        end := mid;
      }
    }
  }

  /** All entries up to `pos` end before `b` starts, the others start later. */
  ghost predicate PlaceFor(s: seq<BlockId>, iv: map<BlockId, Interval>, pos: nat, b: BlockId) {
    && pos <= |s| && b in iv && InOrder(s, iv)
    && (forall i :: 0 <= i < pos ==> iv[s[i]].hi < iv[b].lo) && (forall i :: pos <= i < |s| ==> iv[b].lo < iv[s[i]].lo)
  }

  /** Of two intervals the later one lies inside the earlier, or after it. */
  lemma NestedOrAfter(t: Tree, iv: map<BlockId, Interval>, nf: map<BlockId, u64>, x: BlockId, y: BlockId)
    requires Shape(t) && LaidOut(t, iv, nf) && x in t.kids && y in t.kids
    ensures x in iv && y in iv
    ensures iv[x].lo <= iv[y].lo ==> iv[y].hi <= iv[x].hi || iv[x].hi < iv[y].lo
  {
    LabelsDecideSubtree(t, iv, nf, x, y);
    if x != y && Under(t, x, y) {
      DescendantInside(t, iv, nf, x, y);
    }
  }

  lemma PlaceFound(t: Tree, iv: map<BlockId, Interval>, nf: map<BlockId, u64>, s: seq<BlockId>, pos: nat, b: BlockId)
    requires Shape(t) && LaidOut(t, iv, nf) && b in t.kids && b in iv && pos <= |s|
    requires forall c :: c in s ==> c in t.kids && c in iv
    requires InOrder(s, iv) ==> StartsSplit(s, iv, pos, pos, iv[b].lo)
    requires pos > 0 ==> !(iv[s[pos - 1]].lo <= iv[b].lo && iv[b].hi <= iv[s[pos - 1]].hi)
    ensures InOrder(s, iv) ==> PlaceFor(s, iv, pos, b)
  {
    hide Shape, LaidOut;
    if pos > 0 {
      NestedOrAfter(t, iv, nf, s[pos - 1], b);
    }
  }

  lemma PlaceAfterDrop(s: seq<BlockId>, iv: map<BlockId, Interval>, pos: nat, b: BlockId)
    requires pos < |s|
    ensures PlaceFor(s, iv, pos, b) ==> PlaceFor(s[..pos] + s[pos + 1..], iv, pos, b)
  {
    var r := s[..pos] + s[pos + 1..];
    assert forall i :: 0 <= i < |r| ==> r[i] == (if i < pos then s[i] else s[i + 1]);
  }

  lemma PlaceFilled(t: Tree, iv: map<BlockId, Interval>, nf: map<BlockId, u64>, s: seq<BlockId>, pos: nat, b: BlockId)
    requires Shape(t) && LaidOut(t, iv, nf) && b in t.kids && b in iv && pos <= |s|
    requires forall c :: c in s ==> c in t.kids && c in iv
    requires pos < |s| ==> !(iv[b].lo <= iv[s[pos]].lo && iv[s[pos]].hi <= iv[b].hi)
    ensures PlaceFor(s, iv, pos, b) ==> InOrder(s[..pos] + [b] + s[pos..], iv)
  {
    hide Shape, InOrder;
    assert LaidOutAt(t, iv, nf, b);
    hide LaidOut;
    if pos < |s| {
      NestedOrAfter(t, iv, nf, b, s[pos]);
    }
    if PlaceFor(s, iv, pos, b) {
      InsertInOrder(s, iv, pos, b);
    }
  }

  lemma InsertInOrder(s: seq<BlockId>, iv: map<BlockId, Interval>, pos: nat, b: BlockId)
    requires pos <= |s| && InOrder(s, iv) && b in iv && iv[b].lo <= iv[b].hi
    requires (forall i :: 0 <= i < pos ==> iv[s[i]].hi < iv[b].lo) && (pos < |s| ==> iv[b].hi < iv[s[pos]].lo)
    ensures InOrder(s[..pos] + [b] + s[pos..], iv)
  {
    var before, after := s[..pos], s[pos..];
    forall j | 0 <= j < |after|
      ensures iv[b].hi < iv[after[j]].lo
      ensures forall i :: 0 <= i < pos ==> iv[s[i]].hi < iv[after[j]].lo
    {
      assert after[j] == s[pos + j] && s[pos] in s;
    }
    PartsInOrder(s, iv, pos);
    AppendInOrder(before, [b], iv);
    AppendInOrder(before + [b], after, iv);
  }

  lemma PartsInOrder(s: seq<BlockId>, iv: map<BlockId, Interval>, pos: nat)
    requires pos <= |s| && InOrder(s, iv)
    ensures InOrder(s[..pos], iv) && InOrder(s[pos..], iv)
  {
  }

  lemma AppendInOrder(a: seq<BlockId>, b: seq<BlockId>, iv: map<BlockId, Interval>)
    requires InOrder(a, iv) && InOrder(b, iv)
    requires forall i, j :: 0 <= i < |a| && 0 <= j < |b| ==> iv[a[i]].hi < iv[b[j]].lo
    ensures InOrder(a + b, iv)
  {
    var r := a + b;
    forall i, j | 0 <= i < j < |r|
      ensures r[i] in iv && r[j] in iv && iv[r[i]].hi < iv[r[j]].lo
    {
    }
  }

  // ------------------------------------------------------ covers as sets of blocks

  lemma CoveredSplit(t: Tree, s: seq<BlockId>, a: seq<BlockId>, b: seq<BlockId>, d: BlockId)
    requires s == a + b
    ensures Covered(t, s, d) <==> Covered(t, a, d) || Covered(t, b, d)
  {
  }

  /** Dropping an entry that lies under `b` loses nothing that `b` does not cover. */
  lemma DropCovered(t: Tree, s: seq<BlockId>, pos: nat, b: BlockId)
    requires pos < |s| && Under(t, b, s[pos])
    ensures forall d :: Covered(t, s, d) || Under(t, b, d) <==> Covered(t, s[..pos] + s[pos + 1..], d) || Under(t, b, d)
  {
    var c := s[pos];
    forall d
      ensures Covered(t, s, d) || Under(t, b, d) <==> Covered(t, s[..pos] + s[pos + 1..], d) || Under(t, b, d)
    {
      assert s == s[..pos] + ([c] + s[pos + 1..]);
      CoveredSplit(t, s, s[..pos], [c] + s[pos + 1..], d);
      CoveredSplit(t, [c] + s[pos + 1..], [c], s[pos + 1..], d);
      CoveredSplit(t, s[..pos] + s[pos + 1..], s[..pos], s[pos + 1..], d);
      if Under(t, c, d) {
        UnderTransitive(t, b, c, d);
      }
    }
  }

  lemma InsertCovers(t: Tree, s: seq<BlockId>, pos: nat, b: BlockId)
    requires pos <= |s|
    ensures forall d :: Covered(t, s[..pos] + [b] + s[pos..], d) <==> Covered(t, s, d) || Under(t, b, d)
  {
    forall d
      ensures Covered(t, s[..pos] + [b] + s[pos..], d) <==> Covered(t, s, d) || Under(t, b, d)
    {
      assert s == s[..pos] + s[pos..];
      assert s[..pos] + [b] + s[pos..] == s[..pos] + ([b] + s[pos..]);
      CoveredSplit(t, s, s[..pos], s[pos..], d);
      CoveredSplit(t, s[..pos] + [b] + s[pos..], s[..pos], [b] + s[pos..], d);
      CoveredSplit(t, [b] + s[pos..], [b], s[pos..], d);
      assert b in [b];
    }
  }

  /** `r` is `s` without some entries that `b` covers. */
  ghost predicate DropsOnly(t: Tree, s: seq<BlockId>, r: seq<BlockId>, b: BlockId) {
    && (forall c :: c in r ==> c in s)
    && forall d :: Covered(t, s, d) || Under(t, b, d) <==> Covered(t, r, d) || Under(t, b, d)
  }

  lemma NothingDropped(t: Tree, s: seq<BlockId>, b: BlockId)
    ensures DropsOnly(t, s, s, b)
  {
  }

  lemma DropStep(
      t: Tree, iv: map<BlockId, Interval>, nf: map<BlockId, u64>, s0: seq<BlockId>, s: seq<BlockId>, pos: nat, b: BlockId)
    requires Shape(t) && LaidOut(t, iv, nf) && b in t.kids && b in iv && pos < |s| && s[pos] in t.kids && s[pos] in iv
    requires iv[b].lo <= iv[s[pos]].lo && iv[s[pos]].hi <= iv[b].hi && DropsOnly(t, s0, s, b)
    ensures var r := s[..pos] + s[pos + 1..];
      DropsOnly(t, s0, r, b) && (PlaceFor(s, iv, pos, b) ==> PlaceFor(r, iv, pos, b))
  {
    hide Shape, LaidOut, Under, Covered, PlaceFor;
    ContainedIsUnder(t, iv, nf, b, s[pos]);
    DropCovered(t, s, pos, b);
    PlaceAfterDrop(s, iv, pos, b);
  }

  lemma InsertStep(
      t: Tree, iv: map<BlockId, Interval>, nf: map<BlockId, u64>, s0: seq<BlockId>, s: seq<BlockId>, pos: nat, b: BlockId)
    requires Shape(t) && LaidOut(t, iv, nf) && b in t.kids && b in iv && pos <= |s| && DropsOnly(t, s0, s, b)
    requires forall c :: c in s ==> c in t.kids && c in iv
    requires pos < |s| ==> !(iv[b].lo <= iv[s[pos]].lo && iv[s[pos]].hi <= iv[b].hi)
    ensures var r := s[..pos] + [b] + s[pos..];
      && (forall c :: c in r ==> c == b || c in s0) && (PlaceFor(s, iv, pos, b) ==> InOrder(r, iv))
      && forall d :: Covered(t, r, d) <==> Covered(t, s0, d) || Under(t, b, d)
  {
    hide Shape, LaidOut, Under, Covered, PlaceFor, InOrder;
    InsertCovers(t, s, pos, b);
    PlaceFilled(t, iv, nf, s, pos, b);
  }

  lemma AlreadyCovered(t: Tree, s: seq<BlockId>, c: BlockId, b: BlockId)
    requires c in s && Under(t, c, b)
    ensures forall d :: Covered(t, s, d) <==> Covered(t, s, d) || Under(t, b, d)
  {
    forall d | Under(t, b, d)
      ensures Covered(t, s, d)
    {
      UnderTransitive(t, c, b, d);
    }
  }

  // ------------------------------------------------------------------ reindexing

  /** Only nodes under `node` may be out of shape. */
  ghost predicate LaidOutOff(t: Tree, iv: map<BlockId, Interval>, nf: map<BlockId, u64>, node: BlockId) {
    && node in t.kids && node in iv && 1 <= iv[node].lo <= iv[node].hi <= ROOT_CAPACITY
    && t.root in iv && iv[t.root] == Interval(1, ROOT_CAPACITY)
    && iv.Keys == t.kids.Keys && nf.Keys == t.kids.Keys
    && forall x :: x in t.kids && !Under(t, node, x) ==> LaidOutAt(t, iv, nf, x)
  }

  ghost function Subtree(t: Tree, x: BlockId): set<BlockId> {
    set y | y in t.kids && Under(t, x, y)
  }

  lemma RelabelledAt(
      t: Tree, node: BlockId, anchor: BlockId, iv0: map<BlockId, Interval>, nf0: map<BlockId, u64>,
      iv: map<BlockId, Interval>, nf: map<BlockId, u64>, x: BlockId)
    requires Shape(t) && LaidOutOff(t, iv0, nf0, node) && Under(t, anchor, node)
    requires anchor in iv && anchor in iv0 && iv[anchor] == iv0[anchor] && x in t.kids
    requires x in Subtree(t, anchor) ==> LaidOutAt(t, iv, nf, x)
    requires LabelsKept(Subtree(t, anchor), iv0, nf0, iv, nf)
    ensures LaidOutAt(t, iv, nf, x)
    ensures x == t.root ==> iv[x] == iv0[x]
  {
    if !Under(t, anchor, x) {
      if Under(t, node, x) {
        UnderTransitive(t, anchor, node, x);
      }
      assert x !in Subtree(t, anchor) && SameLabels(iv0, nf0, iv, nf, x);
      OutsideKept(t, anchor, iv0, nf0, iv, nf, x);
    } else if x == t.root {
      UnderStaysInTree(t, anchor, x);
    }
  }

  /** Relabelling one subtree inside its own interval repairs the whole layout. */
  lemma RelabelledIsLaidOut(
      t: Tree, node: BlockId, anchor: BlockId, iv0: map<BlockId, Interval>, nf0: map<BlockId, u64>,
      iv: map<BlockId, Interval>, nf: map<BlockId, u64>)
    requires Shape(t) && LaidOutOff(t, iv0, nf0, node) && Under(t, anchor, node) && anchor in t.kids
    requires anchor in iv && iv[anchor] == iv0[anchor]
    requires forall x :: x in Subtree(t, anchor) ==> LaidOutAt(t, iv, nf, x)
    requires LabelsKept(Subtree(t, anchor), iv0, nf0, iv, nf)
    ensures LaidOut(t, iv, nf)
  {
    forall x | x in t.kids
      ensures LaidOutAt(t, iv, nf, x)
      ensures x == t.root ==> iv[x] == iv0[x]
    {
      RelabelledAt(t, node, anchor, iv0, nf0, iv, nf, x);
    }
    hide Under, Shape;
    SameKeys(t, anchor, iv0, nf0, iv, nf);
  }

  /** What relabelling the subtree of `anchor` does to the intervals: it keeps its own, its
      nodes' children lie in id order, and everything else stays where it was. */
  ghost predicate Relaid(t: Tree, anchor: BlockId, iv0: map<BlockId, Interval>, iv: map<BlockId, Interval>) {
    && anchor in t.kids && anchor in iv0 && anchor in iv && iv[anchor] == iv0[anchor]
    && (forall x :: x in t.kids && !Under(t, anchor, x) ==> x in iv0 && x in iv && iv[x] == iv0[x])
    && forall x :: x in t.kids && Under(t, anchor, x) ==> IdOrder(t, iv, x)
  }

  /** Some block from `node` upwards had its subtree relabelled. */
  ghost predicate RelaidAbove(
      t0: Tree, node: BlockId, t: Tree, iv0: map<BlockId, Interval>, iv: map<BlockId, Interval>) {
    exists anchor :: Under(t0, anchor, node) && Relaid(t, anchor, iv0, iv)
  }

  lemma RelabelledIsRelaid(
      t: Tree, node: BlockId, anchor: BlockId, iv0: map<BlockId, Interval>, nf0: map<BlockId, u64>,
      iv: map<BlockId, Interval>, nf: map<BlockId, u64>)
    requires LaidOutOff(t, iv0, nf0, node) && LaidOut(t, iv, nf) && anchor in t.kids
    requires anchor in iv && anchor in iv0 && iv[anchor] == iv0[anchor]
    requires forall x :: x in Subtree(t, anchor) ==> IdOrder(t, iv, x)
    requires LabelsKept(Subtree(t, anchor), iv0, nf0, iv, nf)
    ensures Relaid(t, anchor, iv0, iv)
  {
    hide IdOrder, LaidOutAt, Under;
    forall x | x in t.kids && !Under(t, anchor, x)
      ensures x in iv0 && x in iv && iv[x] == iv0[x]
    {
      assert x !in Subtree(t, anchor) && SameLabels(iv0, nf0, iv, nf, x);
    }
  }

  lemma SameKeys(
      t: Tree, anchor: BlockId, iv0: map<BlockId, Interval>, nf0: map<BlockId, u64>,
      iv: map<BlockId, Interval>, nf: map<BlockId, u64>)
    requires iv0.Keys == t.kids.Keys && nf0.Keys == t.kids.Keys
    requires forall x :: x in t.kids ==> x in iv && x in nf
    requires LabelsKept(Subtree(t, anchor), iv0, nf0, iv, nf)
    ensures iv.Keys == t.kids.Keys && nf.Keys == t.kids.Keys
  {
    forall x | x !in t.kids
      ensures x !in iv && x !in nf
    {
      assert x !in Subtree(t, anchor) && SameLabels(iv0, nf0, iv, nf, x);
    }
  }

  lemma OutsideKept(
      t: Tree, anchor: BlockId, iv0: map<BlockId, Interval>, nf0: map<BlockId, u64>,
      iv: map<BlockId, Interval>, nf: map<BlockId, u64>, x: BlockId)
    requires Shape(t) && LaidOutAt(t, iv0, nf0, x) && !Under(t, anchor, x)
    requires anchor in iv && anchor in iv0 && iv[anchor] == iv0[anchor]
    requires LabelsKept(Subtree(t, anchor), iv0, nf0, iv, nf) && SameLabels(iv0, nf0, iv, nf, x)
    ensures LaidOutAt(t, iv, nf, x)
  {
    forall c | c in t.kids[x]
      ensures c in iv && iv[c] == iv0[c]
    {
      assert ChildOf(t, c, x);
      if c != anchor {
        assert !Under(t, anchor, c);
        assert c !in Subtree(t, anchor) && SameLabels(iv0, nf0, iv, nf, c);
      }
    }
    forall c, d | c in t.kids[x] && d in t.kids[x] && c != d
      ensures Apart(iv, c, d)
    {
      assert Apart(iv0, c, d);
    }
  }

  // ----------------------------------------------------- labels for a new leaf

  /** Where an interval carved at `from` ends: half of what is left, within the reserve. */
  function CarveEnd(from: u64, last: u64): (end: u64)
    requires from <= last
    ensures from <= end <= last
  {
    var half := from + (last - from) / 2;
    var capped := SaturatingAdd(from, CHILD_RESERVE - 1);
    if half < capped then half else capped
  }

  /** The new leaf got the first half of what its parent had left, nothing else moved. */
  ghost predicate Carved(
      sp: BlockId, id: BlockId, iv0: map<BlockId, Interval>, nf0: map<BlockId, u64>, iv: map<BlockId, Interval>) {
    && sp in iv0 && sp in nf0 && nf0[sp] <= iv0[sp].hi
    && iv == iv0[id := Interval(nf0[sp], CarveEnd(nf0[sp], iv0[sp].hi))]
  }

  /** A relayout with the new leaf parked, seen from the intervals there were before it. */
  lemma RelaidBeforeLeaf(
      t: Tree, sp: BlockId, id: BlockId, t': Tree, iv0: map<BlockId, Interval>, at: Interval, iv: map<BlockId, Interval>)
    requires Shape(t) && LeafAdded(t, sp, id, t') && iv0.Keys == t.kids.Keys
    requires RelaidAbove(t', sp, t', iv0[id := at], iv)
    ensures RelaidAbove(t, sp, t', iv0, iv)
  {
    hide IdOrder, Shape, LeafAdded, Under, Relaid;
    LeafNodes(t, sp, id, t');
    var anchor :| Under(t', anchor, sp) && Relaid(t', anchor, iv0[id := at], iv);
    LeafIsBelow(t, sp, id, t', anchor);
    WithoutLeaf(t', anchor, id, iv0, at, iv);
  }

  lemma LeafIsBelow(t: Tree, sp: BlockId, id: BlockId, t': Tree, anchor: BlockId)
    requires Shape(t) && LeafAdded(t, sp, id, t') && Under(t', anchor, sp)
    ensures Under(t, anchor, sp) && Under(t', anchor, id) && anchor != id
  {
    LeafKeepsUnder(t, sp, id, t', anchor, sp);
    UnderLeaf(t, sp, id, t', anchor);
    UnderStaysInTree(t, anchor, sp);
  }

  lemma WithoutLeaf(
      t: Tree, anchor: BlockId, id: BlockId, iv0: map<BlockId, Interval>, at: Interval, iv: map<BlockId, Interval>)
    requires Relaid(t, anchor, iv0[id := at], iv) && Under(t, anchor, id) && anchor != id
    ensures Relaid(t, anchor, iv0, iv)
  {
    hide IdOrder, Under;
  }

  /** What gaining a leaf does to the node sets. */
  lemma LeafNodes(t: Tree, sp: BlockId, id: BlockId, t': Tree)
    requires Shape(t) && LeafAdded(t, sp, id, t')
    ensures sp in t.kids && id !in t.kids && t'.kids.Keys == t.kids.Keys + {id}
    ensures t'.root == t.root && t.root in t.kids && t'.kids[id] == []
  {
  }

  lemma LayoutFacts(t: Tree, iv: map<BlockId, Interval>, nf: map<BlockId, u64>, x: BlockId)
    requires LaidOut(t, iv, nf) && x in t.kids
    ensures t.root in iv && iv[t.root] == Interval(1, 0x7FFF_FFFF_FFFF_FFFF)
    ensures iv.Keys == t.kids.Keys && nf.Keys == t.kids.Keys
    ensures 1 <= iv[x].lo <= iv[x].hi <= ROOT_CAPACITY && iv[x].lo < nf[x] <= iv[x].hi + 1
  {
    assert LaidOutAt(t, iv, nf, x);
  }

  /** `id` gets an interval and free space, `sp` gets new free space, the rest stays. */
  ghost predicate Amended(
      sp: BlockId, id: BlockId, iv: map<BlockId, Interval>, nf: map<BlockId, u64>,
      iv': map<BlockId, Interval>, nf': map<BlockId, u64>) {
    && iv'.Keys == iv.Keys + {id} && nf'.Keys == nf.Keys + {id}
    && (forall y :: y in iv && y != id ==> iv'[y] == iv[y])
    && (forall y :: y in nf && y != id && y != sp ==> nf'[y] == nf[y])
  }

  lemma AmendedElsewhere(
      t: Tree, sp: BlockId, id: BlockId, t': Tree, iv: map<BlockId, Interval>, nf: map<BlockId, u64>,
      iv': map<BlockId, Interval>, nf': map<BlockId, u64>, x: BlockId)
    requires Shape(t) && LeafAdded(t, sp, id, t') && Amended(sp, id, iv, nf, iv', nf')
    requires x != sp && x != id && LaidOutAt(t, iv, nf, x)
    ensures LaidOutAt(t', iv', nf', x)
  {
    forall c | c in t.kids[x]
      ensures c in iv' && iv'[c] == iv[c]
    {
      assert ChildOf(t, c, x);
    }
    forall c, d | c in t'.kids[x] && d in t'.kids[x] && c != d
      ensures Apart(iv', c, d)
    {
      assert Apart(iv, c, d);
    }
  }

  lemma CarvedParent(
      t: Tree, sp: BlockId, id: BlockId, t': Tree, iv: map<BlockId, Interval>, nf: map<BlockId, u64>,
      iv': map<BlockId, Interval>, nf': map<BlockId, u64>, end: u64)
    requires Shape(t) && LeafAdded(t, sp, id, t') && Amended(sp, id, iv, nf, iv', nf') && LaidOutAt(t, iv, nf, sp)
    requires nf[sp] <= end <= iv[sp].hi && iv'[id] == Interval(nf[sp], end) && sp in nf' && nf'[sp] == end + 1
    ensures LaidOutAt(t', iv', nf', sp)
  {
    forall c | c in t.kids[sp]
      ensures c in iv' && iv'[c] == iv[c]
    {
      assert ChildOf(t, c, sp);
    }
    forall c, d | c in t'.kids[sp] && d in t'.kids[sp] && c != d
      ensures Apart(iv', c, d)
    {
      if c != id && d != id {
        assert Apart(iv, c, d);
      }
    }
  }

  /** Everywhere but at the leaf and its parent, amending keeps the layout. */
  lemma AmendedOthers(
      t: Tree, sp: BlockId, id: BlockId, t': Tree, iv: map<BlockId, Interval>, nf: map<BlockId, u64>,
      iv': map<BlockId, Interval>, nf': map<BlockId, u64>)
    requires Shape(t) && LeafAdded(t, sp, id, t') && Amended(sp, id, iv, nf, iv', nf') && LaidOut(t, iv, nf)
    ensures forall x :: x in t'.kids && x != sp && x != id ==> LaidOutAt(t', iv', nf', x)
  {
    LeafNodes(t, sp, id, t');
    hide LaidOutAt, Shape, LeafAdded, Amended;
    forall x | x in t'.kids && x != sp && x != id
      ensures LaidOutAt(t', iv', nf', x)
    {
      AmendedElsewhere(t, sp, id, t', iv, nf, iv', nf', x);
    }
  }

  /** What the layout needs besides every node being laid out. */
  lemma AmendedFrame(
      t: Tree, sp: BlockId, id: BlockId, t': Tree, iv: map<BlockId, Interval>, nf: map<BlockId, u64>,
      iv': map<BlockId, Interval>, nf': map<BlockId, u64>)
    requires Shape(t) && LeafAdded(t, sp, id, t') && Amended(sp, id, iv, nf, iv', nf') && LaidOut(t, iv, nf)
    ensures t'.root in iv' && iv'[t'.root] == Interval(1, ROOT_CAPACITY)
    ensures iv'.Keys == t'.kids.Keys && nf'.Keys == t'.kids.Keys
    ensures sp in t'.kids && sp in iv' && 1 <= iv'[sp].lo <= iv'[sp].hi <= ROOT_CAPACITY
  {
    LeafNodes(t, sp, id, t');
    LayoutFacts(t, iv, nf, sp);
  }

  lemma DepthKnown(t: Tree, x: BlockId)
    requires Shape(t) && x in t.kids
    ensures x in t.depth
  {
  }

  /** A leaf taken from the free space of its parent keeps the layout. */
  lemma CarvedLeafIsLaidOut(
      t: Tree, sp: BlockId, id: BlockId, t': Tree, iv: map<BlockId, Interval>, nf: map<BlockId, u64>,
      iv': map<BlockId, Interval>, nf': map<BlockId, u64>, end: u64)
    requires Shape(t) && LeafAdded(t, sp, id, t') && Amended(sp, id, iv, nf, iv', nf') && LaidOut(t, iv, nf)
    requires sp in nf && sp in iv && nf[sp] <= end <= iv[sp].hi <= ROOT_CAPACITY
    requires iv'[id] == Interval(nf[sp], end) && nf'[id] == nf[sp] + 1 && sp in nf' && nf'[sp] == end + 1
    ensures LaidOut(t', iv', nf')
  {
    hide LaidOutAt, Shape, LeafAdded, Amended;
    LeafNodes(t, sp, id, t');
    AmendedFrame(t, sp, id, t', iv, nf, iv', nf');
    AmendedOthers(t, sp, id, t', iv, nf, iv', nf');
    LayoutFacts(t, iv, nf, sp);
    CarvedParent(t, sp, id, t', iv, nf, iv', nf', end);
    FreshLeaf(t', id, iv', nf');
  }

  lemma FreshLeaf(t: Tree, id: BlockId, iv: map<BlockId, Interval>, nf: map<BlockId, u64>)
    requires id in t.kids && id in iv && id in nf && t.kids[id] == []
    requires 1 <= iv[id].lo <= iv[id].hi <= ROOT_CAPACITY && iv[id].lo < nf[id] <= iv[id].hi + 1
    ensures LaidOutAt(t, iv, nf, id)
  {
  }

  /** A leaf parked beyond its parent's exhausted interval disturbs only that subtree. */
  lemma ParkedLeafIsLaidOutOff(
      t: Tree, sp: BlockId, id: BlockId, t': Tree, iv: map<BlockId, Interval>, nf: map<BlockId, u64>,
      iv': map<BlockId, Interval>, nf': map<BlockId, u64>)
    requires Shape(t) && LeafAdded(t, sp, id, t') && Amended(sp, id, iv, nf, iv', nf') && LaidOut(t, iv, nf)
    ensures LaidOutOff(t', iv', nf', sp)
  {
    AmendedFrame(t, sp, id, t', iv, nf, iv', nf');
    AmendedOthers(t, sp, id, t', iv, nf, iv', nf');
    UnderLeaf(t, sp, id, t', sp);
    assert Under(t', sp, sp) && Under(t', sp, id);
    hide LaidOut, LaidOutAt, Shape, LeafAdded, Amended, Under;
  }

  class Reachability {
    var intervals: map<BlockId, Interval>
    var fcs: map<BlockId, seq<BlockId>>
    var treeChildren: map<BlockId, seq<BlockId>>
    var treeParent: map<BlockId, BlockId>
    var subtreeSize: map<BlockId, u64>
    var nextFree: map<BlockId, u64>
    ghost var root: BlockId
    ghost var depth: map<BlockId, nat>
    /** What the oracle stands for: the past of every block in it. */
    ghost var past: map<BlockId, set<BlockId>>

    ghost function TreeOf(): Tree
      reads this`root, this`treeParent, this`treeChildren, this`depth
    {
      Tree(root, treeParent, treeChildren, depth)
    }

    ghost predicate Valid()
      reads this
    {
      && Shape(TreeOf()) && Sized(TreeOf(), subtreeSize) && subtreeSize[root] as nat == |past|
      && LaidOut(TreeOf(), intervals, nextFree) && Exact(TreeOf(), fcs, past) && AllLean(TreeOf(), fcs)
    }

    /** A tree with sizes, not labelled yet. */
    constructor Seed(
        genesis: BlockId, kids: map<BlockId, seq<BlockId>>, up: map<BlockId, BlockId>, sizes: map<BlockId, u64>,
        ghost depths: map<BlockId, nat>)
      ensures TreeOf() == Tree(genesis, up, kids, depths) && root == genesis
      ensures treeParent == up && treeChildren == kids && subtreeSize == sizes
      ensures intervals == map[] && nextFree == map[] && fcs == map[]
    {
      intervals, fcs, nextFree := map[], map[], map[];
      treeChildren, treeParent, subtreeSize := kids, up, sizes;
      root, depth, past := genesis, depths, map[];
    }

    /** Lay out the whole tree under the root interval. */
    method RelayoutWhole(genesis: BlockId)
      requires genesis == root
      requires Shape(TreeOf()) && Sized(TreeOf(), subtreeSize) && intervals == map[] && nextFree == map[]
      requires root in subtreeSize && subtreeSize[root] <= ROOT_CAPACITY
      modifies this`intervals, this`nextFree
      ensures LaidOut(TreeOf(), intervals, nextFree)
    {
      hide Sized, LaidOutAt;
      ghost var t := TreeOf();
      WholeSubtree(t);
      RelayoutSubtree(genesis, 1, ROOT_CAPACITY, Subtree(t, root));
      WholeIsLaidOut(t, intervals, nextFree);
    }

    /** Adopt covering sets that make the labelled tree exact. */
    method Install(covers: map<BlockId, seq<BlockId>>, ghost pasts: map<BlockId, set<BlockId>>)
      requires Shape(TreeOf()) && Sized(TreeOf(), subtreeSize) && root in subtreeSize && subtreeSize[root] as nat == |pasts|
      requires LaidOut(TreeOf(), intervals, nextFree) && Exact(TreeOf(), covers, pasts) && AllLean(TreeOf(), covers)
      modifies this`fcs, this`past
      ensures Valid() && fcs == covers && past == pasts
    {
      hide Shape, Sized, LaidOut, Exact, AllLean;
      fcs, past := covers, pasts;
    }

    /** Slice the region of one node among its children. */
    method SliceNode(node: BlockId, at: Interval) returns (slices: seq<(BlockId, Interval)>, cursor: u64)
      requires Shape(TreeOf()) && Sized(TreeOf(), subtreeSize) && node in treeChildren
      requires 1 <= at.lo <= at.hi <= ROOT_CAPACITY && subtreeSize[node] as int <= at.Width()
      ensures Slices(treeChildren[node], subtreeSize, slices, at.lo, cursor) && |slices| == |treeChildren[node]|
      ensures subtreeSize[node] >= 1
      ensures InRow(treeChildren[node], subtreeSize, slices, at.lo, at.hi, subtreeSize[node] - 1, cursor)
      ensures at.lo < cursor <= at.hi + 1
    {
      hide FairSpan;
      SizesArePositive(TreeOf(), subtreeSize, node);
      assert SizedAt(TreeOf(), subtreeSize, node);
      var total := subtreeSize[node] - 1;
      if total == 0 {
        return [], at.lo + 1;
      }
      slices, cursor := SliceChildren(treeChildren[node], subtreeSize, total, at.lo, at.hi);
    }

    /** Lay out the subtree of `anchor` inside `[lo, hi]`, with an explicit stack. */
    method RelayoutSubtree(anchor: BlockId, lo: u64, hi: u64, ghost subtree: set<BlockId>)
      requires Shape(TreeOf()) && Sized(TreeOf(), subtreeSize) && anchor in treeChildren
      requires 1 <= lo <= hi <= ROOT_CAPACITY && subtreeSize[anchor] as int <= Interval(lo, hi).Width()
      requires forall x :: x in subtree <==> x in treeChildren && Under(TreeOf(), anchor, x)
      modifies this`intervals, this`nextFree
      ensures anchor in intervals && intervals[anchor] == Interval(lo, hi)
      ensures forall x :: x in subtree ==> LaidOutAt(TreeOf(), intervals, nextFree, x) && IdOrder(TreeOf(), intervals, x)
      ensures LabelsKept(subtree, old(intervals), old(nextFree), intervals, nextFree)
      ensures AllShared(TreeOf(), subtreeSize, intervals, nextFree, subtree)
    {
      hide Shape, Sized, Progress, LabelsKept, LaidOutAt, IdOrder, AsMap, Slices, Under, AllShared, InRow;
      ghost var t, size := TreeOf(), subtreeSize;
      ghost var plan: map<BlockId, Interval> := map[anchor := Interval(lo, hi)];
      ghost var done: set<BlockId> := {};
      var stack := [(anchor, Interval(lo, hi))];
      AnchorPlanned(t, anchor, size, intervals, nextFree, lo, hi);
      NothingRelabelled(intervals, nextFree);
      NothingShared(t, size, plan, nextFree);
      while stack != []
        invariant t == TreeOf() && size == subtreeSize
        invariant Progress(t, anchor, size, intervals, nextFree, plan, done, stack)
        invariant anchor in plan && plan[anchor] == Interval(lo, hi)
        invariant LabelsKept(done, old(intervals), old(nextFree), intervals, nextFree)
        invariant AllShared(t, size, plan, nextFree, done)
        decreases |t.kids.Keys - done|
      {
        var (node, at) := stack[|stack| - 1];
        var rest := stack[..|stack| - 1];
        assert stack == rest + [(node, at)];
        TopOfStack(t, anchor, size, intervals, nextFree, plan, done, rest, node, at);
        var slices, cursor := SliceNode(node, at);
        RelayoutStep(t, anchor, size, intervals, nextFree, plan, done, rest, node, at, slices, cursor);
        SlicesApart(t, size, node, slices, at.lo, cursor);
        SharedStep(t, size, plan, nextFree, done, node, slices, cursor);
        OneMoreRelabelled(done, old(intervals), old(nextFree), intervals, nextFree, node, at, cursor);
        intervals := intervals[node := at];
        nextFree := nextFree[node := cursor];
        stack, plan := rest + slices, plan + AsMap(slices);
        ShrinkingRest(t.kids.Keys, done, node);
        done := done + {node};
      }
      AllDone(t, anchor, size, intervals, nextFree, plan, done, subtree);
      SharedEnd(t, anchor, size, intervals, nextFree, plan, done, subtree);
    }

    /** Re-lay-out the lowest ancestor of `node` that has room to spare. */
    method Reindex(node: BlockId)
      requires Shape(TreeOf()) && Sized(TreeOf(), subtreeSize)
      requires root in subtreeSize && subtreeSize[root] <= ROOT_CAPACITY
      requires LaidOutOff(TreeOf(), intervals, nextFree, node)
      modifies this`intervals, this`nextFree
      ensures LaidOut(TreeOf(), intervals, nextFree)
      ensures RelaidAbove(TreeOf(), node, TreeOf(), old(intervals), intervals)
      ensures Reindexed(TreeOf(), subtreeSize, node, old(intervals), old(nextFree), intervals, nextFree)
    {
      hide Shape, Sized, LaidOut, LaidOutAt, LabelsKept, SameLabels, LaidOutOff, Relaid, IdOrder, Under, AllShared;
      hide NoneRoomier;
      ghost var t := TreeOf();
      var anchor := node;
      AnchorFacts(t, subtreeSize, intervals, nextFree, node, anchor);
      NoneBelow(t, subtreeSize, intervals, node);
      UnderSelf(t, node);
      while true
        invariant t == TreeOf() && intervals == old(intervals) && nextFree == old(nextFree)
        invariant Under(t, anchor, node) && anchor in treeChildren && anchor in t.depth
        invariant anchor in intervals && anchor in subtreeSize
        invariant NoneRoomier(t, subtreeSize, intervals, anchor, node)
        invariant 1 <= intervals[anchor].lo <= intervals[anchor].hi <= ROOT_CAPACITY
        decreases t.depth[anchor]
      {
        var lo, hi := intervals[anchor].lo, intervals[anchor].hi;
        var capacity := hi - lo + 1;
        var need := subtreeSize[anchor];
        if capacity >= SaturatingMul(need, 2) || anchor !in treeParent {
          RootHasRoom(t, subtreeSize, intervals, nextFree, node, anchor);
          ghost var iv0, nf0 := intervals, nextFree;
          RelayoutSubtree(anchor, lo, hi, Subtree(t, anchor));
          RelabelledIsLaidOut(t, node, anchor, iv0, nf0, intervals, nextFree);
          RelabelledIsRelaid(t, node, anchor, iv0, nf0, intervals, nextFree);
          assert ReindexedAt(t, subtreeSize, node, iv0, nf0, intervals, nextFree, anchor);
          return;
        }
        ClimbStep(t, node, anchor);
        ClimbPasses(t, subtreeSize, intervals, anchor, node);
        anchor := treeParent[anchor];
        AnchorFacts(t, subtreeSize, intervals, nextFree, node, anchor);
      }
    }

    /** Credit every ancestor-or-self of `x` with one more node. */
    method BumpAncestors(x: BlockId)
      requires Shape(TreeOf()) && ShortAt(TreeOf(), subtreeSize, x)
      requires forall y :: y in subtreeSize ==> subtreeSize[y] < ROOT_CAPACITY
      modifies this`subtreeSize
      ensures Sized(TreeOf(), subtreeSize)
      ensures root in old(subtreeSize) && root in subtreeSize && subtreeSize[root] == old(subtreeSize)[root] + 1
    {
      hide Shape, Sized, ShortAt;
      ghost var t := TreeOf();
      ShortFacts(t, subtreeSize, x);
      var cur := x;
      while true
        invariant t == TreeOf() && cur in t.depth && root in subtreeSize && subtreeSize.Keys == old(subtreeSize).Keys
        invariant ShortAt(t, subtreeSize, cur)
        invariant forall y :: y in subtreeSize && y in t.depth && t.depth[y] <= t.depth[cur] ==>
          subtreeSize[y] == old(subtreeSize)[y]
        decreases t.depth[cur]
      {
        ShortFacts(t, subtreeSize, cur);
        CreditMovesUp(t, subtreeSize, cur, subtreeSize[cur := subtreeSize[cur] + 1]);
        subtreeSize := subtreeSize[cur := subtreeSize[cur] + 1];
        if cur !in treeParent {
          return;
        }
        ParentAbove(t, cur);
        cur := treeParent[cur];
      }
    }

    /** Hang `id` under `sp` in the tree. */
    method RegisterLeaf(id: BlockId, sp: BlockId)
      requires Shape(TreeOf()) && Sized(TreeOf(), subtreeSize) && subtreeSize[root] < ROOT_CAPACITY
      requires sp in treeChildren && id !in treeChildren
      modifies this`treeChildren, this`treeParent, this`subtreeSize, this`depth
      ensures Shape(TreeOf()) && Sized(TreeOf(), subtreeSize) && LeafAdded(old(TreeOf()), sp, id, TreeOf())
      ensures root in old(subtreeSize) && root in subtreeSize && subtreeSize[root] == old(subtreeSize)[root] + 1
      ensures treeParent == old(treeParent)[id := sp]
    {
      hide Shape, Sized, ShortAt, LeafAdded, Splits, Ascending;
      ghost var t, size := TreeOf(), subtreeSize;
      SizesBelowRoot(t, size);
      DepthKnown(t, sp);
      var children := treeChildren[sp];
      var pos := PartitionById(children, id);
      var children' := children[..pos] + [id] + children[pos..];
      InsertedChild(t, sp, id, pos, children');
      treeChildren := treeChildren[sp := children'][id := []];
      treeParent := treeParent[id := sp];
      depth := depth[id := depth[sp] + 1];
      LeafIsAdded(t, sp, id, children', TreeOf());
      LeafLeavesParentShort(t, sp, id, TreeOf(), size, pos);
      LeafKeepsShape(t, sp, id, TreeOf());
      subtreeSize := subtreeSize[id := 1];
      BumpAncestors(sp);
    }

    /** Give the new leaf an interval: half of its parent's free space, capped, or,
        when there is none, a place found by reindexing. */
    method AllocateInterval(id: BlockId, sp: BlockId, ghost t: Tree)
      requires Shape(t) && LaidOut(t, intervals, nextFree) && LeafAdded(t, sp, id, TreeOf())
      requires Shape(TreeOf()) && Sized(TreeOf(), subtreeSize)
      requires root in subtreeSize && subtreeSize[root] <= ROOT_CAPACITY
      modifies this`intervals, this`nextFree
      ensures LaidOut(TreeOf(), intervals, nextFree)
      ensures Carved(sp, id, old(intervals), old(nextFree), intervals) ||
        RelaidAbove(t, sp, TreeOf(), old(intervals), intervals)
      ensures Allocated(TreeOf(), subtreeSize, sp, id, old(intervals), old(nextFree), intervals, nextFree)
    {
      hide Shape, Sized, LaidOut, LaidOutAt, LeafAdded, LaidOutOff, Relaid, RelaidAbove, Halved, Reindexed;
      LeafNodes(t, sp, id, TreeOf());
      LayoutFacts(t, intervals, nextFree, sp);
      ghost var iv, nf := intervals, nextFree;
      var pEnd := intervals[sp].hi;
      var remLo := nextFree[sp];
      if remLo <= pEnd {
        var end := CarveEnd(remLo, pEnd);
        intervals := intervals[id := Interval(remLo, end)];
        nextFree := nextFree[id := remLo + 1];
        nextFree := nextFree[sp := end + 1];
        CarvedIsHalved(sp, id, iv, nf, end);
        CarvedLeafIsLaidOut(t, sp, id, TreeOf(), iv, nf, intervals, nextFree, end);
      } else {
        intervals := intervals[id := Interval(remLo, remLo)];
        nextFree := nextFree[id := remLo];
        ParkedLeafIsLaidOutOff(t, sp, id, TreeOf(), iv, nf, intervals, nextFree);
        Reindex(sp);
        RelaidBeforeLeaf(t, sp, id, TreeOf(), iv, Interval(remLo, remLo), intervals);
      }
    }

    /** Make the cover of `a` reach the subtree of `b` as well, and nothing more. */
    method InsertToFutureCoveringSet(a: BlockId, b: BlockId)
      requires Shape(TreeOf()) && LaidOut(TreeOf(), intervals, nextFree) && b in treeChildren
      requires forall c :: c in CoversOf(fcs, a) ==> c in treeChildren
      modifies this`fcs
      ensures fcs == old(fcs)[a := CoversOf(fcs, a)]
      ensures forall c :: c in CoversOf(fcs, a) ==> c == b || c in CoversOf(old(fcs), a)
      ensures forall d :: Covered(TreeOf(), CoversOf(fcs, a), d) <==>
        Covered(TreeOf(), CoversOf(old(fcs), a), d) || Under(TreeOf(), b, d)
      ensures InOrder(CoversOf(old(fcs), a), intervals) ==> InOrder(CoversOf(fcs, a), intervals)
    {
      hide Shape, LaidOut, Under, Covered, InOrder, StartsSplit, PlaceFor, DropsOnly;
      ghost var t, nf := TreeOf(), nextFree;
      var iv := intervals;
      InTreeIsLabelled(t, iv, nf);
      var at := iv[b];
      var set0 := if a in fcs then fcs[a] else [];
      fcs := fcs[a := set0];
      var covers := set0;
      var pos := PartitionByStart(covers, iv, at.lo);
      if pos > 0 {
        var before := iv[covers[pos - 1]];
        if before.lo <= at.lo && at.hi <= before.hi {
          ContainedIsUnder(t, iv, nf, covers[pos - 1], b);
          AlreadyCovered(t, covers, covers[pos - 1], b);
          return;
        }
      }
      PlaceFound(t, iv, nf, covers, pos, b);
      NothingDropped(t, set0, b);
      while pos < |covers|
        invariant fcs == old(fcs)[a := set0] && pos <= |covers| && DropsOnly(t, set0, covers, b)
        invariant forall c :: c in covers ==> c in t.kids && c in iv
        invariant InOrder(set0, iv) ==> PlaceFor(covers, iv, pos, b)
        decreases |covers|
      {
        var next := iv[covers[pos]];
        if !(at.lo <= next.lo && next.hi <= at.hi) {
          break;
        }
        DropStep(t, iv, nf, set0, covers, pos, b);
        covers := covers[..pos] + covers[pos + 1..];
      }
      InsertStep(t, iv, nf, set0, covers, pos, b);
      covers := covers[..pos] + [b] + covers[pos..];
      fcs := fcs[a := covers];
      assert fcs == old(fcs)[a := covers];
    }

    /** Add `id` to the cover of every merged block. */
    method CoverMerged(id: BlockId, mergeset: seq<BlockId>)
      requires Shape(TreeOf()) && LaidOut(TreeOf(), intervals, nextFree) && id in treeChildren
      requires forall a, c :: a in fcs && c in fcs[a] ==> c in treeChildren
      modifies this`fcs
      ensures CoversGrown(TreeOf(), old(fcs), fcs, SetOf(mergeset), id)
    {
      hide Shape, LaidOut, Under, Covered, CoversGrown;
      ghost var t, merged: set<BlockId> := TreeOf(), {};
      NoCoverGrown(t, fcs, id);
      for i := 0 to |mergeset|
        invariant t == TreeOf() && merged == SetOf(mergeset[..i]) && CoversGrown(t, old(fcs), fcs, merged, id)
      {
        ghost var before := fcs;
        GrownCoversKnown(t, old(fcs), fcs, merged, id, mergeset[i]);
        InsertToFutureCoveringSet(mergeset[i], id);
        assert t == TreeOf();
        assert mergeset[..i + 1] == mergeset[..i] + [mergeset[i]];
        CoverOneMore(t, old(fcs), before, fcs, merged, mergeset[i], SetOf(mergeset[..i + 1]), id);
        merged := SetOf(mergeset[..i + 1]);
      }
      assert mergeset[..|mergeset|] == mergeset;
    }

    /** Fold a new block in: hang it under its selected parent, give it an interval,
        and add it to the cover of every block it merges. */
    method AddBlock(id: BlockId, selectedParent: BlockId, mergeset: seq<BlockId>)
      requires Valid() && id !in past && selectedParent in past && |past| < ROOT_CAPACITY as nat
      requires forall m :: m in mergeset ==> m in past && m !in past[selectedParent] && m != selectedParent
      modifies this
      ensures Valid() && treeParent == old(treeParent)[id := selectedParent] && root == old(root)
      ensures past == old(past)[id := old(past)[selectedParent] + {selectedParent} + SetOf(mergeset)]
      ensures Allocated(TreeOf(), subtreeSize, selectedParent, id, old(intervals), old(nextFree), intervals, nextFree)
    {
      hide Allocated, Shape, Sized, LaidOut, LeafAdded, Exact, Under, Covered, AllLean, CoversGrown;
      ExactDomain(TreeOf(), fcs, past);
      ghost var t, fcs0 := TreeOf(), fcs;
      RegisterLeaf(id, selectedParent);
      LeafNodes(t, selectedParent, id, TreeOf());
      AllocateInterval(id, selectedParent, t);
      CoverMerged(id, mergeset);
      LeafKeepsOracle(t, selectedParent, id, TreeOf(), fcs0, fcs, past, SetOf(mergeset));
      past := past[id := past[selectedParent] + {selectedParent} + SetOf(mergeset)];
    }

    predicate TreeReaches(x: BlockId, y: BlockId)
      reads this`intervals
    {
      Contains(intervals, x, y)
    }

    /** The query: a label test, then one label test per future-covering block. */
    predicate IsAncestor(ancestor: BlockId, descendant: BlockId)
      reads this`intervals, this`fcs
    {
      if ancestor == descendant then false
      else if TreeReaches(ancestor, descendant) then true
      else ancestor in fcs && exists c :: c in fcs[ancestor] && TreeReaches(c, descendant)
    }

    /** The oracle is exact: it answers yes precisely for the blocks in the past. */
    lemma IsAncestorExact(a: BlockId, d: BlockId)
      requires Valid()
      ensures IsAncestor(a, d) <==> d in past && a in past[d]
    {
      hide Shape, LaidOut, Under;
      var t := TreeOf();
      InTreeIsLabelled(t, intervals, nextFree);
      if a in t.kids && d in t.kids {
        LabelsDecideSubtree(t, intervals, nextFree, a, d);
        forall c | c in CoversOf(fcs, a)
          ensures TreeReaches(c, d) <==> Under(t, c, d)
        {
          LabelsDecideSubtree(t, intervals, nextFree, c, d);
        }
        assert a in past[d] <==> Reached(t, fcs, a, d);
      }
    }
  }

  lemma InTreeIsLabelled(t: Tree, iv: map<BlockId, Interval>, nf: map<BlockId, u64>)
    requires LaidOut(t, iv, nf)
    ensures iv.Keys == t.kids.Keys
  {
  }

  lemma ContainedIsUnder(t: Tree, iv: map<BlockId, Interval>, nf: map<BlockId, u64>, x: BlockId, y: BlockId)
    requires Shape(t) && LaidOut(t, iv, nf) && x in t.kids && y in t.kids
    requires iv[x].lo <= iv[y].lo && iv[y].hi <= iv[x].hi
    ensures Under(t, x, y)
  {
    assert LaidOutAt(t, iv, nf, y);
    LabelsDecideSubtree(t, iv, nf, x, y);
  }

  lemma WholeSubtree(t: Tree)
    requires Shape(t)
    ensures Subtree(t, t.root) == t.kids.Keys && t.root in t.kids
  {
    forall y | y in t.kids
      ensures y in Subtree(t, t.root)
    {
      EverythingUnderRoot(t, y);
    }
  }

  lemma WholeIsLaidOut(t: Tree, iv: map<BlockId, Interval>, nf: map<BlockId, u64>)
    requires t.root in iv && iv[t.root] == Interval(1, ROOT_CAPACITY)
    requires forall x :: x in t.kids ==> LaidOutAt(t, iv, nf, x)
    requires LabelsKept(t.kids.Keys, map[], map[], iv, nf)
    ensures LaidOut(t, iv, nf)
  {
    forall x
      ensures x in iv <==> x in t.kids
      ensures x in nf <==> x in t.kids
    {
      if x in t.kids {
        assert LaidOutAt(t, iv, nf, x);
      } else {
        assert SameLabels(map[], map[], iv, nf, x);
      }
    }
  }

  lemma ExactDomain(t: Tree, fcs: map<BlockId, seq<BlockId>>, past: map<BlockId, set<BlockId>>)
    requires Exact(t, fcs, past)
    ensures past.Keys == t.kids.Keys && fcs.Keys <= t.kids.Keys
    ensures forall a, c :: a in fcs && c in fcs[a] ==> c in t.kids
  {
  }

  /** Adding `id` to the covers of the merged blocks. */
  ghost predicate CoversGrown(
      t: Tree, fcs: map<BlockId, seq<BlockId>>, fcs': map<BlockId, seq<BlockId>>, merged: set<BlockId>, id: BlockId) {
    && fcs'.Keys == fcs.Keys + merged
    && (forall a, c :: a in fcs' && c in fcs'[a] ==> c in t.kids)
    && (forall a, d :: CoverStep(t, fcs, fcs', merged, id, a, d))
    && (forall a :: GainsOnly(CoversOf(fcs, a), CoversOf(fcs', a), id, a in merged))
  }

  lemma LeafKeepsOracle(
      t: Tree, sp: BlockId, id: BlockId, t': Tree, fcs: map<BlockId, seq<BlockId>>, fcs': map<BlockId, seq<BlockId>>,
      past: map<BlockId, set<BlockId>>, merged: set<BlockId>)
    requires Shape(t) && LeafAdded(t, sp, id, t') && Exact(t, fcs, past) && AllLean(t, fcs)
    requires merged <= t.kids.Keys && merged !! past[sp] + {sp} && CoversGrown(t', fcs, fcs', merged, id)
    ensures Exact(t', fcs', past[id := past[sp] + {sp} + merged]) && AllLean(t', fcs')
  {
    ExactDomain(t, fcs, past);
    LeafNodes(t, sp, id, t');
    hide Shape, LeafAdded, Exact, AllLean, Under, Covered, CoverStep, GainsOnly;
    LeafKeepsExact(t, sp, id, t', fcs, fcs', past, merged);
    LeafKeepsLean(t, sp, id, t', fcs, fcs', past, merged);
  }

  lemma NoCoverGrown(t: Tree, fcs: map<BlockId, seq<BlockId>>, id: BlockId)
    requires forall a, c :: a in fcs && c in fcs[a] ==> c in t.kids
    ensures CoversGrown(t, fcs, fcs, {}, id)
  {
    hide Covered;
  }

  lemma GrownCoversKnown(
      t: Tree, fcs: map<BlockId, seq<BlockId>>, fcs': map<BlockId, seq<BlockId>>, merged: set<BlockId>, id: BlockId,
      a: BlockId)
    requires CoversGrown(t, fcs, fcs', merged, id)
    ensures forall c :: c in CoversOf(fcs', a) ==> c in t.kids
  {
  }

  lemma CoverOneMore(
      t: Tree, fcs0: map<BlockId, seq<BlockId>>, fcs1: map<BlockId, seq<BlockId>>, fcs2: map<BlockId, seq<BlockId>>,
      merged: set<BlockId>, m: BlockId, merged': set<BlockId>, id: BlockId)
    requires CoversGrown(t, fcs0, fcs1, merged, id) && id in t.kids
    requires fcs2 == fcs1[m := CoversOf(fcs2, m)] && merged' == merged + {m}
    requires forall c :: c in CoversOf(fcs2, m) ==> c == id || c in CoversOf(fcs1, m)
    requires forall d :: Covered(t, CoversOf(fcs2, m), d) <==> Covered(t, CoversOf(fcs1, m), d) || Under(t, id, d)
    ensures CoversGrown(t, fcs0, fcs2, merged', id)
  {
    hide Covered, Under;
    forall a, c | a in fcs2 && c in fcs2[a]
      ensures c in t.kids
    {
      assert c in CoversOf(fcs2, a) && (c == id || (a in fcs1 && c in fcs1[a]));
    }
    forall a, d
      ensures CoverStep(t, fcs0, fcs2, merged', id, a, d)
    {
      assert CoverStep(t, fcs0, fcs1, merged, id, a, d);
    }
    forall a
      ensures GainsOnly(CoversOf(fcs0, a), CoversOf(fcs2, a), id, a in merged')
    {
      assert GainsOnly(CoversOf(fcs0, a), CoversOf(fcs1, a), id, a in merged);
    }
  }

  lemma AnchorFacts(
      t: Tree, size: map<BlockId, u64>, iv: map<BlockId, Interval>, nf: map<BlockId, u64>, node: BlockId, anchor: BlockId)
    requires Shape(t) && Sized(t, size) && LaidOutOff(t, iv, nf, node) && Under(t, anchor, node)
    ensures anchor in t.kids && anchor in iv && anchor in size && anchor in t.depth
    ensures 1 <= iv[anchor].lo <= iv[anchor].hi <= ROOT_CAPACITY
  {
    UnderStaysInTree(t, anchor, node);
    if anchor != node {
      if Under(t, node, anchor) {
        UnderStaysInTree(t, node, anchor);
      }
      assert LaidOutAt(t, iv, nf, anchor);
    }
  }

  lemma RootHasRoom(
      t: Tree, size: map<BlockId, u64>, iv: map<BlockId, Interval>, nf: map<BlockId, u64>, node: BlockId, anchor: BlockId)
    requires Shape(t) && LaidOutOff(t, iv, nf, node) && anchor in t.kids && t.root in size
    ensures anchor !in t.up ==> anchor == t.root && iv[anchor] == Interval(1, ROOT_CAPACITY)
  {
  }

  /** Twice the blocks of the subtree would fit. */
  ghost predicate Roomy(size: map<BlockId, u64>, iv: map<BlockId, Interval>, x: BlockId) {
    x in size && x in iv && 2 * size[x] as int <= iv[x].Width()
  }

  /** No block below `anchor`, on the way down to `node`, has that much room. */
  ghost predicate NoneRoomier(
      t: Tree, size: map<BlockId, u64>, iv: map<BlockId, Interval>, anchor: BlockId, node: BlockId) {
    forall y :: Under(t, anchor, y) && Under(t, y, node) && y != anchor ==> !Roomy(size, iv, y)
  }

  /** The lowest block from `node` upwards that has room, or the root, keeps its interval;
      its subtree shares it anew; every other label stays. */
  ghost predicate ReindexedAt(
      t: Tree, size: map<BlockId, u64>, node: BlockId, iv0: map<BlockId, Interval>, nf0: map<BlockId, u64>,
      iv: map<BlockId, Interval>, nf: map<BlockId, u64>, anchor: BlockId) {
    && Under(t, anchor, node) && (anchor == t.root || Roomy(size, iv0, anchor)) && NoneRoomier(t, size, iv0, anchor, node)
    && anchor in iv0 && anchor in iv && iv[anchor] == iv0[anchor]
    && AllShared(t, size, iv, nf, Subtree(t, anchor)) && LabelsKept(Subtree(t, anchor), iv0, nf0, iv, nf)
  }

  ghost predicate Reindexed(
      t: Tree, size: map<BlockId, u64>, node: BlockId, iv0: map<BlockId, Interval>, nf0: map<BlockId, u64>,
      iv: map<BlockId, Interval>, nf: map<BlockId, u64>) {
    exists anchor :: ReindexedAt(t, size, node, iv0, nf0, iv, nf, anchor)
  }

  /** The new leaf takes the first half of what its parent has left, the middle included, at
      most the reserve; nothing else moves. */
  ghost predicate Halved(
      sp: BlockId, id: BlockId, iv0: map<BlockId, Interval>, nf0: map<BlockId, u64>, iv: map<BlockId, Interval>,
      nf: map<BlockId, u64>)
    requires sp in iv0 && sp in nf0
  {
    var from, free := nf0[sp], iv0[sp].hi as int - nf0[sp] as int + 1;
    exists end: u64 ::
      && iv == iv0[id := Interval(from, end)] && from < U64_MAX && end < U64_MAX
      && nf == nf0[id := from + 1][sp := end + 1]
      && Interval(from, end).Width() ==
        if (free + 1) / 2 < 0x100_0000_0000 then (free + 1) / 2 else 0x100_0000_0000
  }

  /** A label of its own while the parent has any left, else one found by reindexing, the leaf
      standing just past its parent until then. */
  ghost predicate Allocated(
      t: Tree, size: map<BlockId, u64>, sp: BlockId, id: BlockId, iv0: map<BlockId, Interval>, nf0: map<BlockId, u64>,
      iv: map<BlockId, Interval>, nf: map<BlockId, u64>) {
    && sp in iv0 && sp in nf0
    && if nf0[sp] <= iv0[sp].hi then Halved(sp, id, iv0, nf0, iv, nf)
       else Reindexed(t, size, sp, iv0[id := Interval(nf0[sp], nf0[sp])], nf0[id := nf0[sp]], iv, nf)
  }

  lemma CarvedIsHalved(
      sp: BlockId, id: BlockId, iv0: map<BlockId, Interval>, nf0: map<BlockId, u64>, end: u64)
    requires sp in iv0 && sp in nf0 && nf0[sp] <= iv0[sp].hi < U64_MAX && end == CarveEnd(nf0[sp], iv0[sp].hi)
    ensures Halved(sp, id, iv0, nf0, iv0[id := Interval(nf0[sp], end)], nf0[id := nf0[sp] + 1][sp := end + 1])
  {
  }

  lemma NothingShared(t: Tree, size: map<BlockId, u64>, plan: map<BlockId, Interval>, nf: map<BlockId, u64>)
    ensures AllShared(t, size, plan, nf, {})
  {
  }

  lemma SlicesApart(
      t: Tree, size: map<BlockId, u64>, x: BlockId, slices: seq<(BlockId, Interval)>, lo: u64, cursor: u64)
    requires Shape(t) && x in t.kids && Slices(t.kids[x], size, slices, lo, cursor)
    ensures forall i, j :: 0 <= i < j < |slices| ==> slices[i].0 != slices[j].0
  {
    SlicesDistinct(t.kids[x], size, slices, lo, cursor);
  }

  lemma UnderSelf(t: Tree, x: BlockId)
    ensures Under(t, x, x)
  {
  }

  lemma NoneBelow(t: Tree, size: map<BlockId, u64>, iv: map<BlockId, Interval>, node: BlockId)
    requires Shape(t) && node in t.kids
    ensures NoneRoomier(t, size, iv, node, node)
  {
    forall y | Under(t, node, y) && Under(t, y, node)
      ensures y == node
    {
      SameWhenBothUnder(t, node, y);
    }
  }

  lemma SameWhenBothUnder(t: Tree, x: BlockId, y: BlockId)
    requires Shape(t) && x in t.kids && Under(t, x, y) && Under(t, y, x)
    ensures y == x
  {
    UnderStaysInTree(t, y, x);
    UnderStaysInTree(t, x, y);
  }

  lemma ClimbPasses(t: Tree, size: map<BlockId, u64>, iv: map<BlockId, Interval>, anchor: BlockId, node: BlockId)
    requires Shape(t) && node in t.kids && anchor in t.up && Under(t, anchor, node)
    requires NoneRoomier(t, size, iv, anchor, node) && !Roomy(size, iv, anchor)
    ensures NoneRoomier(t, size, iv, t.up[anchor], node)
  {
    hide Roomy;
    forall y | Under(t, t.up[anchor], y) && Under(t, y, node) && y != t.up[anchor]
      ensures !Roomy(size, iv, y)
    {
      OneLineAbove(t, anchor, y, node);
      if !Under(t, anchor, y) {
        SameWhenBothUnder(t, t.up[anchor], y);
      }
    }
  }

  lemma ClimbStep(t: Tree, node: BlockId, anchor: BlockId)
    requires Shape(t) && Under(t, anchor, node) && anchor in t.up
    ensures t.up[anchor] in t.depth && anchor in t.depth && t.depth[t.up[anchor]] < t.depth[anchor]
    ensures Under(t, t.up[anchor], node)
  {
    assert Under(t, t.up[anchor], anchor);
    UnderTransitive(t, t.up[anchor], anchor, node);
  }

  lemma ShortFacts(t: Tree, size: map<BlockId, u64>, x: BlockId)
    requires Shape(t) && ShortAt(t, size, x)
    ensures x in t.kids && x in t.depth && x in size && t.root in size && size.Keys == t.kids.Keys
    ensures x !in t.up ==> x == t.root
    ensures x in t.up ==> x != t.root
  {
  }

  lemma ParentAbove(t: Tree, x: BlockId)
    requires Shape(t) && x in t.up
    ensures t.up[x] in t.depth && x in t.depth && t.depth[t.up[x]] < t.depth[x]
  {
  }

  lemma SizesBelowRoot(t: Tree, size: map<BlockId, u64>)
    requires Shape(t) && Sized(t, size)
    ensures t.root in size
    ensures forall x :: x in size ==> size[x] <= size[t.root]
  {
    forall x | x in size
      ensures size[x] <= size[t.root]
    {
      SizeBelowRoot(t, size, x);
    }
  }

  lemma InsertedChild(t: Tree, sp: BlockId, id: BlockId, pos: nat, children: seq<BlockId>)
    requires Shape(t) && sp in t.kids && id !in t.kids && pos <= |t.kids[sp]|
    requires Ascending(t.kids[sp]) ==> Splits(t.kids[sp], pos, id)
    requires children == t.kids[sp][..pos] + [id] + t.kids[sp][pos..]
    ensures Ascending(children) && forall c :: c in children <==> c == id || c in t.kids[sp]
  {
    assert forall c :: c in t.kids[sp] ==> ChildOf(t, c, sp);
    assert id !in t.kids[sp] && Ascending(t.kids[sp]);
    hide Shape, ChildOf, Ascending, Splits;
    InsertAscending(t.kids[sp], pos, id, children);
    InsertMembers(t.kids[sp], pos, id, children);
  }

  lemma InsertAscending(s: seq<BlockId>, pos: nat, id: BlockId, s': seq<BlockId>)
    requires Ascending(s) && pos <= |s| && id !in s && Splits(s, pos, id)
    requires s' == s[..pos] + [id] + s[pos..]
    ensures Ascending(s')
  {
    forall i, j | 0 <= i < j < |s'|
      ensures s'[i] < s'[j]
    {
      assert i != pos ==> s'[i] == s[if i < pos then i else i - 1];
      assert j != pos ==> s'[j] == s[if j < pos then j else j - 1];
    }
  }

  lemma LeafIsAdded(t: Tree, sp: BlockId, id: BlockId, children: seq<BlockId>, t': Tree)
    requires Shape(t) && sp in t.kids && id !in t.kids && sp in t.depth
    requires Ascending(children) && forall c :: c in children <==> c == id || c in t.kids[sp]
    requires t' == Tree(t.root, t.up[id := sp], t.kids[sp := children][id := []], t.depth[id := t.depth[sp] + 1])
    ensures LeafAdded(t, sp, id, t')
  {
  }
}
