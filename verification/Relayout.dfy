/** Re-laying-out a subtree: proportional capped slices that always fit, and the
    bookkeeping of the explicit-stack traversal. */
module Relayout {
  import opened BlockGraph
  import opened IntervalTree
  import opened SortedIds
  import opened Words

  /** Shares of the slack, each rounded down, never exceed the slack together. */
  lemma ShareFits(used: nat, extra: nat, given: nat, sz: nat, slack: nat, total: nat)
    requires used * total <= slack * given && extra * total <= slack * sz
    requires 0 < total && given + sz <= total
    ensures (used + extra) * total <= slack * (given + sz)
    ensures used + extra <= slack
  {
    assert (used + extra) * total <= slack * (given + sz);
    assert slack * (given + sz) <= slack * total;
    CancelFactor(used + extra, slack, total);
  }

  lemma {:induction false} CancelFactor(a: nat, b: nat, m: nat)
    requires 0 < m && a * m <= b * m
    ensures a <= b
  {
  }

  lemma SumNext(size: map<BlockId, u64>, s: seq<BlockId>, i: nat)
    requires i < |s| && s[i] in size
    ensures SumSizes(size, s[..i + 1]) == SumSizes(size, s[..i]) + size[s[i]] as nat <= SumSizes(size, s)
  {
    assert s[..i + 1] == s[..i] + [s[i]];
    SumSplit(size, s[..i], [s[i]]);
    assert SumSizes(size, [s[i]]) == size[s[i]] as nat;
    assert s == s[..i + 1] + s[i + 1..];
    SumSplit(size, s[..i + 1], s[i + 1..]);
  }

  lemma ProductBelow(a: nat, b: nat, c: nat, d: nat)
    requires a <= c && b <= d
    ensures a * b <= c * d
  {
    assert a * b <= c * b <= c * d;
  }

  lemma QuotientBelow(n: nat, m: nat, q: nat)
    requires 0 < m && n <= q * m
    ensures n / m <= q && n / m * m <= n
  {
    CancelFactor(n / m, q, m);
  }

  lemma ShareBounds(slack: nat, sz: nat, total: nat)
    requires slack <= U64_MAX as nat && sz <= U64_MAX as nat && 0 < total && sz <= total
    ensures slack * sz < 0x1_0000_0000_0000_0000_0000_0000_0000_0000
    ensures slack * sz / total <= slack && slack * sz / total * total <= slack * sz
  {
    ProductBelow(slack, sz, U64_MAX as nat, U64_MAX as nat);
    ProductBelow(slack, sz, slack, total);
    QuotientBelow(slack * sz, total, slack);
  }

  /** The child's subtree and its share of the slack, in proportion and rounded down; at most
      the reserve, unless the subtree alone is more. */
  ghost function FairSpan(sz: int, slack: int, total: int): int {
    var wide := if total == 0 then sz else sz + slack * sz / total;
    var cap := if 0x100_0000_0000 < sz then sz else 0x100_0000_0000;
    if wide < cap then wide else cap
  }

  /** A child's slice: its subtree plus its proportional share of the slack (by
      128-bit arithmetic), capped. */
  method SpanOf(sz: u64, slack: u64, total: u64) returns (span: u64, ghost extra: nat)
    requires 1 <= sz <= total <= ROOT_CAPACITY && slack <= ROOT_CAPACITY
    ensures span as int == FairSpan(sz as int, slack as int, total as int)
    ensures sz <= span && span as nat <= sz as nat + extra
    ensures extra * total as nat <= slack as nat * sz as nat && extra <= slack as nat
  {
    ShareBounds(slack as nat, sz as nat, total as nat);
    var share := (slack as u128 * sz as u128 / total as u128) as u64;
    extra := share as nat;
    var cap := if CHILD_RESERVE < sz then sz else CHILD_RESERVE;
    span := if sz + share < cap then sz + share else cap;
  }

  /** One slice per child, in order: above `lo`, below `cursor`, one after the
      other, each at least the child's subtree size. */
  ghost predicate Slices(
      kids: seq<BlockId>, size: map<BlockId, u64>, slices: seq<(BlockId, Interval)>, lo: u64, cursor: u64) {
    && |slices| <= |kids|
    && (forall i :: 0 <= i < |slices| ==> slices[i].0 == kids[i] && SliceFits(size, slices[i], lo, cursor))
    && (forall i, j :: 0 <= i < j < |slices| ==> slices[i].1.hi < slices[j].1.lo)
  }

  ghost predicate SliceFits(size: map<BlockId, u64>, slice: (BlockId, Interval), lo: u64, cursor: u64) {
    && slice.0 in size && lo < slice.1.lo <= slice.1.hi < cursor
    && size[slice.0] as int <= slice.1.Width()
  }

  /** Where slice `i` starts: after the one before it. */
  ghost function StartOf(slices: seq<(BlockId, Interval)>, lo: u64, i: nat): int
    requires i <= |slices|
  {
    if i == 0 then lo as int + 1 else slices[i - 1].1.hi as int + 1
  }

  ghost predicate SliceIs(
      kids: seq<BlockId>, size: map<BlockId, u64>, slices: seq<(BlockId, Interval)>, lo: u64, hi: u64, total: u64, i: nat)
    requires i < |slices| && i < |kids|
  {
    && slices[i].0 == kids[i] && kids[i] in size && slices[i].1.lo as int == StartOf(slices, lo, i)
    && slices[i].1.Width() ==
      FairSpan(size[kids[i]] as int, hi as int - lo as int - total as int, total as int)
  }

  /** The slices follow each other without a gap, each of its fair span. */
  ghost predicate InRow(
      kids: seq<BlockId>, size: map<BlockId, u64>, slices: seq<(BlockId, Interval)>, lo: u64, hi: u64, total: u64,
      cursor: u64) {
    && |slices| <= |kids| && (forall i :: 0 <= i < |slices| ==> SliceIs(kids, size, slices, lo, hi, total, i))
    && cursor as int == StartOf(slices, lo, |slices|)
  }

  lemma NothingInRow(kids: seq<BlockId>, size: map<BlockId, u64>, lo: u64, hi: u64, total: u64)
    requires lo < U64_MAX
    ensures InRow(kids, size, [], lo, hi, total, lo + 1)
  {
  }

  lemma NextInRow(
      kids: seq<BlockId>, size: map<BlockId, u64>, slices: seq<(BlockId, Interval)>, lo: u64, hi: u64, total: u64,
      slice: Interval, cursor: u64)
    requires |slices| < |kids| && InRow(kids, size, slices, lo, hi, total, slice.lo) && kids[|slices|] in size
    requires slice.Width() ==
      FairSpan(size[kids[|slices|]] as int, hi as int - lo as int - total as int, total as int)
    requires cursor as int == slice.hi as int + 1
    ensures InRow(kids, size, slices + [(kids[|slices|], slice)], lo, hi, total, cursor)
  {
    hide FairSpan;
    var slices' := slices + [(kids[|slices|], slice)];
    forall i | 0 <= i < |slices|
      ensures SliceIs(kids, size, slices', lo, hi, total, i)
    {
      assert SliceIs(kids, size, slices, lo, hi, total, i);
    }
  }

  /** Cut `[lo + 1, hi]` into slices; `cursor` is where the free space starts. */
  method SliceChildren(children: seq<BlockId>, size: map<BlockId, u64>, total: u64, lo: u64, hi: u64)
    returns (slices: seq<(BlockId, Interval)>, cursor: u64)
    requires forall c :: c in children ==> c in size && 1 <= size[c]
    requires SumSizes(size, children) == total as nat && 0 < total
    requires hi <= ROOT_CAPACITY && total <= hi && lo <= hi - total
    ensures Slices(children, size, slices, lo, cursor) && |slices| == |children|
    ensures InRow(children, size, slices, lo, hi, total, cursor)
    ensures lo < cursor <= hi + 1
  {
    hide FairSpan, InRow;
    NothingInRow(children, size, lo, hi, total);
    var region := hi - lo;
    var slack := region - total;
    slices, cursor := [], lo + 1;
    ghost var given: int, used: int := 0, 0;
    for i := 0 to |children|
      invariant |slices| == i && given == SumSizes(size, children[..i]) <= total as nat
      invariant 0 <= used <= slack as nat && used * total as nat <= slack as nat * given
      invariant lo < cursor && cursor as nat <= lo as nat + 1 + given + used
      invariant Slices(children, size, slices, lo, cursor) && InRow(children, size, slices, lo, hi, total, cursor)
    {
      var child := children[i];
      assert child in children;
      SumNext(size, children, i);
      var span, extra := SpanOf(size[child], slack, total);
      ShareFits(used, extra, given, size[child] as nat, slack as nat, total as nat);
      var slice := Interval(cursor, cursor + (span - 1));
      cursor := cursor + (span - 1) + 1;
      given, used := given + size[child] as nat, used + extra;
      NextSlice(children, size, slices, lo, cursor, slice);
      NextInRow(children, size, slices, lo, hi, total, slice, cursor);
      slices := slices + [(child, slice)];
    }
  }

  lemma NextSlice(
      kids: seq<BlockId>, size: map<BlockId, u64>, slices: seq<(BlockId, Interval)>, lo: u64, cursor: u64,
      slice: Interval)
    requires |slices| < |kids| && lo < slice.lo <= slice.hi && slice.hi < U64_MAX && cursor == slice.hi + 1
    requires Slices(kids, size, slices, lo, slice.lo)
    requires kids[|slices|] in size && size[kids[|slices|]] as int <= slice.Width()
    ensures Slices(kids, size, slices + [(kids[|slices|], slice)], lo, cursor)
  {
    forall i | 0 <= i < |slices|
      ensures SliceFits(size, slices[i], lo, cursor)
    {
      assert SliceFits(size, slices[i], lo, slice.lo);
    }
  }

  /** Where a relayout stands. Every planned node is done or still on the stack;
      a done node carries its planned interval and is laid out over the plan. */
  ghost predicate Planned(
      t: Tree, anchor: BlockId, size: map<BlockId, u64>, iv: map<BlockId, Interval>, nf: map<BlockId, u64>,
      plan: map<BlockId, Interval>, done: set<BlockId>) {
    && anchor in plan && done <= plan.Keys <= t.kids.Keys
    && (forall x :: x in plan ==> PlannedAt(t, anchor, size, plan, done, x))
    && (forall x :: x in done ==> DoneAt(t, iv, nf, plan, x))
  }

  ghost predicate DoneAt(
      t: Tree, iv: map<BlockId, Interval>, nf: map<BlockId, u64>, plan: map<BlockId, Interval>, x: BlockId) {
    x in plan && x in iv && iv[x] == plan[x] && LaidOutAt(t, plan, nf, x) && IdOrder(t, plan, x)
  }

  /** The children of `x` lie in id order. */
  ghost predicate IdOrder(t: Tree, iv: map<BlockId, Interval>, x: BlockId) {
    && x in t.kids && (forall c :: c in t.kids[x] ==> c in iv)
    && forall c, d :: c in t.kids[x] && d in t.kids[x] && c < d ==> iv[c].hi < iv[d].lo
  }

  ghost predicate PlannedAt(
      t: Tree, anchor: BlockId, size: map<BlockId, u64>,
      plan: map<BlockId, Interval>, done: set<BlockId>, x: BlockId)
    requires x in plan
  {
    && Under(t, anchor, x) && (x != anchor ==> x in t.up && t.up[x] in done)
    && x in size && 1 <= plan[x].lo <= plan[x].hi <= ROOT_CAPACITY
    && size[x] as int <= plan[x].Width()
  }

  ghost predicate EntryPending(plan: map<BlockId, Interval>, done: set<BlockId>, entry: (BlockId, Interval)) {
    entry.0 in plan && plan[entry.0] == entry.1 && entry.0 !in done
  }

  ghost predicate EntriesPending(plan: map<BlockId, Interval>, done: set<BlockId>, stack: seq<(BlockId, Interval)>) {
    forall i :: 0 <= i < |stack| ==> EntryPending(plan, done, stack[i])
  }

  ghost predicate OnStack(stack: seq<(BlockId, Interval)>, x: BlockId) {
    exists i :: 0 <= i < |stack| && stack[i].0 == x
  }

  /** The stack holds exactly the planned nodes that are not done, once each. */
  ghost predicate Pending(plan: map<BlockId, Interval>, done: set<BlockId>, stack: seq<(BlockId, Interval)>) {
    && EntriesPending(plan, done, stack)
    && (forall i, j :: 0 <= i < j < |stack| ==> stack[i].0 != stack[j].0)
    && (forall x :: x in plan ==> x in done || OnStack(stack, x))
  }

  /** The slices of the children of `x`, as a map: inside `(lo, cursor)`, big
      enough, and apart. */
  ghost predicate Cut(kids: seq<BlockId>, size: map<BlockId, u64>, cut: map<BlockId, Interval>, lo: u64, cursor: u64) {
    && cut.Keys == (set c | c in kids)
    && (forall c :: c in cut ==> c in size && lo < cut[c].lo <= cut[c].hi < cursor && size[c] as int <= cut[c].Width())
    && (forall c, d :: c in cut && d in cut && c < d ==> cut[c].hi < cut[d].lo)
  }

  lemma SlicesDistinct(
      kids: seq<BlockId>, size: map<BlockId, u64>, slices: seq<(BlockId, Interval)>, lo: u64, cursor: u64)
    requires Ascending(kids) && Slices(kids, size, slices, lo, cursor)
    ensures forall i, j :: 0 <= i < j < |slices| ==> slices[i].0 != slices[j].0
  {
  }

  /** A list of pairs with distinct first parts, as a map. */
  ghost function AsMap(slices: seq<(BlockId, Interval)>): map<BlockId, Interval> {
    if slices == [] then map[] else AsMap(slices[1..])[slices[0].0 := slices[0].1]
  }

  lemma {:induction false} AsMapLookup(slices: seq<(BlockId, Interval)>)
    requires forall i, j :: 0 <= i < j < |slices| ==> slices[i].0 != slices[j].0
    ensures forall i :: 0 <= i < |slices| ==> slices[i].0 in AsMap(slices) && AsMap(slices)[slices[i].0] == slices[i].1
    ensures forall c :: c in AsMap(slices) ==> exists i :: 0 <= i < |slices| && slices[i].0 == c
  {
    if slices != [] {
      var rest := slices[1..];
      AsMapLookup(rest);
      forall c | c in AsMap(slices)
        ensures exists i :: 0 <= i < |slices| && slices[i].0 == c
      {
        if c != slices[0].0 {
          assert c in AsMap(rest);
          var i :| 0 <= i < |rest| && rest[i].0 == c;
          assert slices[i + 1].0 == c;
        } else {
          assert slices[0].0 == c;
        }
      }
      forall i | 0 <= i < |slices|
        ensures slices[i].0 in AsMap(slices) && AsMap(slices)[slices[i].0] == slices[i].1
      {
        if i > 0 {
          assert slices[i] == rest[i - 1];
        }
      }
    }
  }

  lemma AscendingPlaces(s: seq<BlockId>, i: nat, j: nat)
    requires Ascending(s) && i < |s| && j < |s| && s[i] < s[j]
    ensures i < j
  {
  }

  lemma CutInOrder(kids: seq<BlockId>, size: map<BlockId, u64>, slices: seq<(BlockId, Interval)>, lo: u64, cursor: u64)
    requires Ascending(kids) && Slices(kids, size, slices, lo, cursor)
    ensures var cut := AsMap(slices); forall c, d :: c in cut && d in cut && c < d ==> cut[c].hi < cut[d].lo
  {
    AsMapLookup(slices);
    hide AsMap, Ascending;
    forall c, d | c in AsMap(slices) && d in AsMap(slices) && c < d
      ensures AsMap(slices)[c].hi < AsMap(slices)[d].lo
    {
      var i :| 0 <= i < |slices| && slices[i].0 == c;
      var j :| 0 <= j < |slices| && slices[j].0 == d;
      AscendingPlaces(kids, i, j);
    }
  }

  lemma CutOfSlices(kids: seq<BlockId>, size: map<BlockId, u64>, slices: seq<(BlockId, Interval)>, lo: u64, cursor: u64)
    requires Ascending(kids) && Slices(kids, size, slices, lo, cursor) && |slices| == |kids|
    ensures Cut(kids, size, AsMap(slices), lo, cursor)
  {
    hide AsMap, Slices;
    SlicesDistinct(kids, size, slices, lo, cursor);
    AsMapLookup(slices);
    CutInOrder(kids, size, slices, lo, cursor);
    CutKeys(kids, size, slices, lo, cursor);
    AllFit(kids, size, slices, lo, cursor);
    var cut := AsMap(slices);
    forall c | c in cut
      ensures SliceFits(size, (c, cut[c]), lo, cursor)
    {
      var i :| 0 <= i < |slices| && slices[i].0 == c;
      assert SliceFits(size, slices[i], lo, cursor);
    }
  }

  lemma AllFit(kids: seq<BlockId>, size: map<BlockId, u64>, slices: seq<(BlockId, Interval)>, lo: u64, cursor: u64)
    requires Slices(kids, size, slices, lo, cursor)
    ensures forall i :: 0 <= i < |slices| ==> SliceFits(size, slices[i], lo, cursor)
  {
  }

  lemma CutKeys(kids: seq<BlockId>, size: map<BlockId, u64>, slices: seq<(BlockId, Interval)>, lo: u64, cursor: u64)
    requires Slices(kids, size, slices, lo, cursor) && |slices| == |kids|
    requires forall i, j :: 0 <= i < j < |slices| ==> slices[i].0 != slices[j].0
    ensures AsMap(slices).Keys == set c | c in kids
  {
    AsMapLookup(slices);
    hide AsMap, SliceFits;
    forall c | c in kids
      ensures c in AsMap(slices)
    {
      var i :| 0 <= i < |kids| && kids[i] == c;
      assert slices[i].0 == c;
    }
    forall c | c in AsMap(slices)
      ensures c in kids
    {
      var i :| 0 <= i < |slices| && slices[i].0 == c;
    }
  }

  /** The top entry leaves the stack; the others stay where they were. */
  lemma PoppedStack(rest: seq<(BlockId, Interval)>, top: (BlockId, Interval))
    ensures (rest + [top])[|rest|] == top
    ensures forall i :: 0 <= i < |rest| ==> (rest + [top])[i] == rest[i]
  {
  }

  lemma PushKeepsEntries(
      plan: map<BlockId, Interval>, done: set<BlockId>, rest: seq<(BlockId, Interval)>, x: BlockId, at: Interval,
      slices: seq<(BlockId, Interval)>)
    requires Pending(plan, done, rest + [(x, at)]) && AsMap(slices).Keys !! plan.Keys && done <= plan.Keys
    requires forall i, j :: 0 <= i < j < |slices| ==> slices[i].0 != slices[j].0
    ensures EntriesPending(plan + AsMap(slices), done + {x}, rest + slices)
  {
    AsMapLookup(slices);
    hide AsMap;
    PoppedStack(rest, (x, at));
    forall i | 0 <= i < |rest|
      ensures EntryPending(plan + AsMap(slices), done + {x}, rest[i])
    {
      assert EntryPending(plan, done, (rest + [(x, at)])[i]);
    }
    forall i | 0 <= i < |slices|
      ensures EntryPending(plan + AsMap(slices), done + {x}, slices[i])
    {
      assert EntryPending(plan, done, (rest + [(x, at)])[|rest|]);
    }
  }

  lemma PushKeepsDistinct(
      plan: map<BlockId, Interval>, done: set<BlockId>, rest: seq<(BlockId, Interval)>, x: BlockId, at: Interval,
      slices: seq<(BlockId, Interval)>)
    requires Pending(plan, done, rest + [(x, at)]) && AsMap(slices).Keys !! plan.Keys
    requires forall i, j :: 0 <= i < j < |slices| ==> slices[i].0 != slices[j].0
    ensures forall i, j :: 0 <= i < j < |rest + slices| ==> (rest + slices)[i].0 != (rest + slices)[j].0
  {
    AsMapLookup(slices);
    hide AsMap;
    PoppedStack(rest, (x, at));
    forall i | 0 <= i < |rest|
      ensures rest[i].0 in plan
    {
      assert EntryPending(plan, done, (rest + [(x, at)])[i]);
    }
  }

  lemma PushKeepsCoverage(
      plan: map<BlockId, Interval>, done: set<BlockId>, rest: seq<(BlockId, Interval)>, x: BlockId, at: Interval,
      slices: seq<(BlockId, Interval)>)
    requires Pending(plan, done, rest + [(x, at)])
    requires forall i, j :: 0 <= i < j < |slices| ==> slices[i].0 != slices[j].0
    ensures forall y :: y in plan + AsMap(slices) ==> y in done + {x} || OnStack(rest + slices, y)
  {
    AsMapLookup(slices);
    hide AsMap, EntriesPending;
    PoppedStack(rest, (x, at));
    var stack' := rest + slices;
    forall y | y in plan + AsMap(slices)
      ensures y in done + {x} || OnStack(stack', y)
    {
      if y in AsMap(slices) {
        var i :| 0 <= i < |slices| && slices[i].0 == y;
        assert stack'[|rest| + i].0 == y;
      } else if y !in done && y != x {
        var i :| 0 <= i < |rest + [(x, at)]| && (rest + [(x, at)])[i].0 == y;
        assert stack'[i].0 == y;
      }
    }
  }

  lemma PushSlices(
      plan: map<BlockId, Interval>, done: set<BlockId>, rest: seq<(BlockId, Interval)>, x: BlockId, at: Interval,
      slices: seq<(BlockId, Interval)>)
    requires Pending(plan, done, rest + [(x, at)]) && AsMap(slices).Keys !! plan.Keys && done <= plan.Keys
    requires forall i, j :: 0 <= i < j < |slices| ==> slices[i].0 != slices[j].0
    ensures Pending(plan + AsMap(slices), done + {x}, rest + slices)
  {
    PushKeepsEntries(plan, done, rest, x, at, slices);
    PushKeepsDistinct(plan, done, rest, x, at, slices);
    PushKeepsCoverage(plan, done, rest, x, at, slices);
    hide AsMap, EntriesPending, OnStack;
  }

  lemma ChildrenUnplanned(
      t: Tree, anchor: BlockId, size: map<BlockId, u64>, iv: map<BlockId, Interval>, nf: map<BlockId, u64>,
      plan: map<BlockId, Interval>, done: set<BlockId>, x: BlockId)
    requires Shape(t) && Planned(t, anchor, size, iv, nf, plan, done) && x in plan && x !in done
    ensures forall c :: c in t.kids[x] ==> c !in plan
  {
    forall c | c in t.kids[x] && c in plan
      ensures false
    {
      assert ChildOf(t, c, x) && PlannedAt(t, anchor, size, plan, done, c);
      assert PlannedAt(t, anchor, size, plan, done, x);
      UnderStaysInTree(t, anchor, x);
    }
  }

  lemma ChildrenPlanned(
      t: Tree, anchor: BlockId, size: map<BlockId, u64>, plan: map<BlockId, Interval>, done: set<BlockId>,
      x: BlockId, cut: map<BlockId, Interval>, cursor: u64, iv': map<BlockId, Interval>, nf': map<BlockId, u64>)
    requires Shape(t) && x in plan && x in t.kids && PlannedAt(t, anchor, size, plan, done, x)
    requires Cut(t.kids[x], size, cut, plan[x].lo, cursor) && plan[x].lo < cursor <= plan[x].hi + 1
    requires x !in cut && x in nf' && nf'[x] == cursor && x in iv' && iv'[x] == plan[x]
    ensures forall c :: c in cut ==> PlannedAt(t, anchor, size, plan + cut, done + {x}, c)
    ensures DoneAt(t, iv', nf', plan + cut, x)
  {
    forall c | c in cut
      ensures PlannedAt(t, anchor, size, plan + cut, done + {x}, c)
    {
      assert ChildOf(t, c, x);
      UnderTransitive(t, anchor, x, c);
    }
    forall c, d | c in cut && d in cut && c != d
      ensures Apart(plan + cut, c, d)
    {
      assert c < d || d < c;
    }
  }

  lemma LaidOutAtExtends(
      t: Tree, plan: map<BlockId, Interval>, cut: map<BlockId, Interval>,
      nf: map<BlockId, u64>, nf': map<BlockId, u64>, x: BlockId)
    requires LaidOutAt(t, plan, nf, x) && IdOrder(t, plan, x)
    requires cut.Keys !! plan.Keys && x in nf' && nf'[x] == nf[x]
    ensures LaidOutAt(t, plan + cut, nf', x) && IdOrder(t, plan + cut, x)
  {
    forall c, d | c in t.kids[x] && d in t.kids[x] && c != d
      ensures Apart(plan + cut, c, d)
    {
      assert Apart(plan, c, d);
    }
  }

  lemma StillPlanned(
      t: Tree, anchor: BlockId, size: map<BlockId, u64>, iv: map<BlockId, Interval>, nf: map<BlockId, u64>,
      plan: map<BlockId, Interval>, done: set<BlockId>, x: BlockId, cut: map<BlockId, Interval>)
    requires Planned(t, anchor, size, iv, nf, plan, done) && cut.Keys !! plan.Keys
    ensures forall y :: y in plan ==> PlannedAt(t, anchor, size, plan + cut, done + {x}, y)
  {
    forall y | y in plan
      ensures PlannedAt(t, anchor, size, plan + cut, done + {x}, y)
    {
      assert PlannedAt(t, anchor, size, plan, done, y);
    }
  }

  lemma StillDone(
      t: Tree, anchor: BlockId, size: map<BlockId, u64>, iv: map<BlockId, Interval>, nf: map<BlockId, u64>,
      plan: map<BlockId, Interval>, done: set<BlockId>, x: BlockId, cut: map<BlockId, Interval>, cursor: u64)
    requires Planned(t, anchor, size, iv, nf, plan, done) && x in plan && x !in done && cut.Keys !! plan.Keys
    ensures forall y :: y in done ==> DoneAt(t, iv[x := plan[x]], nf[x := cursor], plan + cut, y)
  {
    forall y | y in done
      ensures DoneAt(t, iv[x := plan[x]], nf[x := cursor], plan + cut, y)
    {
      assert DoneAt(t, iv, nf, plan, y);
      LaidOutAtExtends(t, plan, cut, nf, nf[x := cursor], y);
    }
  }

  /** Give the children of `x` their slices: `x` is done, they are planned. */
  lemma PlanChildren(
      t: Tree, anchor: BlockId, size: map<BlockId, u64>, iv: map<BlockId, Interval>, nf: map<BlockId, u64>,
      plan: map<BlockId, Interval>, done: set<BlockId>, x: BlockId, cut: map<BlockId, Interval>, cursor: u64)
    requires Shape(t) && Planned(t, anchor, size, iv, nf, plan, done) && x in plan && x !in done
    requires Cut(t.kids[x], size, cut, plan[x].lo, cursor) && plan[x].lo < cursor <= plan[x].hi + 1
    ensures Planned(t, anchor, size, iv[x := plan[x]], nf[x := cursor], plan + cut, done + {x})
    ensures cut.Keys !! plan.Keys
  {
    hide Shape, LaidOutAt, PlannedAt, DoneAt, Under, Cut;
    PlanIsInTree(t, anchor, size, iv, nf, plan, done, x);
    ChildrenUnplanned(t, anchor, size, iv, nf, plan, done, x);
    KidsAreInTree(t, x);
    CutDomain(t.kids[x], size, cut, plan[x].lo, cursor);
    ChildrenPlanned(t, anchor, size, plan, done, x, cut, cursor, iv[x := plan[x]], nf[x := cursor]);
    StillPlanned(t, anchor, size, iv, nf, plan, done, x, cut);
    StillDone(t, anchor, size, iv, nf, plan, done, x, cut, cursor);
  }

  lemma PlanIsInTree(
      t: Tree, anchor: BlockId, size: map<BlockId, u64>, iv: map<BlockId, Interval>, nf: map<BlockId, u64>,
      plan: map<BlockId, Interval>, done: set<BlockId>, x: BlockId)
    requires Planned(t, anchor, size, iv, nf, plan, done) && x in plan
    ensures x in t.kids && PlannedAt(t, anchor, size, plan, done, x)
  {
  }

  lemma CutDomain(kids: seq<BlockId>, size: map<BlockId, u64>, cut: map<BlockId, Interval>, lo: u64, cursor: u64)
    requires Cut(kids, size, cut, lo, cursor)
    ensures forall c :: c in cut <==> c in kids
  {
  }

  lemma KidsAreInTree(t: Tree, x: BlockId)
    requires Shape(t) && x in t.kids
    ensures forall c :: c in t.kids[x] ==> c in t.kids
  {
    forall c | c in t.kids[x]
      ensures c in t.kids
    {
      assert ChildOf(t, c, x);
    }
  }

  /** Once the stack is empty, the whole subtree of `anchor` is done. */
  lemma {:induction false} RelayoutComplete(
      t: Tree, anchor: BlockId, size: map<BlockId, u64>, iv: map<BlockId, Interval>, nf: map<BlockId, u64>,
      plan: map<BlockId, Interval>, done: set<BlockId>, x: BlockId)
    requires Shape(t) && Planned(t, anchor, size, iv, nf, plan, done) && Pending(plan, done, [])
    requires Under(t, anchor, x) && x in t.kids
    ensures x in done
    decreases t.depth[x]
  {
    if x != anchor {
      RelayoutComplete(t, anchor, size, iv, nf, plan, done, t.up[x]);
      assert DoneAt(t, iv, nf, plan, t.up[x]);
      assert x in plan;
    }
  }

  lemma DoneIsLaidOut(
      t: Tree, anchor: BlockId, size: map<BlockId, u64>, iv: map<BlockId, Interval>, nf: map<BlockId, u64>,
      plan: map<BlockId, Interval>, done: set<BlockId>, x: BlockId)
    requires Shape(t) && Planned(t, anchor, size, iv, nf, plan, done) && Pending(plan, done, []) && x in done
    ensures LaidOutAt(t, iv, nf, x) && IdOrder(t, iv, x)
  {
    assert DoneAt(t, iv, nf, plan, x);
    forall c | c in t.kids[x]
      ensures c in iv && iv[c] == plan[c]
    {
      assert c in plan;
      assert DoneAt(t, iv, nf, plan, c);
    }
    forall c, d | c in t.kids[x] && d in t.kids[x] && c != d
      ensures Apart(iv, c, d)
    {
      assert Apart(plan, c, d);
    }
  }

  /** Outside `changed`, the labels are what they were. */
  ghost predicate LabelsKept(
      changed: set<BlockId>, iv0: map<BlockId, Interval>, nf0: map<BlockId, u64>,
      iv: map<BlockId, Interval>, nf: map<BlockId, u64>) {
    forall x :: x !in changed ==> SameLabels(iv0, nf0, iv, nf, x)
  }

  ghost predicate SameLabels(
      iv0: map<BlockId, Interval>, nf0: map<BlockId, u64>, iv: map<BlockId, Interval>, nf: map<BlockId, u64>, x: BlockId) {
    && (x in iv <==> x in iv0) && (x in iv ==> iv[x] == iv0[x])
    && (x in nf <==> x in nf0) && (x in nf ==> nf[x] == nf0[x])
  }

  lemma NothingRelabelled(iv: map<BlockId, Interval>, nf: map<BlockId, u64>)
    ensures LabelsKept({}, iv, nf, iv, nf)
  {
  }

  lemma OneMoreRelabelled(
      done: set<BlockId>, iv0: map<BlockId, Interval>, nf0: map<BlockId, u64>, iv: map<BlockId, Interval>,
      nf: map<BlockId, u64>, x: BlockId, at: Interval, cursor: u64)
    requires LabelsKept(done, iv0, nf0, iv, nf)
    ensures LabelsKept(done + {x}, iv0, nf0, iv[x := at], nf[x := cursor])
  {
  }

  ghost predicate Progress(
      t: Tree, anchor: BlockId, size: map<BlockId, u64>, iv: map<BlockId, Interval>, nf: map<BlockId, u64>,
      plan: map<BlockId, Interval>, done: set<BlockId>, stack: seq<(BlockId, Interval)>) {
    Planned(t, anchor, size, iv, nf, plan, done) && Pending(plan, done, stack)
  }

  lemma AnchorPlanned(
      t: Tree, anchor: BlockId, size: map<BlockId, u64>, iv: map<BlockId, Interval>, nf: map<BlockId, u64>, lo: u64, hi: u64)
    requires Shape(t) && Sized(t, size) && anchor in t.kids
    requires 1 <= lo <= hi <= ROOT_CAPACITY && size[anchor] as int <= Interval(lo, hi).Width()
    ensures Progress(t, anchor, size, iv, nf, map[anchor := Interval(lo, hi)], {}, [(anchor, Interval(lo, hi))])
  {
    var stack := [(anchor, Interval(lo, hi))];
    assert stack[0].0 == anchor;
    assert PlannedAt(t, anchor, size, map[anchor := Interval(lo, hi)], {}, anchor);
  }

  lemma TopOfStack(
      t: Tree, anchor: BlockId, size: map<BlockId, u64>, iv: map<BlockId, Interval>, nf: map<BlockId, u64>,
      plan: map<BlockId, Interval>, done: set<BlockId>, rest: seq<(BlockId, Interval)>, x: BlockId, at: Interval)
    requires Shape(t) && Sized(t, size) && Progress(t, anchor, size, iv, nf, plan, done, rest + [(x, at)])
    ensures x in t.kids && x !in done && x in plan && plan[x] == at && x in size
    ensures 1 <= at.lo <= at.hi <= ROOT_CAPACITY && size[x] as int <= at.Width()
    ensures size[x] as nat == 1 + SumSizes(size, t.kids[x])
  {
    PoppedStack(rest, (x, at));
    assert EntryPending(plan, done, (rest + [(x, at)])[|rest|]);
    assert PlannedAt(t, anchor, size, plan, done, x) && SizedAt(t, size, x);
  }

  lemma RelayoutStep(
      t: Tree, anchor: BlockId, size: map<BlockId, u64>, iv: map<BlockId, Interval>, nf: map<BlockId, u64>,
      plan: map<BlockId, Interval>, done: set<BlockId>, rest: seq<(BlockId, Interval)>, x: BlockId, at: Interval,
      slices: seq<(BlockId, Interval)>, cursor: u64)
    requires Shape(t) && Sized(t, size) && Progress(t, anchor, size, iv, nf, plan, done, rest + [(x, at)])
    requires x in t.kids && Slices(t.kids[x], size, slices, at.lo, cursor) && |slices| == |t.kids[x]|
    requires at.hi <= ROOT_CAPACITY && at.lo < cursor <= at.hi + 1
    ensures Progress(t, anchor, size, iv[x := at], nf[x := cursor], plan + AsMap(slices), done + {x}, rest + slices)
    ensures AsMap(slices).Keys !! plan.Keys && x !in done
  {
    hide Sized, Pending, Slices, Cut, AsMap, LaidOutAt, PlannedAt, DoneAt, Under;
    TopOfStack(t, anchor, size, iv, nf, plan, done, rest, x, at);
    SlicesDistinct(t.kids[x], size, slices, at.lo, cursor);
    CutOfSlices(t.kids[x], size, slices, at.lo, cursor);
    PlanChildren(t, anchor, size, iv, nf, plan, done, x, AsMap(slices), cursor);
    PushSlices(plan, done, rest, x, at, slices);
  }

  lemma SizesArePositive(t: Tree, size: map<BlockId, u64>, x: BlockId)
    requires Shape(t) && Sized(t, size) && x in t.kids
    ensures forall c :: c in t.kids[x] ==> c in size && 1 <= size[c]
    ensures SumSizes(size, t.kids[x]) == 0 ==> t.kids[x] == []
  {
    forall c | c in t.kids[x]
      ensures c in size && 1 <= size[c] && size[c] as nat <= SumSizes(size, t.kids[x])
    {
      assert ChildOf(t, c, x) && SizedAt(t, size, c);
      SumBoundsMember(size, t.kids[x], c);
    }
    if t.kids[x] != [] {
      assert t.kids[x][0] in t.kids[x];
    }
  }

  lemma ShrinkingRest(all: set<BlockId>, done: set<BlockId>, x: BlockId)
    requires x in all && x !in done
    ensures |all - (done + {x})| < |all - done|
  {
    assert all - done == (all - (done + {x})) + {x};
  }

  lemma AllDone(
      t: Tree, anchor: BlockId, size: map<BlockId, u64>, iv: map<BlockId, Interval>, nf: map<BlockId, u64>,
      plan: map<BlockId, Interval>, done: set<BlockId>, subtree: set<BlockId>)
    requires Shape(t) && Progress(t, anchor, size, iv, nf, plan, done, [])
    requires forall x :: x in subtree <==> x in t.kids && Under(t, anchor, x)
    ensures done == subtree && anchor in iv && iv[anchor] == plan[anchor]
    ensures forall x :: x in subtree ==> LaidOutAt(t, iv, nf, x) && IdOrder(t, iv, x)
  {
    assert Under(t, anchor, anchor);
    hide Shape, LaidOutAt, IdOrder, Under;
    forall x | x in subtree
      ensures x in done && LaidOutAt(t, iv, nf, x) && IdOrder(t, iv, x)
    {
      RelayoutComplete(t, anchor, size, iv, nf, plan, done, x);
      DoneIsLaidOut(t, anchor, size, iv, nf, plan, done, x);
    }
    forall x | x in done
      ensures x in subtree
    {
      assert PlannedAt(t, anchor, size, plan, done, x);
    }
    assert DoneAt(t, iv, nf, plan, anchor);
  }

  // ------------------------------------------------------------- exactly these labels

  /** Where child `i` of `x` starts, going by the intervals. */
  ghost function ChildStart(kids: seq<BlockId>, iv: map<BlockId, Interval>, x: BlockId, i: nat): int
    requires i <= |kids| && x in iv && forall c :: c in kids ==> c in iv
  {
    if i == 0 then iv[x].lo as int + 1 else iv[kids[i - 1]].hi as int + 1
  }

  ghost predicate ChildShare(
      kids: seq<BlockId>, size: map<BlockId, u64>, iv: map<BlockId, Interval>, x: BlockId, total: int, i: nat)
    requires i < |kids| && x in iv && forall c :: c in kids ==> c in iv
  {
    && kids[i] in size && iv[kids[i]].lo as int == ChildStart(kids, iv, x, i)
    && iv[kids[i]].Width() == FairSpan(size[kids[i]] as int, iv[x].hi as int - iv[x].lo as int - total, total)
  }

  ghost predicate ChildrenShare(
      kids: seq<BlockId>, size: map<BlockId, u64>, iv: map<BlockId, Interval>, x: BlockId, total: int)
    requires x in iv && forall c :: c in kids ==> c in iv
  {
    forall i :: 0 <= i < |kids| ==> ChildShare(kids, size, iv, x, total, i)
  }

  /** The children of `x` share its interval: from its own label on, without a gap, each with
      its fair span; what is left over is free. */
  ghost predicate SharedAt(
      t: Tree, size: map<BlockId, u64>, iv: map<BlockId, Interval>, nf: map<BlockId, u64>, x: BlockId) {
    && x in t.kids && x in iv && x in nf && x in size && (forall c :: c in t.kids[x] ==> c in iv)
    && ChildrenShare(t.kids[x], size, iv, x, size[x] as int - 1)
    && nf[x] as int == ChildStart(t.kids[x], iv, x, |t.kids[x]|)
  }

  ghost predicate AllShared(
      t: Tree, size: map<BlockId, u64>, iv: map<BlockId, Interval>, nf: map<BlockId, u64>, s: set<BlockId>) {
    forall x :: x in s ==> SharedAt(t, size, iv, nf, x)
  }

  lemma SharedAgrees(
      t: Tree, size: map<BlockId, u64>, iv: map<BlockId, Interval>, nf: map<BlockId, u64>, iv': map<BlockId, Interval>,
      nf': map<BlockId, u64>, x: BlockId)
    requires SharedAt(t, size, iv, nf, x) && x in iv' && iv'[x] == iv[x] && x in nf' && nf'[x] == nf[x]
    requires forall c :: c in t.kids[x] ==> c in iv' && iv'[c] == iv[c]
    ensures SharedAt(t, size, iv', nf', x)
  {
    hide FairSpan;
    var kids, total := t.kids[x], size[x] as int - 1;
    forall i | 0 <= i < |kids|
      ensures ChildShare(kids, size, iv', x, total, i)
    {
      assert kids[i] in kids && ChildShare(kids, size, iv, x, total, i);
      assert i > 0 ==> kids[i - 1] in kids;
    }
    assert kids != [] ==> kids[|kids| - 1] in kids;
  }

  lemma SlicedIsShared(
      t: Tree, size: map<BlockId, u64>, iv: map<BlockId, Interval>, nf: map<BlockId, u64>, x: BlockId,
      slices: seq<(BlockId, Interval)>)
    requires x in t.kids && x in iv && x in nf && x in size && 1 <= size[x] && |slices| == |t.kids[x]|
    requires InRow(t.kids[x], size, slices, iv[x].lo, iv[x].hi, size[x] - 1, nf[x])
    requires forall i :: 0 <= i < |slices| ==> slices[i].0 in iv && iv[slices[i].0] == slices[i].1
    ensures SharedAt(t, size, iv, nf, x)
  {
    hide FairSpan;
    var kids, total := t.kids[x], size[x] as int - 1;
    SlicesAreLabels(kids, size, iv, iv[x].lo, iv[x].hi, size[x] - 1, slices);
    forall i | 0 <= i < |kids|
      ensures ChildShare(kids, size, iv, x, total, i)
    {
      assert SliceIs(kids, size, slices, iv[x].lo, iv[x].hi, size[x] - 1, i);
    }
  }

  lemma SlicesAreLabels(
      kids: seq<BlockId>, size: map<BlockId, u64>, iv: map<BlockId, Interval>, lo: u64, hi: u64, total: u64,
      slices: seq<(BlockId, Interval)>)
    requires |slices| == |kids| && forall i :: 0 <= i < |slices| ==> SliceIs(kids, size, slices, lo, hi, total, i)
    requires forall i :: 0 <= i < |slices| ==> slices[i].0 in iv && iv[slices[i].0] == slices[i].1
    ensures forall i :: 0 <= i < |kids| ==> kids[i] in iv && iv[kids[i]] == slices[i].1
    ensures forall c :: c in kids ==> c in iv
  {
    hide FairSpan;
    forall i | 0 <= i < |kids|
      ensures kids[i] in iv && iv[kids[i]] == slices[i].1
    {
      assert SliceIs(kids, size, slices, lo, hi, total, i);
    }
  }

  /** One more node has shared its interval; nothing shared before is touched. */
  lemma SharedStep(
      t: Tree, size: map<BlockId, u64>, plan: map<BlockId, Interval>, nf: map<BlockId, u64>, done: set<BlockId>, x: BlockId,
      slices: seq<(BlockId, Interval)>, cursor: u64)
    requires AllShared(t, size, plan, nf, done) && x in t.kids && x in plan && x !in done && x in size && 1 <= size[x]
    requires |slices| == |t.kids[x]| && AsMap(slices).Keys !! plan.Keys
    requires forall i, j :: 0 <= i < j < |slices| ==> slices[i].0 != slices[j].0
    requires InRow(t.kids[x], size, slices, plan[x].lo, plan[x].hi, size[x] - 1, cursor)
    ensures AllShared(t, size, plan + AsMap(slices), nf[x := cursor], done + {x})
  {
    AsMapLookup(slices);
    hide AsMap, InRow, SharedAt;
    SlicedIsShared(t, size, plan + AsMap(slices), nf[x := cursor], x, slices);
    forall y | y in done
      ensures SharedAt(t, size, plan + AsMap(slices), nf[x := cursor], y)
    {
      SharedStays(t, size, plan, AsMap(slices), nf, x, cursor, y);
    }
  }

  lemma SharedStays(
      t: Tree, size: map<BlockId, u64>, plan: map<BlockId, Interval>, cut: map<BlockId, Interval>, nf: map<BlockId, u64>,
      x: BlockId, cursor: u64, y: BlockId)
    requires SharedAt(t, size, plan, nf, y) && y != x && cut.Keys !! plan.Keys
    ensures SharedAt(t, size, plan + cut, nf[x := cursor], y)
  {
    SharedAgrees(t, size, plan, nf, plan + cut, nf[x := cursor], y);
  }

  /** In the end the labels are the planned ones. */
  lemma SharedEnd(
      t: Tree, anchor: BlockId, size: map<BlockId, u64>, iv: map<BlockId, Interval>, nf: map<BlockId, u64>,
      plan: map<BlockId, Interval>, done: set<BlockId>, subtree: set<BlockId>)
    requires Shape(t) && Progress(t, anchor, size, iv, nf, plan, done, []) && AllShared(t, size, plan, nf, done)
    requires forall x :: x in subtree <==> x in t.kids && Under(t, anchor, x)
    ensures AllShared(t, size, iv, nf, subtree)
  {
    hide Shape, SharedAt, Under, LaidOutAt, IdOrder;
    forall x | x in subtree
      ensures SharedAt(t, size, iv, nf, x)
    {
      RelayoutComplete(t, anchor, size, iv, nf, plan, done, x);
      PlanIsLabel(t, anchor, size, iv, nf, plan, done, x);
      SharedKids(t, size, plan, nf, x);
      forall c | c in t.kids[x]
        ensures c in iv && iv[c] == plan[c]
      {
        PlannedIsDone(plan, done, c);
        PlanIsLabel(t, anchor, size, iv, nf, plan, done, c);
      }
      SharedAgrees(t, size, plan, nf, iv, nf, x);
    }
  }

  lemma SharedKids(t: Tree, size: map<BlockId, u64>, plan: map<BlockId, Interval>, nf: map<BlockId, u64>, x: BlockId)
    requires SharedAt(t, size, plan, nf, x)
    ensures x in t.kids && x in nf && forall c :: c in t.kids[x] ==> c in plan
  {
  }

  lemma PlannedIsDone(plan: map<BlockId, Interval>, done: set<BlockId>, c: BlockId)
    requires Pending(plan, done, []) && c in plan
    ensures c in done
  {
  }

  lemma PlanIsLabel(
      t: Tree, anchor: BlockId, size: map<BlockId, u64>, iv: map<BlockId, Interval>, nf: map<BlockId, u64>,
      plan: map<BlockId, Interval>, done: set<BlockId>, x: BlockId)
    requires Planned(t, anchor, size, iv, nf, plan, done) && x in done
    ensures x in plan && x in iv && iv[x] == plan[x]
  {
    hide LaidOutAt, IdOrder;
    assert DoneAt(t, iv, nf, plan, x);
  }
}
