/** Building the oracle from scratch over a whole block graph: post-order subtree
    sizes, one layout of the whole tree, and futures by breadth-first search. */
module OracleBuild {
  import opened BlockGraph
  import opened IntervalTree
  import opened SortedIds
  import opened Words
  import opened Relayout
  import R = Reachability

  // -------------------------------------------------------------- subtree sizes

  ghost function Subtree(t: Tree, x: BlockId): set<BlockId> {
    R.Subtree(t, x)
  }

  ghost function Subtrees(t: Tree, kids: seq<BlockId>): set<BlockId> {
    set y | y in t.kids && InSubtrees(t, kids, y)
  }

  ghost predicate InSubtrees(t: Tree, kids: seq<BlockId>, y: BlockId) {
    exists c :: c in kids && Under(t, c, y)
  }

  lemma SubtreeOfNode(t: Tree, x: BlockId)
    requires Shape(t) && x in t.kids
    ensures Subtree(t, x) == {x} + Subtrees(t, t.kids[x]) && x !in Subtrees(t, t.kids[x])
  {
    forall y | y in Subtree(t, x) && y != x
      ensures y in Subtrees(t, t.kids[x])
    {
      var c := BranchOf(t, x, y);
      assert InSubtrees(t, t.kids[x], y);
    }
    forall y | y in Subtrees(t, t.kids[x])
      ensures y in Subtree(t, x) && y != x
    {
      var c :| c in t.kids[x] && Under(t, c, y);
      assert ChildOf(t, c, x) && Under(t, x, c);
      UnderTransitive(t, x, c, y);
      UnderStaysInTree(t, c, y);
    }
  }

  lemma FirstSubtreeApart(t: Tree, x: BlockId, kids: seq<BlockId>)
    requires Shape(t) && x in t.kids && Ascending(kids) && kids != [] && forall c :: c in kids ==> c in t.kids[x]
    ensures Subtrees(t, kids) == Subtree(t, kids[0]) + Subtrees(t, kids[1..])
    ensures Subtree(t, kids[0]) !! Subtrees(t, kids[1..])
  {
    var c, rest := kids[0], kids[1..];
    assert c !in rest && forall d :: d in kids <==> d == c || d in rest;
    forall y | y in t.kids
      ensures y in Subtrees(t, kids) <==> y in Subtree(t, c) || y in Subtrees(t, rest)
      ensures !(y in Subtree(t, c) && y in Subtrees(t, rest))
    {
      assert InSubtrees(t, kids, y) <==> Under(t, c, y) || InSubtrees(t, rest, y);
      if y in Subtree(t, c) && y in Subtrees(t, rest) {
        var d :| d in rest && Under(t, d, y);
        SiblingsDisjoint(t, x, c, d, y);
      }
    }
  }

  /** Sizes that count subtrees also add up child by child. */
  lemma {:induction false} CountsAddUp(t: Tree, size: map<BlockId, u64>, x: BlockId, kids: seq<BlockId>)
    requires Shape(t) && x in t.kids && Ascending(kids) && forall c :: c in kids ==> c in t.kids[x]
    requires forall c :: c in kids ==> c in size && size[c] as nat == |Subtree(t, c)|
    ensures SumSizes(size, kids) == |Subtrees(t, kids)|
  {
    if kids == [] {
      assert Subtrees(t, kids) == {};
    } else {
      FirstSubtreeApart(t, x, kids);
      assert kids[0] in kids && forall d :: d in kids[1..] ==> d in kids;
      CountsAddUp(t, size, x, kids[1..]);
    }
  }

  lemma CountOfNode(t: Tree, size: map<BlockId, u64>, x: BlockId)
    requires Shape(t) && x in t.kids
    requires forall c :: c in t.kids[x] ==> c in size && size[c] as nat == |Subtree(t, c)|
    ensures 1 + SumSizes(size, t.kids[x]) == |Subtree(t, x)| <= |t.kids|
  {
    SubtreeOfNode(t, x);
    CountsAddUp(t, size, x, t.kids[x]);
    SubsetSize(Subtree(t, x), t.kids.Keys);
  }

  datatype Step = Enter(id: BlockId) | Exit(id: BlockId)

  ghost predicate OnWalk(stack: seq<Step>, from: nat, x: BlockId) {
    exists i :: from <= i < |stack| && stack[i].id == x
  }

  /** A node is done with its children, or waits on the stack above its parent. */
  ghost predicate Walking(t: Tree, size: map<BlockId, u64>, stack: seq<Step>, entered: set<BlockId>, done: set<BlockId>) {
    && done <= entered <= t.kids.Keys
    && (forall c :: c in entered && c in t.up ==> t.up[c] in entered)
    && (forall x :: x in done ==> CountedAt(t, size, x) && forall c :: c in t.kids[x] ==> c in done)
    && (forall i :: 0 <= i < |stack| ==> StepAt(t, stack, entered, done, i))
    && (forall i, j :: 0 <= i < j < |stack| ==> stack[i].id != stack[j].id)
    && (forall x :: x in entered && x !in done ==> OnWalk(stack, 0, x))
    && (t.root in done || OnWalk(stack, 0, t.root))
  }

  ghost predicate CountedAt(t: Tree, size: map<BlockId, u64>, x: BlockId) {
    x in t.kids && x in size && size[x] as nat == |Subtree(t, x)|
  }

  ghost predicate StepAt(t: Tree, stack: seq<Step>, entered: set<BlockId>, done: set<BlockId>, i: nat)
    requires i < |stack|
  {
    var x := stack[i].id;
    && x in t.kids && x !in done && (stack[i].Exit? <==> x in entered)
    && (x != t.root ==> x in t.up && t.up[x] in entered)
    && (stack[i].Exit? ==> forall c :: c in t.kids[x] ==> c in done || OnWalk(stack, i + 1, c))
  }

  function Enters(kids: seq<BlockId>): (r: seq<Step>)
    ensures |r| == |kids| && forall i :: 0 <= i < |kids| ==> r[i] == Enter(kids[i])
  {
    if kids == [] then [] else Enters(kids[..|kids| - 1]) + [Enter(kids[|kids| - 1])]
  }

  lemma Popped(rest: seq<Step>, top: Step)
    ensures (rest + [top])[|rest|] == top && forall i :: 0 <= i < |rest| ==> (rest + [top])[i] == rest[i]
  {
  }

  /** Leaving a node: its children are done, so its size is final. */
  lemma ExitReady(t: Tree, size: map<BlockId, u64>, rest: seq<Step>, x: BlockId, entered: set<BlockId>, done: set<BlockId>)
    requires Shape(t) && Walking(t, size, rest + [Exit(x)], entered, done)
    ensures x in t.kids && x !in done && x in entered
    ensures forall c :: c in t.kids[x] ==> c in size && size[c] as nat == |Subtree(t, c)|
    ensures forall c :: c in t.kids[x] ==> c in done
  {
    Popped(rest, Exit(x));
    assert StepAt(t, rest + [Exit(x)], entered, done, |rest|);
    forall c | c in t.kids[x]
      ensures c in done && CountedAt(t, size, c)
    {
      assert !OnWalk(rest + [Exit(x)], |rest| + 1, c);
    }
  }

  lemma ExitKeepsStep(
      t: Tree, rest: seq<Step>, x: BlockId, entered: set<BlockId>, done: set<BlockId>, i: nat)
    requires i < |rest| && rest[i].id != x && StepAt(t, rest + [Exit(x)], entered, done, i)
    ensures StepAt(t, rest, entered, done + {x}, i)
  {
    var stack := rest + [Exit(x)];
    Popped(rest, Exit(x));
    forall c | rest[i].Exit? && c in t.kids[rest[i].id] && c !in done + {x}
      ensures OnWalk(rest, i + 1, c)
    {
      var j :| i + 1 <= j < |stack| && stack[j].id == c;
      assert rest[j].id == c;
    }
  }

  lemma ExitStep(
      t: Tree, size: map<BlockId, u64>, rest: seq<Step>, x: BlockId, entered: set<BlockId>, done: set<BlockId>, n: u64)
    requires Shape(t) && Walking(t, size, rest + [Exit(x)], entered, done) && n as nat == |Subtree(t, x)|
    ensures Walking(t, size[x := n], rest, entered, done + {x})
  {
    var stack := rest + [Exit(x)];
    Popped(rest, Exit(x));
    ExitReady(t, size, rest, x, entered, done);
    forall i | 0 <= i < |rest|
      ensures StepAt(t, rest, entered, done + {x}, i)
    {
      assert StepAt(t, stack, entered, done, i) && stack[i].id != stack[|rest|].id;
      ExitKeepsStep(t, rest, x, entered, done, i);
    }
    hide Shape, StepAt;
    forall y | OnWalk(stack, 0, y) && y != x
      ensures OnWalk(rest, 0, y)
    {
      var j :| 0 <= j < |stack| && stack[j].id == y;
      assert rest[j].id == y;
    }
    forall y | y in done + {x}
      ensures CountedAt(t, size[x := n], y)
    {
      assert y != x ==> CountedAt(t, size, y);
    }
  }

  lemma EnterChild(
      t: Tree, size: map<BlockId, u64>, rest: seq<Step>, x: BlockId, entered: set<BlockId>, done: set<BlockId>,
      c: BlockId)
    requires Shape(t) && Walking(t, size, rest + [Enter(x)], entered, done) && x in t.kids && c in t.kids[x]
    ensures c in t.kids && c != x && c != t.root && c in t.up && t.up[c] == x && c !in entered && x !in entered
    ensures forall i :: 0 <= i < |rest| ==> rest[i].id != c
  {
    Popped(rest, Enter(x));
    assert ChildOf(t, c, x) && StepAt(t, rest + [Enter(x)], entered, done, |rest|);
    forall i | 0 <= i < |rest|
      ensures rest[i].id != c
    {
      assert StepAt(t, rest + [Enter(x)], entered, done, i);
    }
  }

  lemma EnterKeepsStep(
      t: Tree, rest: seq<Step>, x: BlockId, entered: set<BlockId>, done: set<BlockId>, i: nat, stack': seq<Step>)
    requires i < |rest| && rest[i].id != x && StepAt(t, rest + [Enter(x)], entered, done, i)
    requires |stack'| > |rest| && stack'[|rest|] == Exit(x) && forall j :: 0 <= j < |rest| ==> stack'[j] == rest[j]
    ensures StepAt(t, stack', entered + {x}, done, i)
  {
    var stack := rest + [Enter(x)];
    Popped(rest, Enter(x));
    forall c | rest[i].Exit? && c in t.kids[rest[i].id] && c !in done
      ensures OnWalk(stack', i + 1, c)
    {
      var j :| i + 1 <= j < |stack| && stack[j].id == c;
      assert stack'[j].id == c;
    }
  }

  /** Visiting a node: come back to it after its children. */
  lemma EnterSteps(
      t: Tree, size: map<BlockId, u64>, rest: seq<Step>, x: BlockId, entered: set<BlockId>, done: set<BlockId>)
    requires Shape(t) && Walking(t, size, rest + [Enter(x)], entered, done)
    ensures x in t.kids && x !in entered
    ensures forall i :: 0 <= i < |rest + [Exit(x)] + Enters(t.kids[x])| ==>
      StepAt(t, rest + [Exit(x)] + Enters(t.kids[x]), entered + {x}, done, i)
  {
    Popped(rest, Enter(x));
    assert StepAt(t, rest + [Enter(x)], entered, done, |rest|);
    var kids := t.kids[x];
    var stack' := rest + [Exit(x)] + Enters(kids);
    forall i | 0 <= i < |stack'|
      ensures StepAt(t, stack', entered + {x}, done, i)
    {
      if i < |rest| {
        assert (rest + [Enter(x)])[i].id != (rest + [Enter(x)])[|rest|].id;
        EnterKeepsStep(t, rest, x, entered, done, i, stack');
      } else if i == |rest| {
        forall c | c in kids
          ensures OnWalk(stack', |rest| + 1, c)
        {
          var j :| 0 <= j < |kids| && kids[j] == c;
          assert stack'[|rest| + 1 + j].id == c;
        }
      } else {
        assert stack'[i] == Enter(kids[i - |rest| - 1]);
        EnterChild(t, size, rest, x, entered, done, kids[i - |rest| - 1]);
      }
    }
  }

  lemma EnterDistinct(
      t: Tree, size: map<BlockId, u64>, rest: seq<Step>, x: BlockId, entered: set<BlockId>, done: set<BlockId>)
    requires Shape(t) && Walking(t, size, rest + [Enter(x)], entered, done) && x in t.kids
    ensures forall i, j :: 0 <= i < j < |rest + [Exit(x)] + Enters(t.kids[x])| ==>
      (rest + [Exit(x)] + Enters(t.kids[x]))[i].id != (rest + [Exit(x)] + Enters(t.kids[x]))[j].id
  {
    Popped(rest, Enter(x));
    var kids := t.kids[x];
    var stack, stack' := rest + [Enter(x)], rest + [Exit(x)] + Enters(kids);
    forall i, j | 0 <= i < j < |stack'|
      ensures stack'[i].id != stack'[j].id
    {
      if j <= |rest| {
        assert stack[i].id != stack[j].id;
      } else {
        var c := kids[j - |rest| - 1];
        assert stack'[j].id == c;
        EnterChild(t, size, rest, x, entered, done, c);
        if i > |rest| {
          assert Ascending(kids) && stack'[i].id == kids[i - |rest| - 1];
        }
      }
    }
  }

  lemma EnterStep(
      t: Tree, size: map<BlockId, u64>, rest: seq<Step>, x: BlockId, entered: set<BlockId>, done: set<BlockId>)
    requires Shape(t) && Walking(t, size, rest + [Enter(x)], entered, done)
    ensures x in t.kids && x !in entered
    ensures Walking(t, size[x := 1], rest + [Exit(x)] + Enters(t.kids[x]), entered + {x}, done)
  {
    Popped(rest, Enter(x));
    EnterSteps(t, size, rest, x, entered, done);
    EnterDistinct(t, size, rest, x, entered, done);
    assert StepAt(t, rest + [Enter(x)], entered, done, |rest|);
    var stack, stack' := rest + [Enter(x)], rest + [Exit(x)] + Enters(t.kids[x]);
    hide Shape, StepAt;
    forall y | OnWalk(stack, 0, y)
      ensures OnWalk(stack', 0, y)
    {
      var j :| 0 <= j < |stack| && stack[j].id == y;
      assert stack'[j].id == y;
    }
    assert stack'[|rest|].id == x;
    forall y | y in done
      ensures CountedAt(t, size[x := 1], y)
    {
      assert CountedAt(t, size, y);
    }
  }

  lemma {:induction false} WalkComplete(
      t: Tree, size: map<BlockId, u64>, entered: set<BlockId>, done: set<BlockId>, x: BlockId)
    requires Shape(t) && Walking(t, size, [], entered, done) && x in t.kids
    ensures x in done
    decreases t.depth[x]
  {
    if x != t.root {
      WalkComplete(t, size, entered, done, t.up[x]);
    }
  }

  lemma RootSubtree(t: Tree)
    requires Shape(t)
    ensures Subtree(t, t.root) == t.kids.Keys
  {
    forall y | y in t.kids
      ensures y in Subtree(t, t.root)
    {
      EverythingUnderRoot(t, y);
    }
  }

  lemma WalkCounted(t: Tree, size: map<BlockId, u64>, entered: set<BlockId>, done: set<BlockId>)
    requires Shape(t) && Walking(t, size, [], entered, done)
    ensures forall x :: x in t.kids ==> CountedAt(t, size, x)
  {
    forall x | x in t.kids
      ensures CountedAt(t, size, x)
    {
      WalkComplete(t, size, entered, done, x);
    }
  }

  lemma WalkSized(t: Tree, size: map<BlockId, u64>, entered: set<BlockId>, done: set<BlockId>)
    requires Shape(t) && Walking(t, size, [], entered, done) && size.Keys <= t.kids.Keys
    ensures Sized(t, size) && t.root in size && size[t.root] as nat == |t.kids|
  {
    hide Walking, Subtree, R.Subtree, Under, SizedAt, Shape;
    WalkCounted(t, size, entered, done);
    RootSubtree(t);
    AllSized(t, size);
    assert CountedAt(t, size, t.root);
  }

  lemma AllSized(t: Tree, size: map<BlockId, u64>)
    requires Shape(t) && forall x :: x in t.kids ==> CountedAt(t, size, x)
    ensures forall x :: x in t.kids ==> SizedAt(t, size, x) && x in size
    ensures t.root in t.kids
  {
    hide Under, SizedAt, Subtree, R.Subtree;
    forall x | x in t.kids
      ensures SizedAt(t, size, x)
    {
      CountedIsSized(t, size, x);
    }
    assert forall x :: x in t.kids ==> CountedAt(t, size, x);
  }

  lemma CountedIsSized(t: Tree, size: map<BlockId, u64>, x: BlockId)
    requires Shape(t) && x in t.kids && forall y :: y in t.kids ==> CountedAt(t, size, y)
    ensures SizedAt(t, size, x)
  {
    forall c | c in t.kids[x]
      ensures CountedAt(t, size, c)
    {
      assert ChildOf(t, c, x);
    }
    assert CountedAt(t, size, x);
    CountOfNode(t, size, x);
  }

  method SumOf(size: map<BlockId, u64>, kids: seq<BlockId>) returns (sum: u64)
    requires SumSizes(size, kids) < ROOT_CAPACITY as nat && forall c :: c in kids ==> c in size
    ensures sum as nat == SumSizes(size, kids)
  {
    sum := 0;
    for i := 0 to |kids|
      invariant sum as nat == SumSizes(size, kids[..i])
    {
      assert kids[i] in kids;
      SumNext(size, kids, i);
      sum := sum + size[kids[i]];
    }
    assert kids[..|kids|] == kids;
  }

  lemma WalkStart(t: Tree)
    requires Shape(t)
    ensures Walking(t, map[], [Enter(t.root)], {}, {})
  {
    var stack := [Enter(t.root)];
    assert stack[0].id == t.root;
    assert StepAt(t, stack, {}, {}, 0);
  }

  /** Sizes of all subtrees, by a post-order walk with an explicit stack. */
  method SubtreeSizes(root: BlockId, kids: map<BlockId, seq<BlockId>>, ghost t: Tree) returns (sizes: map<BlockId, u64>)
    requires Shape(t) && t.root == root && t.kids == kids && |kids| < ROOT_CAPACITY as nat
    ensures Sized(t, sizes) && root in sizes && sizes[root] as nat == |kids|
  {
    hide Shape, Sized, Walking, Subtree, R.Subtree;
    sizes := map[];
    ghost var entered: set<BlockId>, done: set<BlockId> := {}, {};
    var stack := [Enter(root)];
    WalkStart(t);
    while stack != []
      invariant Walking(t, sizes, stack, entered, done) && sizes.Keys <= kids.Keys && entered <= kids.Keys
      decreases |kids.Keys - entered|, |stack|
    {
      var top := stack[|stack| - 1];
      var rest := stack[..|stack| - 1];
      assert stack == rest + [top];
      match top
      case Enter(id) =>
        EnterStep(t, sizes, rest, id, entered, done);
        ShrinkingRest(kids.Keys, entered, id);
        sizes := sizes[id := 1];
        stack := rest + [Exit(id)] + Enters(kids[id]);
        entered := entered + {id};
      case Exit(id) =>
        ExitReady(t, sizes, rest, id, entered, done);
        CountOfNode(t, sizes, id);
        var childTotal := SumOf(sizes, kids[id]);
        ExitStep(t, sizes, rest, id, entered, done, 1 + childTotal);
        sizes := sizes[id := 1 + childTotal];
        stack := rest;
        done := done + {id};
    }
    WalkSized(t, sizes, entered, done);
  }

  // -------------------------------------------------------------------- futures

  ghost predicate ListsChild(lists: map<BlockId, seq<BlockId>>, p: BlockId, c: BlockId) {
    p in lists && c in lists[p]
  }

  ghost predicate ListsOnlyChildren(g: Graph, lists: map<BlockId, seq<BlockId>>) {
    forall p, c :: ListsChild(lists, p, c) ==> c in g && p in g[c].parents
  }

  /** `dagChildren` inverts the parent lists. */
  ghost predicate Inverts(g: Graph, dagChildren: map<BlockId, seq<BlockId>>) {
    && ListsOnlyChildren(g, dagChildren)
    && (forall c, p :: c in g && p in g[c].parents ==> ListsChild(dagChildren, p, c))
  }

  ghost function Future(g: Graph, a: BlockId): set<BlockId> {
    set d | d in g && a in Past(g, d)
  }

  ghost predicate Expanded(g: Graph, future: set<BlockId>, x: BlockId) {
    forall c :: c in g && x in g[c].parents ==> c in future
  }

  /** A set of descendants of `a`, expanded but for those still queued. */
  ghost predicate Searching(g: Graph, a: BlockId, future: set<BlockId>, queue: seq<BlockId>) {
    && future <= Future(g, a) && (forall q :: q in queue ==> q == a || q in future)
    && forall x :: (x == a || x in future) && x !in queue ==> Expanded(g, future, x)
  }

  lemma ChildInFuture(g: Graph, a: BlockId, x: BlockId, c: BlockId)
    requires a in g && x in g && (x == a || x in Future(g, a)) && c in g && x in g[c].parents
    ensures c in Future(g, a)
  {
    ParentInPast(g, x, c);
    if x != a {
      PastTransitive(g, a, x, c);
    }
  }

  lemma {:induction false} ClosedHoldsReached(g: Graph, a: BlockId, future: set<BlockId>, d: BlockId, n: nat)
    requires Searching(g, a, future, []) && ReachesIn(g, a, d, n)
    ensures d in future
    decreases n
  {
    var p :| p in g[d].parents && (p == a || ReachesIn(g, a, p, n - 1));
    if p != a {
      ClosedHoldsReached(g, a, future, p, n - 1);
    }
    assert Expanded(g, future, p);
  }

  lemma ClosedIsFuture(g: Graph, a: BlockId, future: set<BlockId>)
    requires Searching(g, a, future, [])
    ensures future == Future(g, a)
  {
    forall d | d in Future(g, a)
      ensures d in future
    {
      var n: nat :| ReachesIn(g, a, d, n);
      ClosedHoldsReached(g, a, future, d, n);
    }
  }

  /** Add the children not seen before to the set and to the back of the queue. */
  method PushNew(children: seq<BlockId>, future: set<BlockId>, queue: seq<BlockId>)
    returns (future': set<BlockId>, queue': seq<BlockId>)
    ensures future' == future + SetOf(children)
    ensures forall q :: q in queue' <==> q in queue || (q in children && q !in future)
    ensures future' == future ==> queue' == queue
  {
    future', queue' := future, queue;
    for i := 0 to |children|
      invariant future' == future + SetOf(children[..i])
      invariant forall q :: q in queue' <==> q in queue || (q in children[..i] && q !in future)
      invariant future' == future ==> queue' == queue
    {
      assert children[..i + 1] == children[..i] + [children[i]];
      if children[i] !in future' {
        future', queue' := future' + {children[i]}, queue' + [children[i]];
      }
    }
    assert children[..|children|] == children;
  }

  lemma SearchStep(
      g: Graph, dagChildren: map<BlockId, seq<BlockId>>, a: BlockId, future: set<BlockId>, cur: BlockId, rest: seq<BlockId>,
      future': set<BlockId>, queue': seq<BlockId>)
    requires Inverts(g, dagChildren) && a in g && Searching(g, a, future, [cur] + rest)
    requires future' == future + SetOf(if cur in dagChildren then dagChildren[cur] else [])
    requires forall q :: q in queue' <==>
      q in rest || (q in (if cur in dagChildren then dagChildren[cur] else []) && q !in future)
    ensures Searching(g, a, future', queue')
  {
    var children := if cur in dagChildren then dagChildren[cur] else [];
    assert cur in [cur] + rest;
    forall c | c in children
      ensures c in Future(g, a)
    {
      assert ListsChild(dagChildren, cur, c);
      ChildInFuture(g, a, cur, c);
    }
    forall x | (x == a || x in future') && x !in queue'
      ensures Expanded(g, future', x)
    {
      if x != cur {
        assert x !in [cur] + rest;
        assert Expanded(g, future, x);
      }
    }
  }

  /** Everything reachable forward from `a`, by breadth-first search. */
  method FutureOf(ghost g: Graph, dagChildren: map<BlockId, seq<BlockId>>, a: BlockId) returns (future: set<BlockId>)
    requires Inverts(g, dagChildren) && a in g
    ensures future == Future(g, a)
  {
    hide Inverts, Expanded;
    future := {};
    var queue := [a];
    while queue != []
      invariant Searching(g, a, future, queue)
      decreases |g.Keys - future|, |queue|
    {
      var cur := queue[0];
      var rest := queue[1..];
      assert queue == [cur] + rest;
      var future', queue' := PushNew(if cur in dagChildren then dagChildren[cur] else [], future, rest);
      SearchStep(g, dagChildren, a, future, cur, rest, future', queue');
      FewerLeft(g, future, future');
      future, queue := future', queue';
    }
    ClosedIsFuture(g, a, future);
  }

  lemma FewerLeft(g: Graph, before: set<BlockId>, after: set<BlockId>)
    requires before <= after <= g.Keys
    ensures before != after ==> |g.Keys - after| < |g.Keys - before|
  {
    SubsetSize(g.Keys - after, g.Keys - before);
  }

  // -------------------------------------------------------- the tree of a graph

  /** Every block but genesis selects one of its parents. */
  ghost predicate Selects(g: Graph, genesis: BlockId, selected: map<BlockId, BlockId>) {
    && WellFormed(g, genesis) && selected.Keys == g.Keys - {genesis}
    && forall c :: c in selected ==> selected[c] in g[c].parents
  }

  lemma SelectedSmaller(g: Graph, genesis: BlockId, selected: map<BlockId, BlockId>, c: BlockId)
    requires Selects(g, genesis, selected) && c in selected
    ensures selected[c] in g && selected[c] in Past(g, c) && |Past(g, selected[c])| < |Past(g, c)|
  {
    assert KnownParents(g, g[c].parents);
    ParentInPast(g, selected[c], c);
    AncestorHasSmallerPast(g, genesis, selected[c], c);
  }

  ghost function DepthOf(g: Graph, selected: map<BlockId, BlockId>, d: BlockId): nat
    decreases |Past(g, d)|
  {
    if d in selected && |Past(g, selected[d])| < |Past(g, d)| then 1 + DepthOf(g, selected, selected[d]) else 0
  }

  ghost function TreeOver(
      g: Graph, genesis: BlockId, selected: map<BlockId, BlockId>, kids: map<BlockId, seq<BlockId>>): Tree {
    Tree(genesis, selected, kids, map d | d in g :: DepthOf(g, selected, d))
  }

  ghost predicate InvertsSelection(g: Graph, selected: map<BlockId, BlockId>, kids: map<BlockId, seq<BlockId>>) {
    && kids.Keys == g.Keys
    && (forall x, c :: ListsChild(kids, x, c) ==> c in selected && selected[c] == x)
    && (forall c :: c in selected ==> ListsChild(kids, selected[c], c))
  }

  lemma DepthStep(g: Graph, genesis: BlockId, selected: map<BlockId, BlockId>, c: BlockId)
    requires Selects(g, genesis, selected) && c in selected
    ensures selected[c] in g && DepthOf(g, selected, c) == DepthOf(g, selected, selected[c]) + 1
  {
    SelectedSmaller(g, genesis, selected, c);
  }

  lemma SelectionIsTree(
      g: Graph, genesis: BlockId, selected: map<BlockId, BlockId>, kids: map<BlockId, seq<BlockId>>,
      depth: map<BlockId, nat>)
    requires genesis in g && selected.Keys == g.Keys - {genesis} && depth.Keys == g.Keys
    requires InvertsSelection(g, selected, kids) && forall x :: x in kids ==> Ascending(kids[x])
    requires forall c :: c in selected ==> selected[c] in g && depth[c] == depth[selected[c]] + 1
    ensures Shape(Tree(genesis, selected, kids, depth))
  {
    hide Ascending;
    var t := Tree(genesis, selected, kids, depth);
    forall x, c | x in t.kids && c in t.kids[x]
      ensures ChildOf(t, c, x)
    {
      assert ListsChild(kids, x, c);
    }
  }

  lemma TreeOverShape(g: Graph, genesis: BlockId, selected: map<BlockId, BlockId>, kids: map<BlockId, seq<BlockId>>)
    requires Selects(g, genesis, selected) && InvertsSelection(g, selected, kids)
    requires forall x :: x in kids ==> Ascending(kids[x])
    ensures Shape(TreeOver(g, genesis, selected, kids))
  {
    hide DepthOf, Ascending, Shape;
    var depth := map d | d in g :: DepthOf(g, selected, d);
    forall c | c in selected
      ensures selected[c] in g && depth[c] == depth[selected[c]] + 1
    {
      DepthStep(g, genesis, selected, c);
    }
    SelectionIsTree(g, genesis, selected, kids, depth);
  }

  /** Tree ancestors are ancestors. */
  lemma {:induction false} UnderIsPast(
      g: Graph, genesis: BlockId, selected: map<BlockId, BlockId>, t: Tree, x: BlockId, y: BlockId)
    requires Selects(g, genesis, selected) && Shape(t) && t.up == selected && t.kids.Keys == g.Keys
    requires y in g && Under(t, x, y) && x != y
    ensures x in Past(g, y)
    decreases t.depth[y]
  {
    SelectedSmaller(g, genesis, selected, y);
    if x != selected[y] {
      UnderIsPast(g, genesis, selected, t, x, selected[y]);
      PastTransitive(g, x, selected[y], y);
    }
  }

  /** Sort by interval start, by insertion. */
  method SortByStart(s: seq<BlockId>, iv: map<BlockId, Interval>) returns (r: seq<BlockId>)
    requires forall c :: c in s ==> c in iv
    ensures forall c :: c in r <==> c in s
    ensures forall i, j :: 0 <= i < j < |r| ==> iv[r[i]].lo <= iv[r[j]].lo
  {
    r := [];
    for i := 0 to |s|
      invariant forall c :: c in r <==> c in s[..i]
      invariant forall c :: c in r ==> c in iv
      invariant forall k, l :: 0 <= k < l < |r| ==> iv[r[k]].lo <= iv[r[l]].lo
    {
      assert s[..i + 1] == s[..i] + [s[i]];
      assert s[i] in s;
      var pos := 0;
      while pos < |r| && iv[r[pos]].lo <= iv[s[i]].lo
        invariant pos <= |r| && forall k :: 0 <= k < pos ==> iv[r[k]].lo <= iv[s[i]].lo
      {
        pos := pos + 1;
      }
      InsertMembers(r, pos, s[i], r[..pos] + [s[i]] + r[pos..]);
      r := r[..pos] + [s[i]] + r[pos..];
    }
    assert s[..|s|] == s;
  }

  /** The child lists after every block but those of `todo` was pushed. */
  ghost predicate Collected(
      g: Graph, selected: map<BlockId, BlockId>, kids: map<BlockId, seq<BlockId>>, todo: set<BlockId>) {
    && g.Keys - todo <= kids.Keys <= g.Keys
    && (forall x, c :: ListsChild(kids, x, c) ==> c in selected && selected[c] == x && c !in todo)
    && (forall c :: c in selected && c !in todo ==> ListsChild(kids, selected[c], c))
    && (forall x :: x in kids ==> Distinct(kids[x]))
  }

  function WithChild(kids: map<BlockId, seq<BlockId>>, x: BlockId, c: BlockId): map<BlockId, seq<BlockId>> {
    kids[x := (if x in kids then kids[x] else []) + [c]]
  }

  lemma WithChildFacts(lists: map<BlockId, seq<BlockId>>, p: BlockId, c: BlockId)
    ensures var lists' := WithChild(lists, p, c);
      && lists'.Keys == lists.Keys + {p}
      && (forall x, y :: ListsChild(lists', x, y) <==> ListsChild(lists, x, y) || (x == p && y == c))
      && (!ListsChild(lists, p, c) && (forall x :: x in lists ==> Distinct(lists[x])) ==>
          forall x :: x in lists' ==> Distinct(lists'[x]))
  {
    var lists' := WithChild(lists, p, c);
    var before := if p in lists then lists[p] else [];
    assert lists'[p] == before + [c] && forall y :: y in before + [c] <==> y in before || y == c;
  }

  lemma CollectStep(
      g: Graph, selected: map<BlockId, BlockId>, kids: map<BlockId, seq<BlockId>>, todo: set<BlockId>,
      id: BlockId, kids': map<BlockId, seq<BlockId>>)
    requires Collected(g, selected, kids, todo) && id in todo && id in g
    requires kids' == if id in kids then kids else kids[id := []]
    requires id in selected ==> selected[id] in g
    ensures Collected(g, selected, if id in selected then WithChild(kids', selected[id], id) else kids', todo - {id})
  {
    assert forall x, c :: ListsChild(kids', x, c) <==> ListsChild(kids, x, c);
    assert forall x :: x in kids' ==> Distinct(kids'[x]);
    hide WithChild, ListsChild, Distinct;
    if id in selected {
      WithChildFacts(kids', selected[id], id);
    }
  }

  /** Push every block into the child list of the parent it selects; then sort the lists. */
  method TreeChildren(g: Graph, genesis: BlockId, selected: map<BlockId, BlockId>) returns (kids: map<BlockId, seq<BlockId>>)
    requires Selects(g, genesis, selected)
    ensures InvertsSelection(g, selected, kids) && forall x :: x in kids ==> Ascending(kids[x])
  {
    kids := map[];
    var todo := g.Keys;
    assert Collected(g, selected, kids, todo);
    while todo != {}
      invariant Collected(g, selected, kids, todo) && todo <= g.Keys
    {
      hide Collected;
      var id :| id in todo;
      ghost var kids0, todo0 := kids, todo;
      todo := todo - {id};
      if id !in kids {
        kids := kids[id := []];
      }
      ghost var kids1 := kids;
      if id in selected {
        SelectedSmaller(g, genesis, selected, id);
        kids := WithChild(kids, selected[id], id);
      }
      CollectStep(g, selected, kids0, todo0, id, kids1);
    }
    kids := SortLists(g, selected, kids);
  }

  method SortLists(ghost g: Graph, ghost selected: map<BlockId, BlockId>, lists: map<BlockId, seq<BlockId>>)
    returns (kids: map<BlockId, seq<BlockId>>)
    requires InvertsSelection(g, selected, lists) && forall x :: x in lists ==> Distinct(lists[x])
    ensures InvertsSelection(g, selected, kids) && forall x :: x in kids ==> Ascending(kids[x])
  {
    kids := lists;
    var unsorted := kids.Keys;
    while unsorted != {}
      invariant InvertsSelection(g, selected, kids) && unsorted <= kids.Keys
      invariant forall x :: x in kids ==> if x in unsorted then Distinct(kids[x]) else Ascending(kids[x])
    {
      var x :| x in unsorted;
      unsorted := unsorted - {x};
      CanonicalAscends(kids[x]);
      var sorted := Canonical(kids[x]);
      ListSorted(g, selected, kids, x, sorted);
      kids := kids[x := sorted];
    }
  }

  lemma ListSorted(
      g: Graph, selected: map<BlockId, BlockId>, kids: map<BlockId, seq<BlockId>>, x: BlockId, sorted: seq<BlockId>)
    requires InvertsSelection(g, selected, kids) && x in kids && forall c :: c in sorted <==> c in kids[x]
    ensures InvertsSelection(g, selected, kids[x := sorted])
  {
    var kids' := kids[x := sorted];
    assert kids'.Keys == kids.Keys;
    assert forall p, c :: ListsChild(kids', p, c) <==> ListsChild(kids, p, c);
  }

  /** Push every block into the child list of each of its parents. */
  method DagChildren(g: Graph) returns (dagChildren: map<BlockId, seq<BlockId>>)
    ensures Inverts(g, dagChildren)
  {
    dagChildren := map[];
    var todo := g.Keys;
    while todo != {}
      invariant todo <= g.Keys && ListsOnlyChildren(g, dagChildren)
      invariant forall c, p :: c in g && c !in todo && p in g[c].parents ==> ListsChild(dagChildren, p, c)
    {
      hide ListsChild, ListsOnlyChildren;
      var id :| id in todo;
      todo := todo - {id};
      var parents := g[id].parents;
      ghost var before := dagChildren;
      for i := 0 to |parents|
        invariant ListsOnlyChildren(g, dagChildren)
        invariant forall p, c :: ListsChild(before, p, c) ==> ListsChild(dagChildren, p, c)
        invariant forall p :: p in parents[..i] ==> ListsChild(dagChildren, p, id)
      {
        var p := parents[i];
        assert p in parents && parents[..i + 1] == parents[..i] + [p];
        ListOneMore(g, dagChildren, p, id);
        dagChildren := WithChild(dagChildren, p, id);
      }
      assert parents[..|parents|] == parents;
    }
  }

  lemma ListOneMore(g: Graph, lists: map<BlockId, seq<BlockId>>, p: BlockId, id: BlockId)
    requires ListsOnlyChildren(g, lists) && id in g && p in g[id].parents
    ensures var lists' := WithChild(lists, p, id);
      && ListsOnlyChildren(g, lists') && ListsChild(lists', p, id)
      && forall x, c :: ListsChild(lists, x, c) ==> ListsChild(lists', x, c)
  {
    WithChildFacts(lists, p, id);
  }

  // -------------------------------------------------------- future-covering sets

  /** `c` is a tree root of the part of the future of `a` outside its subtree. */
  ghost predicate CoverRoot(g: Graph, selected: map<BlockId, BlockId>, t: Tree, a: BlockId, c: BlockId) {
    && c in Future(g, a) && !Under(t, a, c)
    && (c in selected ==> Under(t, a, selected[c]) || selected[c] !in Future(g, a))
  }

  /** Climbing the tree from a block of the future ends at a root covering it. */
  lemma {:induction false} ClimbToRoot(
      g: Graph, genesis: BlockId, selected: map<BlockId, BlockId>, t: Tree, a: BlockId, d: BlockId)
    returns (c: BlockId)
    requires Selects(g, genesis, selected) && Shape(t) && t.up == selected && t.kids.Keys == g.Keys
    requires d in Future(g, a) && !Under(t, a, d)
    ensures CoverRoot(g, selected, t, a, c) && Under(t, c, d)
    decreases t.depth[d]
  {
    if d in selected && !Under(t, a, selected[d]) && selected[d] in Future(g, a) {
      c := ClimbToRoot(g, genesis, selected, t, a, selected[d]);
    } else {
      c := d;
    }
  }

  /** The covering sets hold exactly the roots. */
  ghost predicate RootCovers(
      g: Graph, selected: map<BlockId, BlockId>, t: Tree, fcs: map<BlockId, seq<BlockId>>, a: BlockId) {
    forall c :: c in R.CoversOf(fcs, a) <==> CoverRoot(g, selected, t, a, c)
  }

  ghost function PastMap(g: Graph): map<BlockId, set<BlockId>> {
    map d | d in g :: Past(g, d)
  }

  lemma RootsReach(
      g: Graph, genesis: BlockId, selected: map<BlockId, BlockId>, t: Tree, fcs: map<BlockId, seq<BlockId>>,
      a: BlockId, d: BlockId)
    requires Selects(g, genesis, selected) && Shape(t) && t.up == selected && t.kids.Keys == g.Keys
    requires a in g && d in g && RootCovers(g, selected, t, fcs, a)
    ensures a in Past(g, d) <==> R.Reached(t, fcs, a, d)
  {
    if a in Past(g, d) {
      assert a != d;
      if !Under(t, a, d) {
        var c := ClimbToRoot(g, genesis, selected, t, a, d);
      }
    } else if a != d {
      if Under(t, a, d) {
        UnderIsPast(g, genesis, selected, t, a, d);
      } else if R.Covered(t, R.CoversOf(fcs, a), d) {
        var c :| c in R.CoversOf(fcs, a) && Under(t, c, d);
        assert CoverRoot(g, selected, t, a, c);
        if c != d {
          UnderIsPast(g, genesis, selected, t, c, d);
          PastTransitive(g, a, c, d);
        }
      }
    }
  }

  lemma RootsAreExact(
      g: Graph, genesis: BlockId, selected: map<BlockId, BlockId>, t: Tree, fcs: map<BlockId, seq<BlockId>>)
    requires Selects(g, genesis, selected) && Shape(t) && t.up == selected && t.kids.Keys == g.Keys
    requires fcs.Keys <= g.Keys && forall a :: a in g ==> RootCovers(g, selected, t, fcs, a)
    ensures R.Exact(t, fcs, PastMap(g))
  {
    hide Shape, Selects, Under, R.Reached;
    forall a, c | a in fcs && c in fcs[a]
      ensures c in t.kids
    {
      assert RootCovers(g, selected, t, fcs, a) && c in R.CoversOf(fcs, a);
      assert CoverRoot(g, selected, t, a, c);
    }
    hide RootCovers;
    forall a, d | a in t.kids && d in t.kids
      ensures a in PastMap(g)[d] <==> R.Reached(t, fcs, a, d)
    {
      RootsReach(g, genesis, selected, t, fcs, a, d);
    }
  }

  /** A tree descendant of a block of the future is in the future. */
  lemma FutureGoesUp(
      g: Graph, genesis: BlockId, selected: map<BlockId, BlockId>, t: Tree, a: BlockId, x: BlockId, y: BlockId)
    requires Selects(g, genesis, selected) && Shape(t) && t.up == selected && t.kids.Keys == g.Keys
    requires x in Future(g, a) && Under(t, x, y) && y in g
    ensures y in Future(g, a)
  {
    if x != y {
      UnderIsPast(g, genesis, selected, t, x, y);
      PastTransitive(g, a, x, y);
    }
  }

  lemma RootNotUnderOther(
      g: Graph, genesis: BlockId, selected: map<BlockId, BlockId>, t: Tree, a: BlockId, x: BlockId, c: BlockId)
    requires Selects(g, genesis, selected) && Shape(t) && t.up == selected && t.kids.Keys == g.Keys
    requires CoverRoot(g, selected, t, a, c) && x in Future(g, a) && x != c
    ensures !Under(t, x, c)
  {
    assert c in selected && Under(t, a, selected[c]) ==> Under(t, a, c);
    if Under(t, x, c) {
      FutureGoesUp(g, genesis, selected, t, a, x, selected[c]);
    }
  }

  /** Tree roots are minimal covers. */
  lemma RootsAreLean(
      g: Graph, genesis: BlockId, selected: map<BlockId, BlockId>, t: Tree, fcs: map<BlockId, seq<BlockId>>)
    requires Selects(g, genesis, selected) && Shape(t) && t.up == selected && t.kids.Keys == g.Keys
    requires forall a :: a in g ==> RootCovers(g, selected, t, fcs, a)
    ensures R.AllLean(t, fcs)
  {
    hide Shape, Selects, Under;
    forall a | a in t.kids
      ensures R.LeanAt(t, R.CoversOf(fcs, a), a)
    {
      assert RootCovers(g, selected, t, fcs, a);
      forall c, x | c in R.CoversOf(fcs, a) && x in R.CoversOf(fcs, a) && x != c
        ensures !Under(t, x, c)
      {
        RootNotUnderOther(g, genesis, selected, t, a, x, c);
      }
    }
  }

  lemma CoverIsFuture(g: Graph, t: Tree, fcs: map<BlockId, seq<BlockId>>, a: BlockId, c: BlockId)
    requires R.Exact(t, fcs, PastMap(g)) && t.kids.Keys == g.Keys && a in g && c in R.CoversOf(fcs, a)
    requires R.LeanAt(t, R.CoversOf(fcs, a), a)
    ensures c in Future(g, a)
  {
    assert Under(t, a, a) && Under(t, c, c);
    assert R.Reached(t, fcs, a, c);
  }

  /** Conversely, exact and minimal covers can only be the tree roots of the future. */
  lemma LeanAreRoots(
      g: Graph, genesis: BlockId, selected: map<BlockId, BlockId>, t: Tree, fcs: map<BlockId, seq<BlockId>>, a: BlockId)
    requires Selects(g, genesis, selected) && Shape(t) && t.up == selected && t.kids.Keys == g.Keys && a in g
    requires R.Exact(t, fcs, PastMap(g)) && R.LeanAt(t, R.CoversOf(fcs, a), a)
    ensures RootCovers(g, selected, t, fcs, a)
  {
    hide R.Exact, Selects, RootCovers;
    var covers := R.CoversOf(fcs, a);
    forall c | c in covers
      ensures CoverRoot(g, selected, t, a, c)
    {
      CoverIsRoot(g, genesis, selected, t, fcs, a, c);
    }
    forall c | CoverRoot(g, selected, t, a, c)
      ensures c in covers
    {
      RootIsCover(g, genesis, selected, t, fcs, a, c);
    }
    assert RootCovers(g, selected, t, fcs, a) by {
      RootCoversIff(g, selected, t, fcs, a);
    }
  }

  lemma RootCoversIff(
      g: Graph, selected: map<BlockId, BlockId>, t: Tree, fcs: map<BlockId, seq<BlockId>>, a: BlockId)
    requires forall c :: c in R.CoversOf(fcs, a) ==> CoverRoot(g, selected, t, a, c)
    requires forall c :: CoverRoot(g, selected, t, a, c) ==> c in R.CoversOf(fcs, a)
    ensures RootCovers(g, selected, t, fcs, a)
  {
    hide CoverRoot;
  }

  lemma CoverIsRoot(
      g: Graph, genesis: BlockId, selected: map<BlockId, BlockId>, t: Tree, fcs: map<BlockId, seq<BlockId>>,
      a: BlockId, c: BlockId)
    requires Selects(g, genesis, selected) && Shape(t) && t.up == selected && t.kids.Keys == g.Keys && a in g
    requires R.Exact(t, fcs, PastMap(g)) && R.LeanAt(t, R.CoversOf(fcs, a), a) && c in R.CoversOf(fcs, a)
    ensures CoverRoot(g, selected, t, a, c)
  {
    CoverIsFuture(g, t, fcs, a, c);
    if c in selected && selected[c] in Future(g, a) && !Under(t, a, selected[c]) {
      var up := selected[c];
      assert R.Reached(t, fcs, a, up);
      var x :| x in R.CoversOf(fcs, a) && Under(t, x, up);
      UnderStaysInTree(t, x, up);
      assert Under(t, x, c);
    }
  }

  lemma RootIsCover(
      g: Graph, genesis: BlockId, selected: map<BlockId, BlockId>, t: Tree, fcs: map<BlockId, seq<BlockId>>,
      a: BlockId, c: BlockId)
    requires Selects(g, genesis, selected) && Shape(t) && t.up == selected && t.kids.Keys == g.Keys && a in g
    requires R.Exact(t, fcs, PastMap(g)) && R.LeanAt(t, R.CoversOf(fcs, a), a) && CoverRoot(g, selected, t, a, c)
    ensures c in R.CoversOf(fcs, a)
  {
    assert R.Reached(t, fcs, a, c);
    var x :| x in R.CoversOf(fcs, a) && Under(t, x, c);
    CoverIsFuture(g, t, fcs, a, x);
    if x != c {
      RootNotUnderOther(g, genesis, selected, t, a, x, c);
    }
  }

  // ------------------------------------------------------------ one oracle per graph

  lemma {:induction false} SameUnder(t: Tree, u: Tree, x: BlockId, y: BlockId)
    requires Shape(t) && Shape(u) && t.up == u.up && t.kids.Keys == u.kids.Keys && y in t.kids
    ensures Under(t, x, y) <==> Under(u, x, y)
    decreases t.depth[y]
  {
    if y in t.up {
      SameUnder(t, u, x, t.up[y]);
    }
  }

  /** The child lists follow from the parents alone. */
  lemma SameKids(t: Tree, u: Tree)
    requires Shape(t) && Shape(u) && t.up == u.up && t.kids.Keys == u.kids.Keys
    ensures t.kids == u.kids
  {
    forall x | x in t.kids
      ensures t.kids[x] == u.kids[x]
    {
      forall c
        ensures c in t.kids[x] <==> c in u.kids[x]
      {
        assert c in t.kids[x] ==> ChildOf(t, c, x);
        assert c in u.kids[x] ==> ChildOf(u, c, x);
      }
      AscendingUnique(t.kids[x], u.kids[x]);
    }
  }

  lemma SameRoots(g: Graph, selected: map<BlockId, BlockId>, t: Tree, u: Tree, a: BlockId, c: BlockId)
    requires Shape(t) && Shape(u) && t.up == u.up == selected && t.kids.Keys == u.kids.Keys == g.Keys
    ensures CoverRoot(g, selected, t, a, c) ==> CoverRoot(g, selected, u, a, c)
  {
    if CoverRoot(g, selected, t, a, c) {
      SameUnder(t, u, a, c);
      if c in selected {
        SameUnder(t, u, a, selected[c]);
      }
    }
  }

  lemma ContainsIsUnder(t: Tree, iv: map<BlockId, Interval>, nf: map<BlockId, u64>, x: BlockId, y: BlockId)
    requires Shape(t) && LaidOut(t, iv, nf) && x in t.kids && y in t.kids
    ensures Contains(iv, x, y) <==> Under(t, x, y)
  {
    LabelsDecideSubtree(t, iv, nf, x, y);
  }

  /** The filter: outside the subtree of `a`, with a tree parent that is no candidate. */
  predicate IsRoot(
      iv: map<BlockId, Interval>, selected: map<BlockId, BlockId>, future: set<BlockId>, a: BlockId, c: BlockId) {
    !Contains(iv, a, c) && (c in selected ==> Contains(iv, a, selected[c]) || selected[c] !in future)
  }

  lemma IsRootExact(
      g: Graph, genesis: BlockId, selected: map<BlockId, BlockId>, iv: map<BlockId, Interval>, a: BlockId,
      t: Tree, nf: map<BlockId, u64>, c: BlockId)
    requires Selects(g, genesis, selected) && Shape(t) && t.up == selected && t.kids.Keys == g.Keys
    requires LaidOut(t, iv, nf) && a in g && c in Future(g, a)
    ensures IsRoot(iv, selected, Future(g, a), a, c) <==> CoverRoot(g, selected, t, a, c)
  {
    hide Shape, LaidOut, Under;
    ContainsIsUnder(t, iv, nf, a, c);
    if c in selected {
      SelectedSmaller(g, genesis, selected, c);
      ContainsIsUnder(t, iv, nf, a, selected[c]);
    }
  }

  method FilterRoots(
      selected: map<BlockId, BlockId>, iv: map<BlockId, Interval>, a: BlockId, future: set<BlockId>)
    returns (covers: seq<BlockId>)
    ensures forall c :: c in covers <==> c in future && IsRoot(iv, selected, future, a, c)
  {
    hide IsRoot;
    covers := [];
    var todo := future;
    while todo != {}
      invariant todo <= future
      invariant forall c :: c in covers <==> c in future && c !in todo && IsRoot(iv, selected, future, a, c)
    {
      var c :| c in todo;
      todo := todo - {c};
      if IsRoot(iv, selected, future, a, c) {
        covers := covers + [c];
      }
    }
  }

  /** Keep the tree roots of the future outside the subtree, ordered by label. */
  method Covers(
      ghost g: Graph, ghost genesis: BlockId, selected: map<BlockId, BlockId>, iv: map<BlockId, Interval>, a: BlockId,
      future: set<BlockId>, ghost t: Tree, ghost nf: map<BlockId, u64>)
    returns (covers: seq<BlockId>)
    requires Selects(g, genesis, selected) && Shape(t) && t.up == selected && t.kids.Keys == g.Keys
    requires LaidOut(t, iv, nf) && a in g && future == Future(g, a)
    ensures forall c :: c in covers <==> CoverRoot(g, selected, t, a, c)
  {
    assert future <= iv.Keys;
    assert forall c :: CoverRoot(g, selected, t, a, c) ==> c in future;
    hide Selects, Shape, LaidOut, Under, Future, CoverRoot, IsRoot;
    covers := FilterRoots(selected, iv, a, future);
    forall c | c in future
      ensures IsRoot(iv, selected, future, a, c) <==> CoverRoot(g, selected, t, a, c)
    {
      IsRootExact(g, genesis, selected, iv, a, t, nf, c);
    }
    covers := SortByStart(covers, iv);
  }

  /** A covering set for every block that has one. */
  method BuildFcs(
      g: Graph, ghost genesis: BlockId, selected: map<BlockId, BlockId>, iv: map<BlockId, Interval>,
      ghost t: Tree, ghost nf: map<BlockId, u64>)
    returns (fcs: map<BlockId, seq<BlockId>>)
    requires Selects(g, genesis, selected) && Shape(t) && t.up == selected && t.kids.Keys == g.Keys
    requires LaidOut(t, iv, nf)
    ensures fcs.Keys <= g.Keys && forall a :: a in g ==> RootCovers(g, selected, t, fcs, a)
  {
    hide Selects, Shape, LaidOut, Under, CoverRoot, Inverts;
    var dagChildren := DagChildren(g);
    fcs := map[];
    var todo := g.Keys;
    while todo != {}
      invariant todo <= g.Keys && fcs.Keys <= g.Keys - todo
      invariant forall a :: a in g - todo ==> RootCovers(g, selected, t, fcs, a)
    {
      var a :| a in todo;
      todo := todo - {a};
      var future := FutureOf(g, dagChildren, a);
      var covers := Covers(g, genesis, selected, iv, a, future, t, nf);
      ghost var before := fcs;
      if covers != [] {
        fcs := fcs[a := covers];
      }
      forall b | b in g - todo && b != a
        ensures RootCovers(g, selected, t, fcs, b)
      {
        assert RootCovers(g, selected, t, before, b);
      }
    }
  }

  /** Child lists and sizes of the selected-parent tree. */
  method BuildTree(g: Graph, genesis: BlockId, selected: map<BlockId, BlockId>)
    returns (kids: map<BlockId, seq<BlockId>>, sizes: map<BlockId, u64>, ghost t: Tree)
    requires Selects(g, genesis, selected) && |g| < ROOT_CAPACITY as nat
    ensures Shape(t) && t == Tree(genesis, selected, kids, t.depth) && kids.Keys == g.Keys
    ensures Sized(t, sizes) && genesis in sizes && sizes[genesis] as nat == |PastMap(g)| && |g| == |PastMap(g)|
  {
    kids := TreeChildren(g, genesis, selected);
    t := TreeOver(g, genesis, selected, kids);
    TreeOverShape(g, genesis, selected, kids);
    SameCount(kids, g);
    hide Shape, Sized, Selects, DepthOf;
    sizes := SubtreeSizes(genesis, kids, t);
  }

  /** The oracle of a whole graph, from scratch. */
  method Build(g: Graph, genesis: BlockId, selected: map<BlockId, BlockId>) returns (r: R.Reachability)
    requires Selects(g, genesis, selected) && |g| < ROOT_CAPACITY as nat
    ensures fresh(r) && r.Valid() && r.root == genesis && r.treeParent == selected && r.past == PastMap(g)
  {
    hide Shape, Sized, LaidOut, Selects, PastMap, RootCovers, R.Exact, R.AllLean;
    var kids, sizes, t := BuildTree(g, genesis, selected);
    r := new R.Reachability.Seed(genesis, kids, selected, sizes, t.depth);
    r.RelayoutWhole(genesis);
    var fcs := BuildFcs(g, genesis, selected, r.intervals, t, r.nextFree);
    RootsAreExact(g, genesis, selected, t, fcs);
    RootsAreLean(g, genesis, selected, t, fcs);
    r.Install(fcs, PastMap(g));
  }

  lemma SameCount(kids: map<BlockId, seq<BlockId>>, g: Graph)
    requires kids.Keys == g.Keys
    ensures |kids| == |g| == |PastMap(g)|
  {
    assert |kids| == |kids.Keys| && |g| == |g.Keys|;
    assert PastMap(g).Keys == g.Keys && |PastMap(g)| == |PastMap(g).Keys|;
  }

  /** The oracle stands for this graph and this choice of selected parents. */
  ghost predicate Serves(r: R.Reachability, g: Graph, genesis: BlockId, selected: map<BlockId, BlockId>)
    reads r
  {
    r.Valid() && r.root == genesis && r.treeParent == selected && r.past == PastMap(g)
  }

  lemma CoversAreRoots(
      r: R.Reachability, g: Graph, genesis: BlockId, selected: map<BlockId, BlockId>, a: BlockId)
    requires Selects(g, genesis, selected) && Serves(r, g, genesis, selected)
    ensures r.treeChildren.Keys == g.Keys && Shape(r.TreeOf())
    ensures a in g ==> RootCovers(g, selected, r.TreeOf(), r.fcs, a)
    ensures a !in g ==> R.CoversOf(r.fcs, a) == []
  {
    hide Shape, Sized, LaidOut, Selects, RootCovers, R.LeanAt;
    if a in g {
      LeanAreRoots(g, genesis, selected, r.TreeOf(), r.fcs, a);
    }
  }

  lemma SameCovers(
      r1: R.Reachability, r2: R.Reachability, g: Graph, genesis: BlockId, selected: map<BlockId, BlockId>,
      a: BlockId, c: BlockId)
    requires Selects(g, genesis, selected) && Serves(r1, g, genesis, selected) && Serves(r2, g, genesis, selected)
    ensures c in R.CoversOf(r1.fcs, a) <==> c in R.CoversOf(r2.fcs, a)
  {
    hide Shape, Selects, CoverRoot, R.Reachability.Valid;
    CoversAreRoots(r1, g, genesis, selected, a);
    CoversAreRoots(r2, g, genesis, selected, a);
    if a in g {
      SameRoots(g, selected, r1.TreeOf(), r2.TreeOf(), a, c);
      SameRoots(g, selected, r2.TreeOf(), r1.TreeOf(), a, c);
    }
  }

  lemma SameChildren(
      r1: R.Reachability, r2: R.Reachability, g: Graph, genesis: BlockId, selected: map<BlockId, BlockId>)
    requires Selects(g, genesis, selected) && Serves(r1, g, genesis, selected) && Serves(r2, g, genesis, selected)
    ensures r1.treeChildren == r2.treeChildren
  {
    hide Shape, Sized, LaidOut, Selects, RootCovers, R.Exact, R.AllLean;
    CoversAreRoots(r1, g, genesis, selected, genesis);
    CoversAreRoots(r2, g, genesis, selected, genesis);
    SameKids(r1.TreeOf(), r2.TreeOf());
  }

  lemma SameAnswers(r1: R.Reachability, r2: R.Reachability, a: BlockId, d: BlockId)
    requires r1.Valid() && r2.Valid() && r1.past == r2.past
    ensures r1.IsAncestor(a, d) == r2.IsAncestor(a, d)
  {
    hide Shape, Sized, LaidOut, R.Exact, R.AllLean;
    r1.IsAncestorExact(a, d);
    r2.IsAncestorExact(a, d);
  }

  lemma ServesParts(r: R.Reachability, g: Graph, genesis: BlockId, selected: map<BlockId, BlockId>)
    requires Serves(r, g, genesis, selected)
    ensures r.Valid() && r.past == PastMap(g)
  {
  }

  /** Any two oracles of one graph, however they were maintained, have the same tree and the
      same covers, and answer every query alike. Only their labels may differ. */
  lemma OraclesAgree(
      r1: R.Reachability, r2: R.Reachability, g: Graph, genesis: BlockId, selected: map<BlockId, BlockId>)
    requires Selects(g, genesis, selected) && Serves(r1, g, genesis, selected) && Serves(r2, g, genesis, selected)
    ensures r1.treeChildren == r2.treeChildren
    ensures forall a, c :: c in R.CoversOf(r1.fcs, a) <==> c in R.CoversOf(r2.fcs, a)
    ensures forall a, d :: r1.IsAncestor(a, d) == r2.IsAncestor(a, d)
  {
    hide Selects, Serves, R.CoversOf, R.Reachability.Valid, R.Reachability.IsAncestor, PastMap;
    SameChildren(r1, r2, g, genesis, selected);
    ServesParts(r1, g, genesis, selected);
    ServesParts(r2, g, genesis, selected);
    forall a, c
      ensures c in R.CoversOf(r1.fcs, a) <==> c in R.CoversOf(r2.fcs, a)
    {
      SameCovers(r1, r2, g, genesis, selected, a, c);
    }
    forall a, d
      ensures r1.IsAncestor(a, d) == r2.IsAncestor(a, d)
    {
      SameAnswers(r1, r2, a, d);
    }
  }
}
