/** Headers-first sync: Kahn's sort of a header set, and the guarantee it gives the
    inserts that follow. */
module HeaderSort {
  import opened BlockGraph
  import opened Blocks
  import opened Consensus
  import opened HeaderOrder
  import opened Runs
  import opened SortedIds

  /** The headers by id: of several with one id, the last. */
  function ById(headers: seq<Header>): (h: Headers)
    ensures forall x :: x in headers ==> x.id in h
    ensures Keyed(h) && forall id :: id in h ==> h[id] in headers
  {
    if headers == [] then map[]
    else ById(headers[..|headers| - 1])[headers[|headers| - 1].id := headers[|headers| - 1]]
  }

  /** A header is stored under its id unless a later one has the same. */
  lemma {:induction false} LastOfIdStays(headers: seq<Header>, i: nat)
    requires i < |headers| && forall j :: i < j < |headers| ==> headers[j].id != headers[i].id
    ensures headers[i].id in ById(headers) && ById(headers)[headers[i].id] == headers[i]
  {
    if i < |headers| - 1 {
      LastOfIdStays(headers[..|headers| - 1], i);
    }
  }

  function GraphIn(h: Headers): Graph {
    map id | id in h :: Vertex(h[id].parents, h[id].work as nat, h[id].timestampMs as nat)
  }

  ghost predicate Acyclic(h: Headers) {
    forall id :: id in h ==> !Ancestor(GraphIn(h), id, id)
  }

  ghost predicate Earlier(out: seq<Header>, i: nat, p: BlockId)
    requires i <= |out|
  {
    exists j :: 0 <= j < i && out[j].id == p
  }

  /** Every header comes after all of its parents that are in the set. */
  ghost predicate ParentsFirst(h: Headers, out: seq<Header>) {
    forall i, p :: 0 <= i < |out| && p in out[i].parents && p in h ==> Earlier(out, i, p)
  }

  /** `out` lists the headers with ids in `s`, each once. */
  ghost predicate Lists(h: Headers, out: seq<Header>, s: set<BlockId>) {
    && (forall i :: 0 <= i < |out| ==> out[i].id in s && out[i].id in h && out[i] == h[out[i].id])
    && (forall i, j :: 0 <= i < j < |out| ==> out[i].id != out[j].id)
    && (forall id :: id in s ==> Earlier(out, |out|, id))
  }

  // -------------------------------------------------------- counting unmet parents

  /** How many of the listed parents are in `s`, with repetition. */
  function Pending(parents: seq<BlockId>, s: set<BlockId>): nat {
    if parents == [] then 0
    else Pending(parents[..|parents| - 1], s) + if parents[|parents| - 1] in s then 1 else 0
  }

  lemma {:induction false} PendingZero(parents: seq<BlockId>, s: set<BlockId>)
    ensures Pending(parents, s) == 0 <==> forall p :: p in parents ==> p !in s
  {
    if parents != [] {
      var front, last := parents[..|parents| - 1], parents[|parents| - 1];
      assert parents == front + [last];
      PendingZero(front, s);
    }
  }

  /** Emitting `x` settles each of its occurrences. */
  lemma {:induction false} PendingLess(parents: seq<BlockId>, s: set<BlockId>, x: BlockId)
    requires x in s
    ensures Pending(parents, s) == Pending(parents, s - {x}) + Count(parents, x)
  {
    if parents != [] {
      PendingLess(parents[..|parents| - 1], s, x);
    }
  }

  type Kids = map<BlockId, seq<BlockId>>

  function KidsOf(children: Kids, p: BlockId): seq<BlockId> {
    if p in children then children[p] else []
  }

  /** The child lists hold one entry per parent reference inside the set. */
  ghost predicate EdgesOf(h: Headers, children: Kids) {
    forall p, c :: Count(KidsOf(children, p), c) == References(h, p, c)
  }

  /** The child lists are those of the headers visited so far, in that order. */
  ghost predicate ListsKids(h: Headers, children: Kids, order: seq<BlockId>) {
    forall p :: KidsOf(children, p) == KidList(h, order, p)
  }

  /** And `id` is listed once per reference in `front`. */
  ghost predicate ListsPlus(h: Headers, children: Kids, order: seq<BlockId>, id: BlockId, front: seq<BlockId>) {
    forall p :: KidsOf(children, p) == KidList(h, order, p) + Repeated(id, if p in h then Count(front, p) else 0)
  }

  ghost predicate CountsOf(h: Headers, indegree: map<BlockId, nat>, s: set<BlockId>) {
    indegree.Keys <= h.Keys && forall c :: c in indegree ==> indegree[c] == Pending(h[c].parents, s)
  }

  // --------------------------------------------------------------- building edges

  method BuildEdges(h: Headers) returns (children: Kids, indegree: map<BlockId, nat>, ghost order: seq<BlockId>)
    ensures Visits(h, order) && ListsKids(h, children, order)
    ensures EdgesOf(h, children) && CountsOf(h, indegree, h.Keys) && indegree.Keys == h.Keys
  {
    hide EdgesOf, ListsKids, ListsPlus, CountsOf, VisitedBut, Pending, KidsOf;
    children, indegree, order := map[], map[], [];
    NoKids(h);
    NothingVisited(h);
    var todo := h.Keys;
    while todo != {}
      invariant todo <= h.Keys && VisitedBut(h, order, todo)
      invariant ListsKids(h, children, order)
      invariant CountsOf(h, indegree, h.Keys) && indegree.Keys == h.Keys - todo
    {
      var id :| id in todo;
      OneMoreVisited(h, order, todo, id);
      todo := todo - {id};
      var parents, count := h[id].parents, 0;
      PendingNone(h.Keys);
      KidsStart(h, children, order, id);
      for i := 0 to |parents|
        invariant ListsPlus(h, children, order, id, parents[..i]) && count == Pending(parents[..i], h.Keys)
      {
        var p := parents[i];
        assert parents[..i + 1] == parents[..i] + [p];
        PendingNext(parents[..i], p, h.Keys);
        KidsNext(h, children, order, id, parents[..i], p);
        if p in h {
          children := children[p := KidsOf(children, p) + [id]];
          count := count + 1;
        }
      }
      assert parents[..|parents|] == parents;
      KidsDone(h, children, order, id);
      CountedNext(h, indegree, id, count);
      order := order + [id];
      indegree := indegree[id := count];
    }
    AllVisited(h, order);
    ListedEdges(h, children, order);
  }

  /** All but those still to come were visited. */
  ghost predicate VisitedBut(h: Headers, order: seq<BlockId>, todo: set<BlockId>) {
    Distinct(order) && forall id :: id in order <==> id in h && id !in todo
  }

  lemma NothingVisited(h: Headers)
    ensures VisitedBut(h, [], h.Keys) && CountsOf(h, map[], h.Keys)
  {
  }

  lemma OneMoreVisited(h: Headers, order: seq<BlockId>, todo: set<BlockId>, id: BlockId)
    requires VisitedBut(h, order, todo) && id in h && id in todo
    ensures VisitedBut(h, order + [id], todo - {id})
  {
    assert id !in order;
    assert forall x :: x in order + [id] <==> x in order || x == id;
  }

  lemma AllVisited(h: Headers, order: seq<BlockId>)
    requires VisitedBut(h, order, {})
    ensures Visits(h, order)
  {
  }

  lemma PendingNone(s: set<BlockId>)
    ensures Pending([], s) == 0
  {
  }

  lemma PendingNext(front: seq<BlockId>, p: BlockId, s: set<BlockId>)
    ensures Pending(front + [p], s) == Pending(front, s) + if p in s then 1 else 0
  {
    assert (front + [p])[..|front|] == front;
  }

  lemma CountedNext(h: Headers, indegree: map<BlockId, nat>, id: BlockId, count: nat)
    requires CountsOf(h, indegree, h.Keys) && id in h && count == Pending(h[id].parents, h.Keys)
    ensures CountsOf(h, indegree[id := count], h.Keys)
  {
    hide Pending;
  }

  lemma NoKids(h: Headers)
    ensures ListsKids(h, map[], [])
  {
  }

  lemma KidsStart(h: Headers, children: Kids, order: seq<BlockId>, id: BlockId)
    requires ListsKids(h, children, order)
    ensures ListsPlus(h, children, order, id, [])
  {
    assert forall p :: KidList(h, order, p) + [] == KidList(h, order, p) && Count([], p) == 0;
  }

  lemma KidsNext(h: Headers, children: Kids, order: seq<BlockId>, id: BlockId, front: seq<BlockId>, p: BlockId)
    requires ListsPlus(h, children, order, id, front)
    ensures ListsPlus(h, if p in h then children[p := KidsOf(children, p) + [id]] else children, order, id, front + [p])
  {
    hide KidList, Count;
    var children' := if p in h then children[p := KidsOf(children, p) + [id]] else children;
    forall q
      ensures KidsOf(children', q) ==
        KidList(h, order, q) + Repeated(id, if q in h then Count(front + [p], q) else 0)
    {
      CountAppend(front, p, q);
      assert KidsOf(children, q) == KidList(h, order, q) + Repeated(id, if q in h then Count(front, q) else 0);
    }
  }

  lemma KidsDone(h: Headers, children: Kids, order: seq<BlockId>, id: BlockId)
    requires id in h && ListsPlus(h, children, order, id, h[id].parents)
    ensures ListsKids(h, children, order + [id])
  {
    hide Count, Repeated;
    assert (order + [id])[..|order|] == order;
  }

  lemma ListedEdges(h: Headers, children: Kids, order: seq<BlockId>)
    requires Visits(h, order) && ListsKids(h, children, order)
    ensures EdgesOf(h, children)
  {
    forall p, c
      ensures Count(KidsOf(children, p), c) == References(h, p, c)
    {
      KidCount(h, order, p, c);
    }
  }

  // ------------------------------------------------------------------- emitting

  /** What holds between two emissions. */
  ghost predicate Sorting(
      h: Headers, children: Kids, indegree: map<BlockId, nat>, ready: seq<BlockId>, done: set<BlockId>,
      out: seq<Header>) {
    && Keyed(h) && EdgesOf(h, children) && CountsOf(h, indegree, h.Keys - done) && indegree.Keys == h.Keys
    && Ready(indegree, ready, done) && Lists(h, out, done) && ParentsFirst(h, out) && Settled(indegree, done)
  }

  /** The ready list: the headers with no unmet parent that were not emitted. */
  ghost predicate Ready(indegree: map<BlockId, nat>, ready: seq<BlockId>, done: set<BlockId>) {
    && (forall i, j :: 0 <= i < j < |ready| ==> ready[i] != ready[j])
    && (forall c :: c in ready <==> c in indegree && c !in done && indegree[c] == 0)
  }

  ghost predicate Settled(indegree: map<BlockId, nat>, done: set<BlockId>) {
    forall c :: c in done ==> c in indegree && indegree[c] == 0
  }

  /** While the children of `id` are visited: the references still to subtract are `left`. */
  ghost predicate Subtracting(
      h: Headers, indegree: map<BlockId, nat>, ready: seq<BlockId>, done: set<BlockId>, left: seq<BlockId>) {
    && indegree.Keys == h.Keys && Ready(indegree, ready, done) && Settled(indegree, done)
    && (forall c :: c in left ==> c in h)
    && forall c :: c in h ==> indegree[c] == Pending(h[c].parents, h.Keys - done) + Count(left, c)
  }

  lemma SubtractStart(
      h: Headers, children: Kids, indegree: map<BlockId, nat>, front: seq<BlockId>, id: BlockId, done: set<BlockId>,
      out: seq<Header>)
    requires Sorting(h, children, indegree, front + [id], done, out)
    ensures id in h && id !in done
    ensures Subtracting(h, indegree, front, done + {id}, KidsOf(children, id))
    ensures Lists(h, out + [h[id]], done + {id}) && ParentsFirst(h, out + [h[id]])
  {
    var ready := front + [id];
    assert ready[|front|] == id && id in ready;
    ReadyWithout(indegree, front, id, done);
    var left := KidsOf(children, id);
    hide ParentsFirst, Lists, Ready;
    forall c | c in left
      ensures c in h
    {
      CountListed(left, c);
      assert Count(left, c) == References(h, id, c);
    }
    forall c | c in h
      ensures indegree[c] == Pending(h[c].parents, h.Keys - (done + {id})) + Count(left, c)
    {
      assert h.Keys - (done + {id}) == (h.Keys - done) - {id};
      PendingLess(h[c].parents, h.Keys - done, id);
      assert Count(left, c) == References(h, id, c);
    }
    PendingZero(h[id].parents, h.Keys - done);
    EmitKeepsOrder(h, out, id, done);
  }

  lemma ReadyWithout(indegree: map<BlockId, nat>, front: seq<BlockId>, id: BlockId, done: set<BlockId>)
    requires Ready(indegree, front + [id], done)
    ensures Ready(indegree, front, done + {id}) && id in indegree && indegree[id] == 0 && id !in done
  {
    var ready := front + [id];
    assert ready[|front|] == id && id in ready;
    forall i | 0 <= i < |front|
      ensures front[i] == ready[i] && front[i] != id
    {
      assert ready[i] != ready[|front|];
    }
    forall c | c in front
      ensures c in ready && c != id
    {
      var i :| 0 <= i < |front| && front[i] == c;
      assert ready[i] == c;
    }
  }

  lemma EmitKeepsOrder(h: Headers, out: seq<Header>, id: BlockId, done: set<BlockId>)
    requires Lists(h, out, done) && ParentsFirst(h, out) && id in h && id !in done && h[id].id == id
    requires forall p :: p in h[id].parents ==> p !in h.Keys - done
    ensures Lists(h, out + [h[id]], done + {id}) && ParentsFirst(h, out + [h[id]])
  {
    var out' := out + [h[id]];
    forall i, p | 0 <= i <= |out| && Earlier(out, i, p)
      ensures Earlier(out', i, p)
    {
      var j :| 0 <= j < i && out[j].id == p;
      assert out'[j].id == p;
    }
    assert out'[|out|].id == id && Earlier(out', |out| + 1, id);
    forall x | x in done
      ensures Earlier(out', |out'|, x)
    {
      assert Earlier(out', |out|, x);
    }
    forall i, p | 0 <= i < |out'| && p in out'[i].parents && p in h
      ensures Earlier(out', i, p)
    {
      if i < |out| {
        assert Earlier(out, i, p);
      } else {
        assert p in done;
      }
    }
  }

  lemma {:induction false} CountFront(x: BlockId, s: seq<BlockId>, y: BlockId)
    ensures Count([x] + s, y) == Count(s, y) + if x == y then 1 else 0
  {
    if s == [] {
      assert [x] + s == [] + [x];
      CountAppend([], x, y);
    } else {
      var front, last := s[..|s| - 1], s[|s| - 1];
      assert [x] + s == ([x] + front) + [last] && s == front + [last];
      CountFront(x, front, y);
      CountAppend([x] + front, last, y);
      CountAppend(front, last, y);
    }
  }

  lemma SubtractStep(
      h: Headers, indegree: map<BlockId, nat>, ready: seq<BlockId>, done: set<BlockId>, kid: BlockId, rest: seq<BlockId>)
    requires Subtracting(h, indegree, ready, done, [kid] + rest)
    ensures kid in indegree && indegree[kid] > 0
    ensures var degree := indegree[kid] - 1;
      Subtracting(h, indegree[kid := degree], if degree == 0 then ready + [kid] else ready, done, rest)
  {
    hide Count, Pending;
    var left := [kid] + rest;
    assert left[0] == kid && kid in left && forall c :: c in rest ==> c in left;
    forall c
      ensures Count(left, c) == Count(rest, c) + if c == kid then 1 else 0
    {
      CountFront(kid, rest, c);
    }
    assert kid !in ready && kid !in done;
    assert forall c :: c in ready + [kid] <==> c in ready || c == kid;
  }

  lemma SubtractEnd(
      h: Headers, children: Kids, indegree: map<BlockId, nat>, ready: seq<BlockId>, done: set<BlockId>, out: seq<Header>)
    requires Keyed(h) && EdgesOf(h, children) && Subtracting(h, indegree, ready, done, [])
    requires Lists(h, out, done) && ParentsFirst(h, out)
    ensures Sorting(h, children, indegree, ready, done, out)
  {
    hide EdgesOf, Lists, ParentsFirst;
  }

  /** The headers with no parent in the set, in id order. */
  method Roots(indegree: map<BlockId, nat>) returns (ready: seq<BlockId>)
    ensures Ready(indegree, ready, {}) && Ascending(ready)
  {
    ready := [];
    var todo := indegree.Keys;
    while todo != {}
      invariant todo <= indegree.Keys
      invariant forall c :: c in ready <==> c in indegree && c !in todo && indegree[c] == 0
    {
      var c :| c in todo;
      todo := todo - {c};
      if indegree[c] == 0 {
        ready := ready + [c];
      }
    }
    CanonicalAscends(ready);
    ready := Canonical(ready);
    AscendingDistinct(ready);
  }

  lemma SortingStart(h: Headers, children: Kids, indegree: map<BlockId, nat>, ready: seq<BlockId>)
    requires Keyed(h) && EdgesOf(h, children) && CountsOf(h, indegree, h.Keys) && indegree.Keys == h.Keys
    requires Ready(indegree, ready, {})
    ensures Sorting(h, children, indegree, ready, {}, [])
  {
    hide EdgesOf;
    assert h.Keys - {} == h.Keys;
  }

  /** One reference less for every listed child; those with none left become ready. */
  method SettleKids(
      ghost h: Headers, indegree: map<BlockId, nat>, ready: seq<BlockId>, ghost done: set<BlockId>, kids: seq<BlockId>)
    returns (indegree': map<BlockId, nat>, ready': seq<BlockId>)
    requires Subtracting(h, indegree, ready, done, kids)
    ensures Subtracting(h, indegree', ready', done, [])
    ensures ready' == ready + Settling(indegree, kids)
  {
    hide Subtracting, Settling, Reduced;
    indegree', ready' := indegree, ready;
    assert kids[0..] == kids && kids[..0] == [];
    SettlingNothing(indegree);
    assert ready + [] == ready;
    for i := 0 to |kids|
      invariant Subtracting(h, indegree', ready', done, kids[i..])
      invariant ready' == ready + Settling(indegree, kids[..i]) && Reduced(indegree, indegree', kids[..i])
    {
      var kid := kids[i];
      assert kids[i..] == [kid] + kids[i + 1..] && kids[..i + 1] == kids[..i] + [kid];
      SubtractStep(h, indegree', ready', done, kid, kids[i + 1..]);
      SettlingNext(indegree, indegree', kids[..i], kid);
      var degree := indegree'[kid] - 1;
      indegree' := indegree'[kid := degree];
      if degree == 0 {
        ready' := ready' + [kid];
      }
    }
    assert kids[|kids|..] == [] && kids[..|kids|] == kids;
  }

  /** The listed kids that lose their last reference, when they do. */
  ghost function Settling(indegree: map<BlockId, nat>, kids: seq<BlockId>): seq<BlockId> {
    if kids == [] then []
    else
      var front, last := kids[..|kids| - 1], kids[|kids| - 1];
      Settling(indegree, front) + (if last in indegree && Count(kids, last) == indegree[last] then [last] else [])
  }

  /** Every kid has lost as many references as it is listed. */
  ghost predicate Reduced(indegree: map<BlockId, nat>, indegree': map<BlockId, nat>, kids: seq<BlockId>) {
    indegree'.Keys == indegree.Keys && forall c :: c in indegree ==> indegree[c] == indegree'[c] + Count(kids, c)
  }

  lemma SettlingNothing(indegree: map<BlockId, nat>)
    ensures Settling(indegree, []) == [] && Reduced(indegree, indegree, [])
  {
  }

  lemma SettlingNext(indegree: map<BlockId, nat>, indegree': map<BlockId, nat>, front: seq<BlockId>, kid: BlockId)
    requires Reduced(indegree, indegree', front) && kid in indegree' && indegree'[kid] > 0
    ensures Reduced(indegree, indegree'[kid := indegree'[kid] - 1], front + [kid])
    ensures Settling(indegree, front + [kid]) ==
      Settling(indegree, front) + (if indegree'[kid] == 1 then [kid] else [])
  {
    hide Count;
    assert (front + [kid])[..|front|] == front;
    forall c
      ensures Count(front + [kid], c) == Count(front, c) + if c == kid then 1 else 0
    {
      CountAppend(front, kid, c);
    }
  }

  lemma SettlingLast(indegree: map<BlockId, nat>, front: seq<BlockId>, x: BlockId)
    requires x in indegree
    ensures Settling(indegree, front + [x]) ==
      Settling(indegree, front) + (if Count(front + [x], x) == indegree[x] then [x] else [])
  {
    assert (front + [x])[..|front|] == front;
  }

  lemma {:induction false} SettlingRepeated(indegree: map<BlockId, nat>, kids: seq<BlockId>, x: BlockId, n: nat)
    requires x in indegree && n <= indegree[x] && Count(kids, x) == 0
    ensures Settling(indegree, kids + Repeated(x, n)) ==
      Settling(indegree, kids) + (if 0 < n == indegree[x] then [x] else [])
  {
    hide Settling, Count;
    if n == 0 {
      assert kids + [] == kids && Settling(indegree, kids) + [] == Settling(indegree, kids);
    } else {
      var front := kids + Repeated(x, n - 1);
      assert kids + Repeated(x, n) == front + [x];
      SettlingRepeated(indegree, kids, x, n - 1);
      CountRepeated(kids, x, n, x);
      SettlingLast(indegree, front, x);
      assert Settling(indegree, kids) + [] == Settling(indegree, kids);
    }
  }

  /** Visiting the child list of `id` makes ready exactly what `id` frees, in visiting order. */
  lemma {:induction false} SettlingFrees(
      h: Headers, indegree: map<BlockId, nat>, done: set<BlockId>, id: BlockId, order: seq<BlockId>)
    requires Distinct(order) && forall x :: x in order ==> x in h
    requires indegree.Keys == h.Keys && CountsOf(h, indegree, h.Keys - done) && Settled(indegree, done)
    requires id in h && id !in done && indegree[id] == 0
    ensures Settling(indegree, KidList(h, order, id)) == Freed(h, order, done, id)
  {
    if order != [] {
      var front, x := order[..|order| - 1], order[|order| - 1];
      assert order == front + [x] && x in order && x !in front;
      hide Settling, Settled, Frees, CountsOf;
      KidCount(h, front, id, x);
      FreesIff(h, indegree, done, id, x);
      SettlingRepeated(indegree, KidList(h, front, id), x, References(h, id, x));
      SettlingFrees(h, indegree, done, id, front);
    }
  }

  lemma FreesIff(h: Headers, indegree: map<BlockId, nat>, done: set<BlockId>, id: BlockId, x: BlockId)
    requires indegree.Keys == h.Keys && CountsOf(h, indegree, h.Keys - done) && Settled(indegree, done)
    requires id in h && id !in done && indegree[id] == 0 && x in h
    ensures References(h, id, x) <= indegree[x]
    ensures Frees(h, done, id, x) <==> 0 < References(h, id, x) == indegree[x]
  {
    hide Count, Pending;
    PendingLess(h[x].parents, h.Keys - done, id);
    PendingZero(h[x].parents, h.Keys - done - {id});
    CountListed(h[x].parents, id);
  }

  /** Parents before children; a header on or below a cycle goes last, in id order. Which
      of several ready headers goes next is left to the order the map is visited in. */
  method TopoSortHeaders(headers: seq<Header>) returns (out: seq<Header>)
    ensures Lists(ById(headers), out, ById(headers).Keys)
    ensures ParentsFirst(ById(headers), out) <==> Acyclic(ById(headers))
    ensures MayPutOut(ById(headers), out) && PutOutNewestFirst(ById(headers), out)
  {
    hide Sorting, Subtracting, EdgesOf, CountsOf, Lists, ParentsFirst, Acyclic, Keyed, Ready, ById, KidsOf, Unsent;
    hide Visits, ListsKids, Tracks, Settling, Freed, MayPutOut, PutOutNewestFirst;
    var byId := ById(headers);
    ghost var h := byId;
    AllUnsent(h);
    ghost var done: set<BlockId> := {};
    var children, indegree, order := BuildEdges(byId);
    var ready := Roots(indegree);
    out := [];
    SortingStart(h, children, indegree, ready);
    TracksStart(h, order, indegree, ready);
    while ready != []
      invariant Sorting(h, children, indegree, ready, done, out) && Unsent(h, done, byId)
      invariant Tracks(h, order, done, ready, out)
      decreases |byId|
    {
      var front, id := ready[..|ready| - 1], ready[|ready| - 1];
      assert ready == front + [id];
      SubtractStart(h, children, indegree, front, id, done, out);
      SortingEdges(h, children, indegree, ready, done, out);
      SendNext(h, done, byId, id);
      TracksStep(h, children, indegree, order, front, id, done, out);
      ready := front;
      done := done + {id};
      out := out + [byId[id]];
      byId := byId - {id};
      indegree, ready := SettleKids(h, indegree, ready, done, KidsOf(children, id));
      SubtractEnd(h, children, indegree, ready, done, out);
    }
    SortingEdges(h, children, indegree, ready, done, out);
    UnsentKeyed(h, done, byId);
    Stuck(h, children, indegree, done, out);
    var rest := SortedRest(byId);
    AppendRest(h, out, done, rest);
    TracksEnd(h, order, done, out, byId, rest);
    out := out + rest;
    SortPutsOutNewestFirst(h, out);
  }

  /** What was emitted, and what will be from here on, are what this order emits. */
  ghost predicate Tracks(h: Headers, order: seq<BlockId>, done: set<BlockId>, ready: seq<BlockId>, out: seq<Header>) {
    exists sent :: Sent(h, order, done, ready, out, sent)
  }

  ghost predicate Sent(
      h: Headers, order: seq<BlockId>, done: set<BlockId>, ready: seq<BlockId>, out: seq<Header>, sent: seq<BlockId>) {
    && (forall x :: x in sent ==> x in h) && out == HeadersOf(h, sent) && SetOf(sent) == done
    && sent + Emitted(h, order, done, ready) == Emitted(h, order, {}, InIdOrder(RootsOf(h)))
  }

  lemma RootsAreReady(h: Headers, indegree: map<BlockId, nat>, ready: seq<BlockId>)
    requires CountsOf(h, indegree, h.Keys) && indegree.Keys == h.Keys && Ready(indegree, ready, {})
    ensures forall c :: c in ready <==> c in RootsOf(h)
  {
    hide Pending;
    forall c | c in h
      ensures indegree[c] == 0 <==> c in RootsOf(h)
    {
      PendingZero(h[c].parents, h.Keys);
    }
  }

  lemma TracksStart(h: Headers, order: seq<BlockId>, indegree: map<BlockId, nat>, ready: seq<BlockId>)
    requires CountsOf(h, indegree, h.Keys) && indegree.Keys == h.Keys && Ready(indegree, ready, {}) && Ascending(ready)
    ensures Tracks(h, order, {}, ready, [])
  {
    hide Pending, Emitted, Ascending, InIdOrder;
    RootsAreReady(h, indegree, ready);
    AscendingUnique(ready, InIdOrder(RootsOf(h)));
    hide Ready, CountsOf;
    assert [] + Emitted(h, order, {}, ready) == Emitted(h, order, {}, ready);
    assert Sent(h, order, {}, ready, [], []);
  }

  lemma TracksStep(
      h: Headers, children: Kids, indegree: map<BlockId, nat>, order: seq<BlockId>, front: seq<BlockId>, id: BlockId,
      done: set<BlockId>, out: seq<Header>)
    requires Visits(h, order) && ListsKids(h, children, order) && Sorting(h, children, indegree, front + [id], done, out)
    requires Tracks(h, order, done, front + [id], out)
    ensures id in h
    ensures Tracks(h, order, done + {id}, front + Settling(indegree, KidsOf(children, id)), out + [h[id]])
  {
    hide Emitted, Freed, InIdOrder, RootsOf, Settling, KidList, Lists, ParentsFirst, EdgesOf;
    var sent :| Sent(h, order, done, front + [id], out, sent);
    ReadyWithout(indegree, front, id, done);
    EmitStep(h, order, done, front, id);
    SettlingFrees(h, indegree, done, id, order);
    var later := Emitted(h, order, done + {id}, front + Freed(h, order, done, id));
    assert sent + ([id] + later) == (sent + [id]) + later;
    assert HeadersOf(h, sent + [id]) == out + [h[id]];
    assert SetOf(sent + [id]) == done + {id};
    assert Sent(h, order, done + {id}, front + Freed(h, order, done, id), out + [h[id]], sent + [id]);
  }

  lemma TracksEnd(h: Headers, order: seq<BlockId>, done: set<BlockId>, out: seq<Header>, byId: Headers, rest: seq<Header>)
    requires Visits(h, order) && Tracks(h, order, done, [], out) && Unsent(h, done, byId)
    requires rest == HeadersOf(byId, InIdOrder(byId.Keys))
    ensures MayPutOut(h, out + rest)
  {
    hide Emitted, InIdOrder, RootsOf, Visits;
    var sent :| Sent(h, order, done, [], out, sent);
    NothingLeft(h, order, done);
    assert sent + [] == sent;
    var ids := sent + InIdOrder(h.Keys - done);
    assert OutputIds(h, order) == ids;
    assert HeadersOf(h, ids) == out + rest;
  }

  lemma SortingEdges(
      h: Headers, children: Kids, indegree: map<BlockId, nat>, ready: seq<BlockId>, done: set<BlockId>, out: seq<Header>)
    requires Sorting(h, children, indegree, ready, done, out)
    ensures Keyed(h) && EdgesOf(h, children)
  {
  }

  /** The headers not emitted yet. */
  ghost predicate Unsent(h: Headers, done: set<BlockId>, byId: Headers) {
    done <= h.Keys && byId.Keys == h.Keys - done && forall id :: id in byId ==> byId[id] == h[id]
  }

  lemma AllUnsent(h: Headers)
    ensures Unsent(h, {}, h)
  {
  }

  lemma SendNext(h: Headers, done: set<BlockId>, byId: Headers, id: BlockId)
    requires Unsent(h, done, byId) && id in h && id !in done
    ensures id in byId && byId[id] == h[id]
    ensures Unsent(h, done + {id}, byId - {id}) && |byId - {id}| < |byId|
  {
    assert |byId| == |byId.Keys| && |byId - {id}| == |(byId - {id}).Keys|;
    assert (byId - {id}).Keys == byId.Keys - {id};
  }

  lemma UnsentKeyed(h: Headers, done: set<BlockId>, byId: Headers)
    requires Unsent(h, done, byId) && Keyed(h)
    ensures Keyed(byId) && byId.Keys == h.Keys - done && done <= h.Keys
    ensures forall rest :: Lists(byId, rest, byId.Keys) ==> Lists(h, rest, h.Keys - done)
  {
  }

  /** What is left in no order, put in id order. */
  method SortedRest(byId: Headers) returns (rest: seq<Header>)
    requires Keyed(byId)
    ensures Lists(byId, rest, byId.Keys) && rest == HeadersOf(byId, InIdOrder(byId.Keys))
  {
    var ids := KeysOf(byId);
    rest := [];
    for i := 0 to |ids|
      invariant |rest| == i && forall j :: 0 <= j < i ==> ids[j] in byId && rest[j] == byId[ids[j]]
    {
      assert ids[i] in ids;
      rest := rest + [byId[ids[i]]];
    }
    RestListed(byId, ids, rest);
  }

  method KeysOf(byId: Headers) returns (ids: seq<BlockId>)
    ensures ids == InIdOrder(byId.Keys)
  {
    ids := [];
    var todo := byId.Keys;
    while todo != {}
      invariant todo <= byId.Keys && forall id :: id in ids <==> id in byId && id !in todo
    {
      var id :| id in todo;
      todo := todo - {id};
      ids := ids + [id];
    }
    CanonicalAscends(ids);
    ids := Canonical(ids);
    AscendingUnique(ids, InIdOrder(byId.Keys));
  }

  lemma RestListed(byId: Headers, ids: seq<BlockId>, rest: seq<Header>)
    requires Keyed(byId) && ids == InIdOrder(byId.Keys) && |rest| == |ids|
    requires forall j :: 0 <= j < |ids| ==> ids[j] in byId && rest[j] == byId[ids[j]]
    ensures Lists(byId, rest, byId.Keys) && rest == HeadersOf(byId, ids)
  {
    AscendingDistinct(ids);
    hide InIdOrder, Ascending;
    forall id | id in byId
      ensures Earlier(rest, |rest|, id)
    {
      var j :| 0 <= j < |ids| && ids[j] == id;
      assert rest[j].id == id;
    }
  }

  // ----------------------------------------------------------------------- cycles

  /** Every set of headers of an acyclic set has one with no parent in it. */
  lemma {:induction false} SourceExists(h: Headers, s: set<BlockId>, c: BlockId) returns (r: BlockId)
    requires Acyclic(h) && s <= h.Keys && c in s
    ensures r in s && forall p :: p in h[r].parents ==> p !in s
    decreases |Past(GraphIn(h), c)|
  {
    if p :| p in h[c].parents && p in s {
      var g := GraphIn(h);
      ParentInPast(g, p, c);
      forall x | x in Past(g, p)
        ensures x in Past(g, c)
      {
        PastTransitive(g, x, p, c);
      }
      assert p !in Past(g, p);
      SubsetSize(Past(g, p), Past(g, c));
      r := SourceExists(h, s, p);
    } else {
      r := c;
    }
  }

  lemma {:induction false} ReachedIsEarlier(h: Headers, out: seq<Header>, a: BlockId, i: nat, n: nat) returns (j: nat)
    requires Lists(h, out, h.Keys) && ParentsFirst(h, out) && i < |out| && a in h
    requires ReachesIn(GraphIn(h), a, out[i].id, n)
    ensures j < i && out[j].id == a
    decreases n
  {
    var p :| p in GraphIn(h)[out[i].id].parents && (p == a || ReachesIn(GraphIn(h), a, p, n - 1));
    assert p in h;
    assert Earlier(out, i, p);
    j :| 0 <= j < i && out[j].id == p;
    if p != a {
      j := ReachedIsEarlier(h, out, a, j, n - 1);
    }
  }

  /** A parents-first listing of the whole set rules cycles out. */
  lemma OrderedIsAcyclic(h: Headers, out: seq<Header>)
    requires Lists(h, out, h.Keys) && ParentsFirst(h, out)
    ensures Acyclic(h)
  {
    forall id | id in h
      ensures !Ancestor(GraphIn(h), id, id)
    {
      if Ancestor(GraphIn(h), id, id) {
        var n: nat :| ReachesIn(GraphIn(h), id, id, n);
        assert Earlier(out, |out|, id);
        var i: nat :| i < |out| && out[i].id == id;
        var j := ReachedIsEarlier(h, out, id, i, n);
      }
    }
  }

  /** When nothing is ready, an acyclic set is finished. */
  lemma Stuck(h: Headers, children: Kids, indegree: map<BlockId, nat>, done: set<BlockId>, out: seq<Header>)
    requires Sorting(h, children, indegree, [], done, out) && done <= h.Keys
    ensures Lists(h, out, done) && ParentsFirst(h, out) && Keyed(h)
    ensures Acyclic(h) ==> done == h.Keys
  {
    if Acyclic(h) && done != h.Keys {
      assert done + (h.Keys - done) == h.Keys;
      var c :| c in h.Keys - done;
      var r := SourceExists(h, h.Keys - done, c);
      PendingZero(h[r].parents, h.Keys - done);
    }
  }

  /** Appending the leftovers lists everything, and changes nothing for an acyclic set. */
  lemma AppendRest(h: Headers, out: seq<Header>, done: set<BlockId>, rest: seq<Header>)
    requires Lists(h, out, done) && ParentsFirst(h, out) && done <= h.Keys && (Acyclic(h) ==> done == h.Keys)
    requires Lists(h, rest, h.Keys - done)
    ensures Lists(h, out + rest, h.Keys)
    ensures ParentsFirst(h, out + rest) <==> Acyclic(h)
  {
    ListsAppend(h, out, done, rest);
    if Acyclic(h) {
      assert h.Keys - done == {};
      ListedFrom(h, rest, h.Keys - done);
      assert out + [] == out;
    }
    if ParentsFirst(h, out + rest) {
      OrderedIsAcyclic(h, out + rest);
    }
  }

  lemma ListedFrom(h: Headers, rest: seq<Header>, s: set<BlockId>)
    requires Lists(h, rest, s)
    ensures rest != [] ==> s != {}
  {
    if rest != [] {
      assert rest[0].id in s;
    }
  }

  lemma ListsAppend(h: Headers, out: seq<Header>, done: set<BlockId>, rest: seq<Header>)
    requires Lists(h, out, done) && done <= h.Keys && Lists(h, rest, h.Keys - done)
    ensures Lists(h, out + rest, h.Keys)
  {
    var all := out + rest;
    forall id | id in h
      ensures Earlier(all, |all|, id)
    {
      if id in done {
        assert Earlier(out, |out|, id);
        var j :| 0 <= j < |out| && out[j].id == id;
        assert all[j].id == id;
      } else {
        assert id in h.Keys - done && Earlier(rest, |rest|, id);
        var j :| 0 <= j < |rest| && rest[j].id == id;
        assert all[|out| + j].id == id;
      }
    }
  }

  // ------------------------------------------------------------ applying the bodies

  /** A body for every header, agreeing with it on id and parents. */
  ghost predicate Match(h: Headers, bodies: map<BlockId, Block>) {
    forall id :: id in h ==> id in bodies && bodies[id].id == id && bodies[id].parents == h[id].parents
  }

  ghost function BodyEntries(bodies: map<BlockId, Block>, out: seq<Header>): (r: seq<Entry>)
    requires forall x :: x in out ==> x.id in bodies
    ensures |r| == |out| && forall i :: 0 <= i < |out| ==> out[i] in out && r[i] == Entry(out[i].id, bodies[out[i].id])
  {
    seq(|out|, i requires 0 <= i < |out| => Entry(out[i].id, bodies[out[i].id]))
  }

  /** A header's body can be taken once the headers before it were. */
  ghost predicate Insertable(s: State, h: Headers, id: BlockId)
    requires id in h
  {
    id !in s.nodes && h[id].parents != [] && forall p :: p in h[id].parents ==> p in s.nodes || p in h
  }

  lemma ListedHeaders(h: Headers, out: seq<Header>, bodies: map<BlockId, Block>)
    requires Lists(h, out, h.Keys) && Match(h, bodies)
    ensures forall x :: x in out ==> x.id in bodies
  {
  }

  lemma BodyEntryOk(s: State, h: Headers, out: seq<Header>, bodies: map<BlockId, Block>, i: nat)
    requires Lists(h, out, h.Keys) && ParentsFirst(h, out) && Match(h, bodies) && i < |out|
    requires forall x :: x in out ==> x.id in bodies
    ensures out[i].id in h
    ensures EntryOk(s, BodyEntries(bodies, out), i) <==> Insertable(s, h, out[i].id)
  {
    hide BodyEntries;
    var entries, id := BodyEntries(bodies, out), out[i].id;
    assert entries[i] == Entry(id, bodies[id]) && entries[i].block.parents == h[id].parents;
    assert forall j :: 0 <= j < i ==> entries[j].id == out[j].id && out[j].id != id;
    forall p | p in h[id].parents
      ensures ListedBefore(entries, i, p) <==> p in h
    {
      if p in h {
        assert Earlier(out, i, p);
        var j :| 0 <= j < i && out[j].id == p;
        assert entries[j].id == p;
      }
      if ListedBefore(entries, i, p) {
        var j :| 0 <= j < i && entries[j].id == p;
        assert out[j].id in h;
      }
    }
  }

  /** Bodies applied in a parents-first order all go in, so none fails for a missing
      parent, exactly when each is new and has its other parents already stored. */
  lemma SortedBodiesInsert(s: State, h: Headers, out: seq<Header>, bodies: map<BlockId, Block>)
    requires Lists(h, out, h.Keys) && ParentsFirst(h, out) && Match(h, bodies)
    ensures forall x :: x in out ==> x.id in bodies
    ensures Run(s, BodyEntries(bodies, out)).Some? <==> forall id :: id in h ==> Insertable(s, h, id)
  {
    hide Match, ParentsFirst, Insertable, EntryOk, Run, BodyEntries;
    ListedHeaders(h, out, bodies);
    var entries := BodyEntries(bodies, out);
    RunSucceedsIff(s, entries);
    forall i | 0 <= i < |out|
      ensures out[i].id in h && (EntryOk(s, entries, i) <==> Insertable(s, h, out[i].id))
    {
      BodyEntryOk(s, h, out, bodies, i);
    }
    if Run(s, entries).Some? {
      forall id | id in h
        ensures Insertable(s, h, id)
      {
        assert Earlier(out, |out|, id);
      }
    }
  }
}
