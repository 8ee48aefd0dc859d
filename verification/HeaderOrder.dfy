/** What Kahn's sort of a header set puts out: one list for each order in which the header
    map may be visited, and when these lists are all the same. */
module HeaderOrder {
  import opened BlockGraph
  import opened SortedIds
  import opened Words

  datatype Header = Header(
    id: BlockId, parents: seq<BlockId>, work: u128, timestampMs: u64, nonce: u64, payloadHash: Bytes, payloadLen: u64)

  type Headers = map<BlockId, Header>

  ghost predicate Keyed(h: Headers) {
    forall id :: id in h ==> h[id].id == id
  }

  // -------------------------------------------------------------------- counting

  function Count(s: seq<BlockId>, x: BlockId): nat {
    if s == [] then 0 else Count(s[..|s| - 1], x) + if s[|s| - 1] == x then 1 else 0
  }

  lemma CountAppend(s: seq<BlockId>, y: BlockId, x: BlockId)
    ensures Count(s + [y], x) == Count(s, x) + if y == x then 1 else 0
  {
    assert (s + [y])[..|s|] == s;
  }

  lemma {:induction false} CountListed(s: seq<BlockId>, x: BlockId)
    ensures Count(s, x) > 0 <==> x in s
  {
    if s != [] {
      assert s == s[..|s| - 1] + [s[|s| - 1]];
      CountListed(s[..|s| - 1], x);
    }
  }

  function Repeated(x: BlockId, n: nat): seq<BlockId> {
    if n == 0 then [] else Repeated(x, n - 1) + [x]
  }

  lemma {:induction false} CountRepeated(s: seq<BlockId>, x: BlockId, n: nat, y: BlockId)
    ensures Count(s + Repeated(x, n), y) == Count(s, y) + if x == y then n else 0
  {
    if n == 0 {
      assert s + [] == s;
    } else {
      CountRepeated(s, x, n - 1, y);
      assert s + Repeated(x, n) == (s + Repeated(x, n - 1)) + [x];
      CountAppend(s + Repeated(x, n - 1), x, y);
    }
  }

  // ------------------------------------------------------------- one visiting order

  /** An order in which the header map may be visited. */
  ghost predicate Visits(h: Headers, order: seq<BlockId>) {
    Distinct(order) && forall id :: id in order <==> id in h
  }

  function References(h: Headers, p: BlockId, c: BlockId): nat {
    if p in h && c in h then Count(h[c].parents, p) else 0
  }

  /** The child list of `p`: the headers as visited, each as often as it names `p`. */
  function KidList(h: Headers, order: seq<BlockId>, p: BlockId): seq<BlockId> {
    if order == [] then []
    else KidList(h, order[..|order| - 1], p) + Repeated(order[|order| - 1], References(h, p, order[|order| - 1]))
  }

  lemma {:induction false} KidCount(h: Headers, order: seq<BlockId>, p: BlockId, c: BlockId)
    requires Distinct(order)
    ensures Count(KidList(h, order, p), c) == if c in order then References(h, p, c) else 0
  {
    if order != [] {
      var front, last := order[..|order| - 1], order[|order| - 1];
      assert order == front + [last] && last !in front;
      hide References;
      KidCount(h, front, p, c);
      CountRepeated(KidList(h, front, p), last, References(h, p, last), c);
    }
  }

  /** `id` was the last unmet parent of `c`. */
  ghost predicate Frees(h: Headers, done: set<BlockId>, id: BlockId, c: BlockId) {
    && c in h && c !in done && c != id && id in h[c].parents
    && forall p :: p in h[c].parents && p in h && p !in done ==> p == id
  }

  /** The headers that become ready when `id` is emitted, in the order they do. */
  ghost function Freed(h: Headers, order: seq<BlockId>, done: set<BlockId>, id: BlockId): seq<BlockId> {
    if order == [] then []
    else
      var front, last := order[..|order| - 1], order[|order| - 1];
      Freed(h, front, done, id) + (if Frees(h, done, id, last) then [last] else [])
  }

  lemma {:induction false} FreedMembers(h: Headers, order: seq<BlockId>, done: set<BlockId>, id: BlockId)
    requires Distinct(order)
    ensures Distinct(Freed(h, order, done, id))
    ensures forall c :: c in Freed(h, order, done, id) <==> c in order && Frees(h, done, id, c)
  {
    hide Frees;
    if order != [] {
      var front, last := order[..|order| - 1], order[|order| - 1];
      assert order == front + [last];
      FreedMembers(h, front, done, id);
    }
  }

  /** The ids emitted from here on: the last ready one goes next, and what it frees is
      ready after what was. */
  ghost function Emitted(h: Headers, order: seq<BlockId>, done: set<BlockId>, ready: seq<BlockId>): (r: seq<BlockId>)
    ensures forall x :: x in r ==> x in h
    decreases h.Keys - done
  {
    if ready == [] then []
    else
      var front, id := ready[..|ready| - 1], ready[|ready| - 1];
      if id !in h || id in done then []
      else [id] + Emitted(h, order, done + {id}, front + Freed(h, order, done, id))
  }

  lemma EmitStep(h: Headers, order: seq<BlockId>, done: set<BlockId>, front: seq<BlockId>, id: BlockId)
    requires id in h && id !in done
    ensures Emitted(h, order, done, front + [id]) ==
      [id] + Emitted(h, order, done + {id}, front + Freed(h, order, done, id))
  {
    assert (front + [id])[..|front|] == front;
  }

  lemma NothingLeft(h: Headers, order: seq<BlockId>, done: set<BlockId>)
    ensures Emitted(h, order, done, []) == []
  {
  }

  ghost function InIdOrder(s: set<BlockId>): (r: seq<BlockId>)
    ensures Ascending(r) && forall x :: x in r <==> x in s
  {
    if s == {} then []
    else
      var x :| x in s;
      var others := InIdOrder(s - {x});
      InsertIdAscends(others, x);
      InsertId(others, x)
  }

  ghost function RootsOf(h: Headers): set<BlockId> {
    set c | c in h && forall p :: p in h[c].parents ==> p !in h
  }

  /** All that is emitted, and then the rest in id order. */
  ghost function OutputIds(h: Headers, order: seq<BlockId>): (r: seq<BlockId>)
    ensures forall x :: x in r ==> x in h
  {
    var emitted := Emitted(h, order, {}, InIdOrder(RootsOf(h)));
    emitted + InIdOrder(h.Keys - SetOf(emitted))
  }

  ghost function HeadersOf(h: Headers, ids: seq<BlockId>): seq<Header>
    requires forall x :: x in ids ==> x in h
  {
    seq(|ids|, i requires 0 <= i < |ids| => h[ids[i]])
  }

  /** What the sort puts out when the header map is visited in this order. */
  ghost function SortedBy(h: Headers, order: seq<BlockId>): seq<Header> {
    HeadersOf(h, OutputIds(h, order))
  }

  ghost predicate MayPutOut(h: Headers, out: seq<Header>) {
    exists order :: Visits(h, order) && out == SortedBy(h, order)
  }

  // ------------------------------------------------------------------- determinism

  /** The output does not depend on how the header map is visited. */
  ghost predicate Determined(h: Headers) {
    forall a, b :: MayPutOut(h, a) && MayPutOut(h, b) ==> a == b
  }

  /** From here on no emission makes two headers ready at once. */
  ghost predicate Calm(h: Headers, order: seq<BlockId>, done: set<BlockId>, ready: seq<BlockId>)
    decreases h.Keys - done
  {
    if ready == [] then true
    else
      var front, id := ready[..|ready| - 1], ready[|ready| - 1];
      id in h && id !in done ==>
        |Freed(h, order, done, id)| <= 1 && Calm(h, order, done + {id}, front + Freed(h, order, done, id))
  }

  lemma ShortListsSame(a: seq<BlockId>, b: seq<BlockId>)
    requires Distinct(a) && Distinct(b) && |a| <= 1 && forall x :: x in a <==> x in b
    ensures a == b
  {
    DistinctCount(a);
    DistinctCount(b);
    assert SetOf(a) == SetOf(b);
    assert a != [] ==> a[0] in b;
  }

  lemma AtMostOne(s: seq<BlockId>)
    requires Distinct(s) && forall x, y :: x in s && y in s ==> x == y
    ensures |s| <= 1
  {
    DistinctCount(s);
    if s != [] {
      forall x | x in SetOf(s)
        ensures x == s[0]
      {
        assert s[0] in s;
      }
      SubsetSize(SetOf(s), {s[0]});
    }
  }

  lemma FreedAlike(h: Headers, o: seq<BlockId>, o': seq<BlockId>, done: set<BlockId>, id: BlockId)
    requires Visits(h, o) && Visits(h, o') && |Freed(h, o, done, id)| <= 1
    ensures Freed(h, o', done, id) == Freed(h, o, done, id)
  {
    hide Frees, Freed;
    FreedMembers(h, o, done, id);
    FreedMembers(h, o', done, id);
    ShortListsSame(Freed(h, o, done, id), Freed(h, o', done, id));
  }

  /** Where no two are freed at once, every visiting order emits the same. */
  lemma {:induction false} CalmAlike(
      h: Headers, o: seq<BlockId>, o': seq<BlockId>, done: set<BlockId>, ready: seq<BlockId>)
    requires Visits(h, o) && Visits(h, o') && Calm(h, o, done, ready)
    ensures Emitted(h, o', done, ready) == Emitted(h, o, done, ready)
    decreases h.Keys - done
  {
    hide Freed, Visits;
    if ready != [] {
      var front, id := ready[..|ready| - 1], ready[|ready| - 1];
      if id in h && id !in done {
        FreedAlike(h, o, o', done, id);
        CalmAlike(h, o, o', done + {id}, front + Freed(h, o, done, id));
      }
    }
  }

  function Backwards(s: seq<BlockId>): seq<BlockId> {
    if s == [] then [] else [s[|s| - 1]] + Backwards(s[..|s| - 1])
  }

  lemma DistinctBefore(x: BlockId, s: seq<BlockId>)
    ensures Distinct(s) && x !in s ==> Distinct([x] + s)
  {
    assert forall i :: 0 < i <= |s| ==> ([x] + s)[i] == s[i - 1] && s[i - 1] in s;
  }

  lemma {:induction false} BackwardsMembers(s: seq<BlockId>)
    ensures |Backwards(s)| == |s| && forall x :: x in Backwards(s) <==> x in s
    ensures Distinct(s) ==> Distinct(Backwards(s))
  {
    if s != [] {
      var front, last := s[..|s| - 1], s[|s| - 1];
      assert s == front + [last] && (Distinct(s) ==> Distinct(front) && last !in front);
      BackwardsMembers(front);
      hide Backwards;
      var back := Backwards(front);
      assert Distinct(front) && last !in front ==> Distinct([last] + back) by {
        DistinctBefore(last, back);
      }
    }
  }

  lemma {:induction false} FreedFront(h: Headers, x: BlockId, order: seq<BlockId>, done: set<BlockId>, id: BlockId)
    ensures Freed(h, [x] + order, done, id) == (if Frees(h, done, id, x) then [x] else []) + Freed(h, order, done, id)
  {
    hide Frees;
    if order == [] {
      assert [x] + [] == [x] && [x][..0] == [];
      assert Freed(h, [], done, id) == [];
    } else {
      var front, last := order[..|order| - 1], order[|order| - 1];
      assert ([x] + order)[..|order|] == [x] + front;
      FreedFront(h, x, front, done, id);
    }
  }

  lemma {:induction false} FreedBackwards(h: Headers, order: seq<BlockId>, done: set<BlockId>, id: BlockId)
    ensures Freed(h, Backwards(order), done, id) == Backwards(Freed(h, order, done, id))
  {
    if order != [] {
      hide Frees;
      var front, last := order[..|order| - 1], order[|order| - 1];
      FreedFront(h, last, Backwards(front), done, id);
      FreedBackwards(h, front, done, id);
      var freed := Freed(h, front, done, id);
      assert (freed + [last])[..|freed|] == freed && freed + [] == freed;
    }
  }

  lemma {:induction false} BackwardsLast(s: seq<BlockId>)
    requires s != []
    ensures |Backwards(s)| == |s| && Backwards(s)[|s| - 1] == s[0]
  {
    BackwardsMembers(s);
    if |s| > 1 {
      BackwardsLast(s[..|s| - 1]);
      BackwardsMembers(s[..|s| - 1]);
    }
  }

  /** The next id emitted is the last one that was freed. */
  lemma NextIsLastFreed(
      h: Headers, order: seq<BlockId>, done: set<BlockId>, front: seq<BlockId>, id: BlockId)
    requires Visits(h, order) && Freed(h, order, done, id) != []
    ensures var freed := Freed(h, order, done, id); var r := Emitted(h, order, done + {id}, front + freed);
      r != [] && r[0] == freed[|freed| - 1]
  {
    hide Freed, Emitted;
    FreedMembers(h, order, done, id);
    var freed := Freed(h, order, done, id);
    var others, last := freed[..|freed| - 1], freed[|freed| - 1];
    assert last in freed && Frees(h, done, id, last);
    hide Frees;
    EmitStep(h, order, done + {id}, front + others, last);
    assert front + freed == front + others + [last];
  }

  lemma NotCalm(h: Headers, order: seq<BlockId>, done: set<BlockId>, ready: seq<BlockId>)
    requires !Calm(h, order, done, ready)
    ensures ready != [] && ready[|ready| - 1] in h && ready[|ready| - 1] !in done
    ensures var front, id := ready[..|ready| - 1], ready[|ready| - 1]; var freed := Freed(h, order, done, id);
      |freed| > 1 || !Calm(h, order, done + {id}, front + freed)
  {
  }

  /** Where two are freed at once, visiting the map backwards emits something else. */
  lemma {:induction false} TwinsDiffer(h: Headers, order: seq<BlockId>, done: set<BlockId>, ready: seq<BlockId>)
    returns (i: nat)
    requires Visits(h, order) && !Calm(h, order, done, ready)
    ensures var a, b := Emitted(h, order, done, ready), Emitted(h, Backwards(order), done, ready);
      i < |a| && i < |b| && a[i] != b[i]
    decreases h.Keys - done
  {
    hide Freed, Visits, Emitted, Calm;
    NotCalm(h, order, done, ready);
    var front, id := ready[..|ready| - 1], ready[|ready| - 1];
    var back, freed := Backwards(order), Freed(h, order, done, id);
    assert ready == front + [id];
    EmitStep(h, order, done, front, id);
    EmitStep(h, back, done, front, id);
    BackwardsVisits(h, order);
    FreedBackwards(h, order, done, id);
    if |freed| <= 1 {
      FreedAlike(h, order, back, done, id);
      i := TwinsDiffer(h, order, done + {id}, front + freed);
      i := i + 1;
    } else {
      BackwardsLast(freed);
      BackwardsMembers(freed);
      NextIsLastFreed(h, order, done, front, id);
      NextIsLastFreed(h, back, done, front, id);
      FirstIsNotLast(h, order, done, id);
      i := 1;
    }
  }

  lemma BackwardsVisits(h: Headers, order: seq<BlockId>)
    requires Visits(h, order)
    ensures Visits(h, Backwards(order))
  {
    BackwardsMembers(order);
  }

  lemma FirstIsNotLast(h: Headers, order: seq<BlockId>, done: set<BlockId>, id: BlockId)
    requires Visits(h, order) && |Freed(h, order, done, id)| > 1
    ensures var freed := Freed(h, order, done, id); freed[0] != freed[|freed| - 1]
  {
    FreedMembers(h, order, done, id);
  }

  lemma SomeVisit(h: Headers) returns (order: seq<BlockId>)
    ensures Visits(h, order)
  {
    order := InIdOrder(h.Keys);
    AscendingDistinct(order);
  }

  lemma DifferentIds(h: Headers, a: seq<BlockId>, b: seq<BlockId>, i: nat)
    requires Keyed(h) && (forall x :: x in a ==> x in h) && (forall x :: x in b ==> x in h)
    requires i < |a| && i < |b| && a[i] != b[i]
    ensures HeadersOf(h, a) != HeadersOf(h, b)
  {
    assert a[i] in a && b[i] in b;
    assert HeadersOf(h, a)[i].id == a[i] && HeadersOf(h, b)[i].id == b[i];
  }

  /** The output is the same for every visiting order if and only if, visiting the map in
      any one of them, no emission makes two headers ready at once. */
  lemma DeterminedIff(h: Headers, order: seq<BlockId>)
    requires Keyed(h) && Visits(h, order)
    ensures Determined(h) <==> Calm(h, order, {}, InIdOrder(RootsOf(h)))
  {
    hide Visits, Emitted, Calm, HeadersOf, Keyed, RootsOf;
    var roots := InIdOrder(RootsOf(h));
    if Calm(h, order, {}, roots) {
      forall a | MayPutOut(h, a)
        ensures a == SortedBy(h, order)
      {
        var o :| Visits(h, o) && a == SortedBy(h, o);
        CalmAlike(h, order, o, {}, roots);
      }
    } else {
      var i := TwinsDiffer(h, order, {}, roots);
      BackwardsVisits(h, order);
      DifferentIds(h, OutputIds(h, order), OutputIds(h, Backwards(order)), i);
      assert MayPutOut(h, SortedBy(h, order)) && MayPutOut(h, SortedBy(h, Backwards(order)));
    }
  }

  /** No header of the set is a parent of two others in it. */
  ghost predicate Forkless(h: Headers) {
    forall p, c, d :: p in h && c in h && d in h && p in h[c].parents && p in h[d].parents && c != p && d != p ==> c == d
  }

  lemma {:induction false} ForklessIsCalm(h: Headers, order: seq<BlockId>, done: set<BlockId>, ready: seq<BlockId>)
    requires Forkless(h) && Visits(h, order)
    ensures Calm(h, order, done, ready)
    decreases h.Keys - done
  {
    if ready != [] {
      var front, id := ready[..|ready| - 1], ready[|ready| - 1];
      if id in h && id !in done {
        FreedMembers(h, order, done, id);
        var freed := Freed(h, order, done, id);
        AtMostOne(freed);
        hide Forkless, Visits;
        ForklessIsCalm(h, order, done + {id}, front + freed);
      }
    }
  }

  /** A set without forks is always put out in the same order. */
  lemma ForklessIsDetermined(h: Headers)
    requires Keyed(h) && Forkless(h)
    ensures Determined(h)
  {
    var order := SomeVisit(h);
    ForklessIsCalm(h, order, {}, InIdOrder(RootsOf(h)));
    DeterminedIff(h, order);
  }

  // ------------------------------------------------------- the newest ready one first

  /** All parents of `c` that are in the set are in the list. */
  ghost predicate Met(h: Headers, list: seq<BlockId>, c: BlockId) {
    c in h && forall p :: p in h[c].parents && p in h ==> p in list
  }

  /** `c` had all its parents no later than `x` had. */
  ghost predicate MetFirst(h: Headers, list: seq<BlockId>, c: BlockId, x: BlockId) {
    && (forall n :: 0 <= n <= |list| && Met(h, list[..n], x) ==> Met(h, list[..n], c))
    && (Met(h, [], x) ==> c < x)
  }

  /** What comes next was ready, and of all that were it became so last; of those ready from
      the start it has the largest id. */
  ghost predicate NewestAt(h: Headers, ids: seq<BlockId>, i: nat)
    requires i < |ids|
  {
    && ids[i] !in ids[..i] && Met(h, ids[..i], ids[i])
    && forall c :: c !in ids[..i] && c != ids[i] && Met(h, ids[..i], c) ==> MetFirst(h, ids[..i], c, ids[i])
  }

  /** `n` headers are put out this way, and then those that never get ready, in id order. */
  ghost predicate NewestFirst(h: Headers, ids: seq<BlockId>, n: nat)
    requires n <= |ids|
  {
    && (forall i :: 0 <= i < n ==> NewestAt(h, ids, i)) && Ascending(ids[n..])
    && (forall c :: c in ids[n..] <==> c in h && c !in ids[..n])
    && forall c :: c in ids[n..] ==> !Met(h, ids[..n], c)
  }

  /** The ready ones that were not put out, those ready longest first. */
  ghost predicate Stacked(h: Headers, list: seq<BlockId>, ready: seq<BlockId>) {
    && Distinct(ready) && (forall c :: c in ready <==> c !in list && Met(h, list, c))
    && forall a, b :: 0 <= a < b < |ready| ==> MetFirst(h, list, ready[a], ready[b])
  }

  lemma MetGrows(h: Headers, a: seq<BlockId>, b: seq<BlockId>, c: BlockId)
    requires Met(h, a, c) && forall x :: x in a ==> x in b
    ensures Met(h, b, c)
  {
  }

  /** Freed by `id`: ready with it, and not before. */
  lemma FreedIsMet(h: Headers, list: seq<BlockId>, id: BlockId, c: BlockId)
    requires id in h && id !in list
    ensures Frees(h, SetOf(list), id, c) <==>
      c !in list && c != id && Met(h, list + [id], c) && !Met(h, list, c)
  {
  }

  lemma MetFirstGrows(h: Headers, list: seq<BlockId>, id: BlockId, c: BlockId, x: BlockId)
    requires Met(h, list, c) && (Met(h, list, x) ==> MetFirst(h, list, c, x))
    ensures MetFirst(h, list + [id], c, x)
  {
    var list' := list + [id];
    forall n | 0 <= n <= |list'| && Met(h, list'[..n], x)
      ensures Met(h, list'[..n], c)
    {
      if n <= |list| {
        assert list'[..n] == list[..n];
        MetGrows(h, list[..n], list, x);
      } else {
        assert list'[..n] == list';
        MetGrows(h, list, list', c);
      }
    }
    if Met(h, [], x) {
      MetGrows(h, [], list, x);
    }
  }

  lemma NotMetBefore(h: Headers, list: seq<BlockId>, id: BlockId, n: nat, x: BlockId)
    requires n <= |list| && Met(h, (list + [id])[..n], x)
    ensures Met(h, list, x)
  {
    assert (list + [id])[..n] == list[..n];
  }

  lemma BothFreed(h: Headers, list: seq<BlockId>, id: BlockId, c: BlockId, x: BlockId)
    requires Met(h, list + [id], c) && !Met(h, list, x)
    ensures MetFirst(h, list + [id], c, x)
  {
    hide Met;
    var list' := list + [id];
    assert list'[..|list'|] == list' && list'[..0] == [];
    forall n | 0 <= n <= |list| && Met(h, list'[..n], x)
      ensures false
    {
      NotMetBefore(h, list, id, n, x);
    }
  }

  lemma StackStep(h: Headers, order: seq<BlockId>, list: seq<BlockId>, front: seq<BlockId>, id: BlockId)
    requires Visits(h, order) && Stacked(h, list, front + [id])
    ensures id in h && id !in list && Stacked(h, list + [id], front + Freed(h, order, SetOf(list), id))
  {
    assert (front + [id])[|front|] == id && id in front + [id];
    assert forall a :: 0 <= a < |front| ==> (front + [id])[a] == front[a];
    var freed, list' := Freed(h, order, SetOf(list), id), list + [id];
    FreedMembers(h, order, SetOf(list), id);
    forall c
      ensures c in freed <==> c !in list' && Met(h, list', c) && !Met(h, list, c)
      ensures c in front <==> c !in list' && Met(h, list, c)
    {
      FreedIsMet(h, list, id, c);
      assert c in front + [id] <==> c in front || c == id;
    }
    hide Frees, Freed, Met, MetFirst, Visits;
    StackMembers(h, list, front, freed, id);
    StackOrder(h, list, front, freed, id);
  }

  lemma StackMembers(h: Headers, list: seq<BlockId>, front: seq<BlockId>, freed: seq<BlockId>, id: BlockId)
    requires Distinct(front) && Distinct(freed)
    requires forall c :: c in freed <==> c !in list + [id] && Met(h, list + [id], c) && !Met(h, list, c)
    requires forall c :: c in front <==> c !in list + [id] && Met(h, list, c)
    ensures Distinct(front + freed)
    ensures forall c :: c in front + freed <==> c !in list + [id] && Met(h, list + [id], c)
  {
    forall c | Met(h, list, c)
      ensures Met(h, list + [id], c)
    {
      MetGrows(h, list, list + [id], c);
    }
    hide Met;
    forall i, j | 0 <= i < |front| && 0 <= j < |freed|
      ensures front[i] != freed[j]
    {
      assert front[i] in front && freed[j] in freed;
    }
  }

  lemma StackOrder(h: Headers, list: seq<BlockId>, front: seq<BlockId>, freed: seq<BlockId>, id: BlockId)
    requires forall a, b :: 0 <= a < b < |front| ==> MetFirst(h, list, front[a], front[b])
    requires forall c :: c in freed <==> c !in list + [id] && Met(h, list + [id], c) && !Met(h, list, c)
    requires forall c :: c in front <==> c !in list + [id] && Met(h, list, c)
    ensures var ready := front + freed;
      forall a, b :: 0 <= a < b < |ready| ==> MetFirst(h, list + [id], ready[a], ready[b])
  {
    hide Met, MetFirst;
    var ready := front + freed;
    forall a, b | 0 <= a < b < |ready|
      ensures MetFirst(h, list + [id], ready[a], ready[b])
    {
      if a < |front| {
        assert ready[a] in front;
        if b >= |front| {
          assert ready[b] in freed;
        }
        MetFirstGrows(h, list, id, ready[a], ready[b]);
      } else {
        assert ready[a] in freed && ready[b] in freed;
        BothFreed(h, list, id, ready[a], ready[b]);
      }
    }
  }

  ghost predicate AllNewest(h: Headers, ids: seq<BlockId>, from: nat) {
    forall i :: from <= i < |ids| ==> NewestAt(h, ids, i)
  }

  ghost predicate NoneReady(h: Headers, ids: seq<BlockId>) {
    forall c :: c in h && c !in ids ==> !Met(h, ids, c)
  }

  /** What is emitted from here on is always the newest ready one, until none is. */
  lemma {:induction false} EmitsNewest(h: Headers, order: seq<BlockId>, list: seq<BlockId>, ready: seq<BlockId>)
    requires Visits(h, order) && Stacked(h, list, ready)
    ensures var ids := list + Emitted(h, order, SetOf(list), ready); AllNewest(h, ids, |list|) && NoneReady(h, ids)
    decreases h.Keys - SetOf(list)
  {
    hide Visits, Freed, AllNewest, NoneReady, Emitted, NewestAt, Stacked;
    if ready == [] {
      NothingLeft(h, order, SetOf(list));
      assert list + [] == list;
      EmptyStack(h, list);
    } else {
      var front, id := ready[..|ready| - 1], ready[|ready| - 1];
      assert ready == front + [id];
      StackStep(h, order, list, front, id);
      assert SetOf(list + [id]) == SetOf(list) + {id};
      EmitsNewest(h, order, list + [id], front + Freed(h, order, SetOf(list), id));
      EmitStep(h, order, SetOf(list), front, id);
      var rest := Emitted(h, order, SetOf(list) + {id}, front + Freed(h, order, SetOf(list), id));
      assert list + ([id] + rest) == list + [id] + rest;
      TopIsNewest(h, list, front, id, rest);
    }
  }

  lemma EmptyStack(h: Headers, list: seq<BlockId>)
    requires Stacked(h, list, [])
    ensures AllNewest(h, list, |list|) && NoneReady(h, list)
  {
    hide Met, MetFirst;
  }

  lemma TopIsNewest(h: Headers, list: seq<BlockId>, front: seq<BlockId>, id: BlockId, rest: seq<BlockId>)
    requires Stacked(h, list, front + [id]) && AllNewest(h, list + [id] + rest, |list| + 1)
    ensures AllNewest(h, list + [id] + rest, |list|)
  {
    var ids, ready := list + [id] + rest, front + [id];
    assert ids[..|list|] == list && ids[|list|] == id && ready[|front|] == id && id in ready;
    hide Met, MetFirst;
    forall c | c !in list && c != id && Met(h, list, c)
      ensures MetFirst(h, list, c, id)
    {
      assert c in ready;
      var a :| 0 <= a < |ready| && ready[a] == c;
    }
    assert NewestAt(h, ids, |list|);
    hide NewestAt;
  }

  /** The whole output, in whatever order the map is visited. */
  lemma OutputIsNewestFirst(h: Headers, order: seq<BlockId>)
    requires Visits(h, order)
    ensures var n := |Emitted(h, order, {}, InIdOrder(RootsOf(h)))|;
      n <= |OutputIds(h, order)| && NewestFirst(h, OutputIds(h, order), n)
  {
    hide Emitted, Visits, AllNewest, NoneReady, NewestFirst, Stacked, RootsOf, InIdOrder;
    var roots := InIdOrder(RootsOf(h));
    RootsAreStacked(h);
    EmitsNewest(h, order, [], roots);
    assert SetOf([]) == {};
    var emitted := Emitted(h, order, {}, roots);
    assert [] + emitted == emitted;
    LeftoversFollow(h, emitted, InIdOrder(h.Keys - SetOf(emitted)));
  }

  lemma LeftoversFollow(h: Headers, emitted: seq<BlockId>, rest: seq<BlockId>)
    requires AllNewest(h, emitted, 0) && NoneReady(h, emitted) && Ascending(rest)
    requires forall c :: c in rest <==> c in h.Keys - SetOf(emitted)
    ensures NewestFirst(h, emitted + rest, |emitted|)
  {
    hide NewestAt, Met, Ascending;
    var ids := emitted + rest;
    assert ids[..|emitted|] == emitted && ids[|emitted|..] == rest;
    forall i | 0 <= i < |emitted|
      ensures NewestAt(h, ids, i)
    {
      NewestKept(h, emitted, rest, i);
    }
  }

  lemma NewestKept(h: Headers, a: seq<BlockId>, rest: seq<BlockId>, i: nat)
    requires i < |a| && NewestAt(h, a, i)
    ensures NewestAt(h, a + rest, i)
  {
    hide Met, MetFirst;
    assert (a + rest)[..i] == a[..i] && (a + rest)[i] == a[i];
  }

  /** The headers come newest ready first. */
  ghost predicate PutOutNewestFirst(h: Headers, out: seq<Header>) {
    exists ids, n: nat :: IdsOf(h, out, ids) && n <= |ids| && NewestFirst(h, ids, n)
  }

  /** These are the ids the headers are stored under. */
  ghost predicate IdsOf(h: Headers, out: seq<Header>, ids: seq<BlockId>) {
    |ids| == |out| && forall i :: 0 <= i < |ids| ==> ids[i] in h && out[i] == h[ids[i]]
  }

  lemma SortPutsOutNewestFirst(h: Headers, out: seq<Header>)
    requires MayPutOut(h, out)
    ensures PutOutNewestFirst(h, out)
  {
    hide NewestFirst, OutputIds, Visits;
    var order :| Visits(h, order) && out == SortedBy(h, order);
    OutputIsNewestFirst(h, order);
    var ids := OutputIds(h, order);
    assert forall i :: 0 <= i < |ids| ==> ids[i] in ids;
    assert IdsOf(h, out, ids);
  }

  lemma RootsAreStacked(h: Headers)
    ensures Stacked(h, [], InIdOrder(RootsOf(h)))
  {
    var roots := InIdOrder(RootsOf(h));
    AscendingDistinct(roots);
    forall a, b | 0 <= a < b < |roots|
      ensures MetFirst(h, [], roots[a], roots[b])
    {
      assert roots[a] in roots;
    }
  }

  // ----------------------------------------------------------------------- a fork

  function Plain(id: BlockId, parents: seq<BlockId>): Header {
    Header(id, parents, 1, 0, 0, [], 0)
  }

  function Fork(): Headers {
    map[1 := Plain(1, []), 2 := Plain(2, [1]), 3 := Plain(3, [1])]
  }

  lemma ForkFacts()
    ensures Fork().Keys == {1, 2, 3} && Keyed(Fork())
    ensures Fork()[1] == Plain(1, []) && Fork()[2] == Plain(2, [1]) && Fork()[3] == Plain(3, [1])
  {
  }

  lemma OneInOrder(x: BlockId)
    ensures InIdOrder({x}) == [x] && InIdOrder({}) == []
  {
    AscendingUnique(InIdOrder({x}), [x]);
  }

  /** Blocks 2 and 3 are freed by block 1; the one visited later comes out first. */
  lemma ForkPutsOut(a: BlockId, b: BlockId)
    requires (a == 2 && b == 3) || (a == 3 && b == 2)
    ensures OutputIds(Fork(), [1, a, b]) == [1, b, a]
  {
    hide Fork, Emitted, Freed, RootsOf, InIdOrder;
    ForkFacts();
    ForkFreed(a, b);
    ForkRoots();
    var h, order := Fork(), [1, a, b];
    EmitStep(h, order, {}, [], 1);
    EmitStep(h, order, {} + {1}, [a], b);
    EmitStep(h, order, {} + {1} + {b}, [], a);
    NothingLeft(h, order, {} + {1} + {b} + {a});
    assert [] + [1] == [1] && [] + [a, b] == [a] + [b] && [a] + [] == [] + [a];
    var emitted := Emitted(h, order, {}, [1]);
    assert [] + Freed(h, order, {} + {1} + {b}, a) == [];
    assert emitted == [1, b, a];
    OneInOrder(1);
    assert h.Keys - SetOf(emitted) == {};
  }

  lemma ForkRoots()
    ensures RootsOf(Fork()) == {1} && InIdOrder(RootsOf(Fork())) == [1]
  {
    ForkFacts();
    hide Fork;
    assert RootsOf(Fork()) == {1};
    OneInOrder(1);
  }

  lemma ForkFreed(a: BlockId, b: BlockId)
    requires (a == 2 && b == 3) || (a == 3 && b == 2)
    ensures var h, order := Fork(), [1, a, b];
      && Freed(h, order, {}, 1) == [a, b] && Freed(h, order, {} + {1}, b) == []
      && Freed(h, order, {} + {1} + {b}, a) == []
  {
    ForkFacts();
    var h, order := Fork(), [1, a, b];
    hide Fork;
    assert Frees(h, {}, 1, a) && Frees(h, {}, 1, b) && !Frees(h, {}, 1, 1);
    ThreeFreed(h, {}, 1, 1, a, b);
    ThreeFreed(h, {} + {1}, b, 1, a, b);
    ThreeFreed(h, {} + {1} + {b}, a, 1, a, b);
  }

  lemma ThreeFreed(h: Headers, done: set<BlockId>, id: BlockId, x: BlockId, y: BlockId, z: BlockId)
    ensures Freed(h, [x, y, z], done, id) ==
      (if Frees(h, done, id, x) then [x] else []) + (if Frees(h, done, id, y) then [y] else []) +
      (if Frees(h, done, id, z) then [z] else [])
  {
    hide Frees;
    assert [x, y, z][..2] == [x, y] && [x, y][..1] == [x] && [x][..0] == [];
    assert Freed(h, [], done, id) == [];
    assert Freed(h, [x], done, id) == (if Frees(h, done, id, x) then [x] else []);
    assert Freed(h, [x, y], done, id) == Freed(h, [x], done, id) + (if Frees(h, done, id, y) then [y] else []);
  }

  /** Two headers on one parent, both outputs possible: ties do not break on the id. */
  lemma TiesFollowTheMap()
    ensures Keyed(Fork()) && !Determined(Fork())
    ensures MayPutOut(Fork(), [Plain(1, []), Plain(2, [1]), Plain(3, [1])])
    ensures MayPutOut(Fork(), [Plain(1, []), Plain(3, [1]), Plain(2, [1])])
  {
    hide Fork, OutputIds;
    ForkFacts();
    ForkPutsOut(2, 3);
    ForkPutsOut(3, 2);
    ForkListed(2, 3);
    ForkListed(3, 2);
    var up, down := [Plain(1, []), Plain(2, [1]), Plain(3, [1])], [Plain(1, []), Plain(3, [1]), Plain(2, [1])];
    assert up[1] != down[1];
  }

  lemma ForkListed(a: BlockId, b: BlockId)
    requires (a == 2 && b == 3) || (a == 3 && b == 2)
    requires OutputIds(Fork(), [1, a, b]) == [1, b, a]
    ensures MayPutOut(Fork(), [Plain(1, []), Plain(b, [1]), Plain(a, [1])])
  {
    hide Fork, OutputIds;
    ForkFacts();
    var order := [1, a, b];
    assert forall x :: x in order <==> x in Fork();
    assert Visits(Fork(), order);
    assert SortedBy(Fork(), order) == [Plain(1, []), Plain(b, [1]), Plain(a, [1])];
  }
}
