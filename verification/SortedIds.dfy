/** Block ids in ascending order, without duplicates. */
module SortedIds {
  import opened BlockGraph

  /** Put `id` where it belongs, unless it is listed already. */
  function InsertId(sorted: seq<BlockId>, id: BlockId): seq<BlockId> {
    if sorted == [] || id < sorted[0] then [id] + sorted
    else if id == sorted[0] then sorted
    else [sorted[0]] + InsertId(sorted[1..], id)
  }

  /** Sorted, without duplicates: what every block constructor does to its parents. */
  function Canonical(ids: seq<BlockId>): seq<BlockId> {
    if ids == [] then [] else InsertId(Canonical(ids[1..]), ids[0])
  }

  predicate Ascending(ids: seq<BlockId>) {
    forall i, j :: 0 <= i < j < |ids| ==> ids[i] < ids[j]
  }

  lemma {:induction false} InsertIdAscends(sorted: seq<BlockId>, id: BlockId)
    requires Ascending(sorted)
    ensures Ascending(InsertId(sorted, id))
    ensures forall x :: x in InsertId(sorted, id) <==> x in sorted || x == id
  {
    if sorted == [] || id < sorted[0] {
      FirstIsLeast(sorted);
      PrependAscends(id, sorted);
    } else if sorted[0] < id {
      FirstIsLeast(sorted);
      RestMembers(sorted);
      hide Ascending;
      InsertIdAscends(sorted[1..], id);
      PrependAscends(sorted[0], InsertId(sorted[1..], id));
    }
  }

  lemma FirstIsLeast(s: seq<BlockId>)
    requires Ascending(s)
    ensures forall y :: y in s ==> s[0] <= y
  {
  }

  lemma PrependAscends(x: BlockId, s: seq<BlockId>)
    requires Ascending(s) && forall y :: y in s ==> x < y
    ensures Ascending([x] + s) && forall y :: y in [x] + s <==> y == x || y in s
  {
    forall i, j | 0 <= i < j <= |s|
      ensures ([x] + s)[i] < ([x] + s)[j]
    {
      assert ([x] + s)[j] == s[j - 1] && s[j - 1] in s;
    }
  }

  /** Canonical parents ascend strictly and are the listed ones. */
  lemma {:induction false} CanonicalAscends(ids: seq<BlockId>)
    ensures Ascending(Canonical(ids)) && forall x :: x in Canonical(ids) <==> x in ids
  {
    if ids != [] {
      assert ids == [ids[0]] + ids[1..];
      CanonicalAscends(ids[1..]);
      InsertIdAscends(Canonical(ids[1..]), ids[0]);
    }
  }

  lemma {:induction false} CanonicalKeepsAscending(ids: seq<BlockId>)
    requires Ascending(ids)
    ensures Canonical(ids) == ids
  {
    if ids != [] {
      CanonicalKeepsAscending(ids[1..]);
      assert ids == [ids[0]] + ids[1..];
      if |ids| > 1 {
        assert ids[1..][0] == ids[1];
      }
    }
  }

  lemma {:induction false} AscendingUnique(a: seq<BlockId>, b: seq<BlockId>)
    requires Ascending(a) && Ascending(b) && forall x :: x in a <==> x in b
    ensures a == b
  {
    assert a != [] ==> a[0] in a && a[0] in b;
    assert b != [] ==> b[0] in b && b[0] in a;
    if a != [] {
      RestMembers(a);
      RestMembers(b);
      AscendingUnique(a[1..], b[1..]);
      assert a == [a[0]] + a[1..] && b == [b[0]] + b[1..];
    }
  }

  lemma RestMembers(a: seq<BlockId>)
    requires Ascending(a) && a != []
    ensures Ascending(a[1..]) && forall x :: x in a[1..] <==> x in a && x != a[0]
  {
    assert a == [a[0]] + a[1..];
    assert forall x :: x in a[1..] ==> a[0] < x;
  }

  /** The order, and the repetition, in which parents were listed is forgotten. */
  lemma ParentOrderForgotten(a: seq<BlockId>, b: seq<BlockId>)
    ensures Canonical(a) == Canonical(b) <==> forall x :: x in a <==> x in b
  {
    CanonicalAscends(a);
    CanonicalAscends(b);
    if forall x :: x in a <==> x in b {
      AscendingUnique(Canonical(a), Canonical(b));
    }
  }

  lemma AscendingDistinct(ids: seq<BlockId>)
    requires Ascending(ids)
    ensures Distinct(ids)
  {
  }

  /** Inserting at any place adds exactly that id. */
  lemma InsertMembers(s: seq<BlockId>, pos: nat, id: BlockId, s': seq<BlockId>)
    requires pos <= |s| && s' == s[..pos] + [id] + s[pos..]
    ensures forall c :: c in s' <==> c == id || c in s
  {
    assert s == s[..pos] + s[pos..];
    assert s'[pos] == id;
  }
}
