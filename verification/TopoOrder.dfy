/** The deterministic topological order: by number of ancestors, then by id. */
module TopoOrder {
  import opened BlockGraph
  import opened SortedIds

  ghost predicate Before(g: Graph, a: BlockId, b: BlockId) {
    |Past(g, a)| < |Past(g, b)| || (|Past(g, a)| == |Past(g, b)| && a < b)
  }

  /** `r` lists the members of `s` once each, in order. */
  ghost predicate Ordered(g: Graph, s: set<BlockId>, r: seq<BlockId>) {
    && (forall b :: b in r <==> b in s)
    && (forall i, j :: 0 <= i < j < |r| ==> Before(g, r[i], r[j]))
  }

  ghost predicate Least(g: Graph, s: set<BlockId>, m: BlockId) {
    m in s && forall b :: b in s && b != m ==> Before(g, m, b)
  }

  lemma {:induction false} LeastExists(g: Graph, s: set<BlockId>)
    requires s != {}
    ensures exists m :: Least(g, s, m)
  {
    var x :| x in s;
    if s == {x} {
      assert Least(g, s, x);
    } else {
      LeastExists(g, s - {x});
      var m :| Least(g, s - {x}, m);
      var l := if Before(g, x, m) then x else m;
      forall b | b in s && b != l
        ensures Before(g, l, b)
      {
        assert b != x && b != m ==> b in s - {x};
      }
      assert Least(g, s, l);
    }
  }

  ghost function TopoSorted(g: Graph, s: set<BlockId>): (r: seq<BlockId>)
    ensures Ordered(g, s, r)
  {
    if s == {} then []
    else
      LeastExists(g, s);
      var m :| Least(g, s, m);
      [m] + TopoSorted(g, s - {m})
  }

  /** There is only one such list, and it depends on nothing but the pasts. */
  lemma {:induction false} OrderUnique(g: Graph, g': Graph, s: set<BlockId>, r: seq<BlockId>, r': seq<BlockId>)
    requires Ordered(g, s, r) && Ordered(g', s, r')
    requires forall b :: b in s ==> |Past(g, b)| == |Past(g', b)|
    ensures r == r'
  {
    OrderedDistinct(g, s, r);
    OrderedDistinct(g', s, r');
    if s != {} {
      FirstIsLeast(g, s, r);
      FirstIsLeast(g', s, r');
      assert r[0] in s && r'[0] in s;
      assert r[0] == r'[0];
      OrderUnique(g, g', s - {r[0]}, r[1..], r'[1..]);
      assert r == [r[0]] + r[1..] && r' == [r'[0]] + r'[1..];
    }
  }

  lemma FirstIsLeast(g: Graph, s: set<BlockId>, r: seq<BlockId>)
    requires Ordered(g, s, r) && r != []
    ensures Least(g, s, r[0]) && Ordered(g, s - {r[0]}, r[1..])
  {
    forall b | b in s && b != r[0]
      ensures Before(g, r[0], b) && b in r[1..]
    {
      var i :| 0 <= i < |r| && r[i] == b;
      assert r[1..][i - 1] == b;
    }
    assert r[0] !in r[1..];
  }

  lemma OrderedDistinct(g: Graph, s: set<BlockId>, r: seq<BlockId>)
    requires Ordered(g, s, r)
    ensures forall i, j :: 0 <= i < j < |r| ==> r[i] != r[j]
    ensures |r| == |s|
    decreases |s|
  {
    if r != [] {
      FirstIsLeast(g, s, r);
      OrderedDistinct(g, s - {r[0]}, r[1..]);
    } else {
      assert s == {};
    }
  }

  /** Ancestors come first. */
  lemma AncestorsFirst(g: Graph, genesis: BlockId, s: set<BlockId>, r: seq<BlockId>, i: nat, j: nat)
    requires WellFormed(g, genesis) && Ordered(g, s, r) && i < |r| && j < |r| && r[i] in Past(g, r[j])
    ensures i < j
  {
    AncestorHasSmallerPast(g, genesis, r[i], r[j]);
  }

  // ------------------------------------------------------- sorting by stored keys

  /** The stored key comparison `(past_size, id)`. */
  predicate KeyBefore(size: map<BlockId, nat>, a: BlockId, b: BlockId)
    requires a in size && b in size
  {
    size[a] < size[b] || (size[a] == size[b] && a < b)
  }

  /** Sort distinct blocks by the stored key, by insertion. */
  method SortByTopoKey(s: seq<BlockId>, size: map<BlockId, nat>) returns (r: seq<BlockId>)
    requires forall b :: b in s ==> b in size
    requires forall i, j :: 0 <= i < j < |s| ==> s[i] != s[j]
    ensures forall b :: b in r <==> b in s
    ensures KeysAscend(size, r)
  {
    r := [];
    for n := 0 to |s|
      invariant forall b :: b in r <==> b in s[..n]
      invariant KeysAscend(size, r)
    {
      var x := s[n];
      assert s[..n + 1] == s[..n] + [x];
      assert x in s && x !in s[..n];
      var pos := 0;
      while pos < |r| && KeyBefore(size, r[pos], x)
        invariant pos <= |r| && forall i :: 0 <= i < pos ==> KeyBefore(size, r[i], x)
      {
        pos := pos + 1;
      }
      InsertMembers(r, pos, x, r[..pos] + [x] + r[pos..]);
      InsertInOrder(size, r, pos, x, r[..pos] + [x] + r[pos..]);
      r := r[..pos] + [x] + r[pos..];
    }
    assert s[..|s|] == s;
  }

  ghost predicate KeysAscend(size: map<BlockId, nat>, r: seq<BlockId>) {
    && (forall b :: b in r ==> b in size)
    && (forall i, j :: 0 <= i < j < |r| ==> KeyBefore(size, r[i], r[j]))
  }

  lemma InsertInOrder(size: map<BlockId, nat>, r: seq<BlockId>, pos: nat, x: BlockId, r': seq<BlockId>)
    requires pos <= |r| && x in size && x !in r && KeysAscend(size, r)
    requires forall i :: 0 <= i < pos ==> KeyBefore(size, r[i], x)
    requires pos < |r| ==> !KeyBefore(size, r[pos], x)
    requires r' == r[..pos] + [x] + r[pos..] && forall b :: b in r' <==> b == x || b in r
    ensures KeysAscend(size, r')
  {
    forall j | pos <= j < |r|
      ensures KeyBefore(size, x, r[j])
    {
      assert r[pos] in r && r[j] in r;
      assert pos < j ==> KeyBefore(size, r[pos], r[j]);
    }
    forall i, j | 0 <= i < j < |r'|
      ensures KeyBefore(size, r'[i], r'[j])
    {
      InsertedAt(r, pos, x, i);
      InsertedAt(r, pos, x, j);
    }
  }

  lemma InsertedAt(r: seq<BlockId>, pos: nat, x: BlockId, i: nat)
    requires pos <= |r| && i <= |r|
    ensures (r[..pos] + [x] + r[pos..])[i] == if i < pos then r[i] else if i == pos then x else r[i - 1]
  {
  }
}
