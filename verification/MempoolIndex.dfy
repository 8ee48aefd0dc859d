/** The values a mempool is made of, and the index from missing outpoints to the
    orphans that wait for them. */
module MempoolIndex {
  import opened BlockGraph
  import opened Words
  import opened Wrappers

  newtype TxId = x: int | 0 <= x < ID_SPACE

  datatype OutPoint = OutPoint(tx: TxId, slot: nat)

  datatype Tx = Tx(id: TxId, coinbase: bool, inputs: seq<OutPoint>, size: nat)

  /** The spendable outputs, and what a transaction whose inputs are all there pays per byte. */
  datatype Utxo = Utxo(coins: set<OutPoint>, rateOf: Tx -> Option<u64>)
  {
    predicate Spendable(tx: Tx) {
      forall o :: o in tx.inputs ==> o in coins
    }

    function FeeRate(tx: Tx): Option<u64> {
      if Spendable(tx) then rateOf(tx) else None
    }
  }

  datatype Entry = Entry(tx: Tx, size: nat, feeRate: u64)

  type Pool = map<TxId, Entry>

  type Index = map<OutPoint, set<TxId>>

  ghost predicate Keyed(pool: Pool) {
    forall id :: id in pool ==> pool[id].tx.id == id
  }

  ghost predicate Submap(a: Pool, b: Pool) {
    forall id :: id in a ==> id in b && a[id] == b[id]
  }

  lemma SubmapSize(a: Pool, b: Pool)
    requires Submap(a, b)
    ensures a.Keys <= b.Keys && |a| <= |b|
  {
    assert |a| == |a.Keys| && |b| == |b.Keys|;
    SubsetSize(a.Keys, b.Keys);
  }

  lemma PoolLess(pool: Pool, id: TxId)
    requires id in pool
    ensures (pool - {id}).Keys == pool.Keys - {id} && |pool - {id}| == |pool| - 1 && Submap(pool - {id}, pool)
  {
    assert (pool - {id}).Keys == pool.Keys - {id};
    assert |pool - {id}| == |(pool - {id}).Keys| && |pool| == |pool.Keys|;
  }

  lemma PoolMore(pool: Pool, id: TxId, e: Entry)
    requires id !in pool
    ensures pool[id := e] - {id} == pool && |pool[id := e]| == |pool| + 1
  {
    PoolLess(pool[id := e], id);
    assert pool[id := e] - {id} == pool;
  }

  // ------------------------------------------------------------------ total size

  ghost function SumOver(pool: Pool, s: set<TxId>): nat
    requires s <= pool.Keys
  {
    if s == {} then 0
    else
      var id :| id in s;
      SumOver(pool, s - {id}) + pool[id].size
  }

  ghost function Total(pool: Pool): nat {
    SumOver(pool, pool.Keys)
  }

  /** The sum does not depend on the order the pool is visited in. */
  lemma {:induction false} SumLess(pool: Pool, s: set<TxId>, id: TxId)
    requires s <= pool.Keys && id in s
    ensures SumOver(pool, s) == SumOver(pool, s - {id}) + pool[id].size
  {
    var x :| x in s && SumOver(pool, s) == SumOver(pool, s - {x}) + pool[x].size;
    if x != id {
      SumLess(pool, s - {x}, id);
      SumLess(pool, s - {id}, x);
      assert s - {x} - {id} == s - {id} - {x};
    }
  }

  lemma {:induction false} SumAgrees(a: Pool, b: Pool, s: set<TxId>)
    requires s <= a.Keys && s <= b.Keys && forall id :: id in s ==> a[id].size == b[id].size
    ensures SumOver(a, s) == SumOver(b, s)
  {
    if s != {} {
      var id :| id in s;
      SumAgrees(a, b, s - {id});
      SumLess(a, s, id);
      SumLess(b, s, id);
    }
  }

  lemma TotalLess(pool: Pool, id: TxId)
    requires id in pool
    ensures Total(pool) == Total(pool - {id}) + pool[id].size
  {
    PoolLess(pool, id);
    SumLess(pool, pool.Keys, id);
    SumAgrees(pool, pool - {id}, pool.Keys - {id});
  }

  lemma TotalMore(pool: Pool, id: TxId, e: Entry)
    requires id !in pool
    ensures Total(pool[id := e]) == Total(pool) + e.size
  {
    PoolMore(pool, id, e);
    TotalLess(pool[id := e], id);
  }

  lemma TotalEmpty()
    ensures Total(map[]) == 0
  {
  }

  // ----------------------------------------------------------------------- index

  function IdsAt(index: Index, o: OutPoint): set<TxId> {
    if o in index then index[o] else {}
  }

  ghost predicate NoneEmpty(index: Index) {
    forall o :: o in index ==> index[o] != {}
  }

  /** Only live orphans are listed, under inputs of their own, and every orphan is. */
  ghost predicate Indexes(index: Index, orphans: Pool) {
    && NoneEmpty(index)
    && (forall o, id :: id in IdsAt(index, o) ==> id in orphans && o in orphans[id].tx.inputs)
    && (forall id :: id in orphans ==> Waits(index, id))
  }

  ghost predicate Waits(index: Index, id: TxId) {
    exists o :: id in IdsAt(index, o)
  }

  function Listed(index: Index, o: OutPoint, id: TxId): Index {
    index[o := IdsAt(index, o) + {id}]
  }

  function Unlisted(index: Index, o: OutPoint, id: TxId): Index {
    if o !in index then index
    else if index[o] == {id} || index[o] == {} then index - {o}
    else index[o := index[o] - {id}]
  }

  /** `after` differs from `before` in that `id` is listed under `where` too. */
  ghost predicate ListedUnder(before: Index, after: Index, id: TxId, where: seq<OutPoint>) {
    NoneEmpty(after) && forall o :: IdsAt(after, o) == IdsAt(before, o) + if o in where then {id} else {}
  }

  ghost predicate UnlistedUnder(before: Index, after: Index, id: TxId, where: seq<OutPoint>) {
    NoneEmpty(after) && forall o :: IdsAt(after, o) == IdsAt(before, o) - if o in where then {id} else {}
  }

  method ListUnder(index: Index, id: TxId, where: seq<OutPoint>) returns (r: Index)
    requires NoneEmpty(index)
    ensures ListedUnder(index, r, id, where)
  {
    r := index;
    for i := 0 to |where|
      invariant ListedUnder(index, r, id, where[..i])
    {
      ListedNext(index, r, id, where[..i], where[i]);
      assert where[..i + 1] == where[..i] + [where[i]];
      r := Listed(r, where[i], id);
    }
    assert where[..|where|] == where;
  }

  lemma ListedNext(before: Index, after: Index, id: TxId, front: seq<OutPoint>, o: OutPoint)
    requires ListedUnder(before, after, id, front)
    ensures ListedUnder(before, Listed(after, o, id), id, front + [o])
  {
    forall q
      ensures IdsAt(Listed(after, o, id), q) == IdsAt(before, q) + if q in front + [o] then {id} else {}
    {
      assert q in front + [o] <==> q in front || q == o;
    }
  }

  method UnlistUnder(index: Index, id: TxId, where: seq<OutPoint>) returns (r: Index)
    requires NoneEmpty(index)
    ensures UnlistedUnder(index, r, id, where)
  {
    r := index;
    for i := 0 to |where|
      invariant UnlistedUnder(index, r, id, where[..i])
    {
      UnlistedNext(index, r, id, where[..i], where[i]);
      assert where[..i + 1] == where[..i] + [where[i]];
      r := Unlisted(r, where[i], id);
    }
    assert where[..|where|] == where;
  }

  lemma UnlistedNext(before: Index, after: Index, id: TxId, front: seq<OutPoint>, o: OutPoint)
    requires UnlistedUnder(before, after, id, front)
    ensures UnlistedUnder(before, Unlisted(after, o, id), id, front + [o])
  {
    var next := Unlisted(after, o, id);
    forall q
      ensures IdsAt(next, q) == IdsAt(before, q) - if q in front + [o] then {id} else {}
    {
      assert q in front + [o] <==> q in front || q == o;
    }
    forall q | q in next
      ensures next[q] != {}
    {
      if q == o {
        assert after[o] != {id} && after[o] != {};
        var x :| x in after[o] && x != id;
        assert x in next[o];
      }
    }
  }

  /** Listing a new orphan under some of its inputs keeps the index right. */
  lemma OrphanListed(index: Index, orphans: Pool, index': Index, id: TxId, e: Entry, missing: seq<OutPoint>)
    requires Indexes(index, orphans) && ListedUnder(index, index', id, missing) && id !in orphans
    requires missing != [] && forall o :: o in missing ==> o in e.tx.inputs
    ensures Indexes(index', orphans[id := e])
  {
    forall x | x in orphans[id := e]
      ensures Waits(index', x)
    {
      if x == id {
        assert missing[0] in missing && id in IdsAt(index', missing[0]);
      } else {
        var o :| x in IdsAt(index, o);
        assert x in IdsAt(index', o);
      }
    }
  }

  /** Unlisting an orphan under all of its inputs forgets it. */
  lemma OrphanUnlisted(index: Index, orphans: Pool, index': Index, id: TxId)
    requires Indexes(index, orphans) && id in orphans && UnlistedUnder(index, index', id, orphans[id].tx.inputs)
    ensures Indexes(index', orphans - {id})
  {
    forall x | x in orphans - {id}
      ensures Waits(index', x)
    {
      var o :| x in IdsAt(index, o);
      assert x in IdsAt(index', o);
    }
  }

  /** The inputs `utxo` does not have, in order. */
  function Missing(inputs: seq<OutPoint>, utxo: Utxo): (r: seq<OutPoint>)
    ensures forall o :: o in r <==> o in inputs && o !in utxo.coins
  {
    if inputs == [] then []
    else
      assert inputs == [inputs[0]] + inputs[1..];
      (if inputs[0] in utxo.coins then [] else [inputs[0]]) + Missing(inputs[1..], utxo)
  }

  lemma MissingIff(tx: Tx, utxo: Utxo)
    ensures Missing(tx.inputs, utxo) == [] <==> utxo.Spendable(tx)
  {
    var missing := Missing(tx.inputs, utxo);
    if missing != [] {
      assert missing[0] in missing;
    }
    assert forall o :: o in tx.inputs && o !in utxo.coins ==> o in missing;
  }
}
