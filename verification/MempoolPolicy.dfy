/** What eviction and replacement promise, and where they fall short: who gets room,
    and which transactions a replacement can push out. */
module MempoolPolicy {
  import opened Mempool
  import opened MempoolIndex
  import opened Words
  import opened Wrappers
  import BlockGraph

  // ------------------------------------------------------------------- making room

  /** The newcomer fits beside this transaction of the highest rate. */
  ghost predicate FitsBeside(config: Config, p: Pool, size: nat, top: TxId)
    requires config.maxBytes.Some?
  {
    Highest(p, top) && p[top].size + size <= config.maxBytes.value
  }

  ghost predicate TooBigBeside(config: Config, p: Pool, size: nat, top: TxId)
    requires config.maxBytes.Some?
  {
    Highest(p, top) && p[top].size + size > config.maxBytes.value
  }

  /** Some transaction of the highest rate survives whatever evictions leave anything. */
  lemma TopSurvives(p: Pool, q: Pool) returns (top: TxId)
    requires Evicted(p, q) && |q| != 0
    ensures Highest(p, top) && top in q && q[top] == p[top]
  {
    top := SomeHighest(q);
    forall x | x in p
      ensures p[x].feeRate <= p[top].feeRate
    {
      assert x in q ==> q[x] == p[x];
    }
  }

  lemma {:induction false} SomeHighest(q: Pool) returns (top: TxId)
    requires |q| != 0
    ensures Highest(q, top)
    decreases |q|
  {
    assert |q| == |q.Keys| && q.Keys != {};
    var x :| x in q;
    PoolLess(q, x);
    if |q| == 1 {
      BlockGraph.SubsetSize({x}, q.Keys);
      top := x;
    } else {
      var h := SomeHighest(q - {x});
      top := if q[h].feeRate < q[x].feeRate then x else h;
    }
  }

  /** Who gets in. Without a byte limit, always. Into a pool that is empty, or that holds
      one transaction at most, exactly what fits alone. Otherwise only what fits beside
      some transaction of the highest rate; and what is refused does not fit beside some
      other one, and has emptied the pool. So fitting beside all of them is enough, and
      fitting beside none of them is not, however small the newcomer is. */
  lemma RoomDecides(config: Config, p: Pool, e: Entry, r: Result<Added, MempoolError>, p': Pool)
    requires Accepted(config, p, e, r, p') && e.tx.id !in p
    ensures config.maxBytes.None? ==> r.Ok?
    ensures config.maxBytes.Some? && (p == map[] || config.maxTxs == Some(1)) ==>
      (r.Ok? <==> e.size <= config.maxBytes.value)
    ensures config.maxBytes.Some? && p != map[] && config.maxTxs != Some(1) ==>
      && (r.Ok? ==> exists top :: FitsBeside(config, p, e.size, top))
      && (r.Err? ==> exists top :: TooBigBeside(config, p, e.size, top))
    ensures r.Err? ==> r.error == CapacityExceeded && p' == map[]
  {
    hide Needed, Room, Total;
    if r.Ok? {
      var q := p' - {e.tx.id};
      assert p' == q[e.tx.id := e];
      TotalMore(q, e.tx.id, e);
      if |q| != 0 {
        var top := TopSurvives(p, q);
        TotalLess(q, top);
        assert config.maxBytes.Some? ==> FitsBeside(config, p, e.size, top);
      }
    } else if p != map[] {
      TopExists(p);
      assert forall top :: Highest(p, top) && e.size > config.maxBytes.value ==> TooBigBeside(config, p, e.size, top);
      assert forall top :: Highest(p, top) && p[top].size + e.size > config.maxBytes.value ==>
        TooBigBeside(config, p, e.size, top);
    }
  }

  lemma TopExists(p: Pool)
    requires p != map[]
    ensures exists top :: Highest(p, top)
  {
    assert p.Keys != {};
    var top := SomeHighest(p);
  }

  /** A pool of one: a transaction that would fit alone is refused, and empties the pool. */
  lemma FitsAloneYetRefused(config: Config, id: TxId, held: Entry, e: Entry, r: Result<Added, MempoolError>, p': Pool)
    requires config.maxTxs != Some(1) && config.maxBytes.Some? && id != e.tx.id
    requires e.size <= config.maxBytes.value < held.size + e.size
    requires Accepted(config, map[id := held], e, r, p')
    ensures r == Err(CapacityExceeded) && p' == map[]
  {
    var p := map[id := held];
    assert id in p && forall top :: !FitsBeside(config, p, e.size, top);
    RoomDecides(config, p, e, r, p');
  }

  /** Which of several transactions sharing the highest rate goes first is not determined,
      and decides: beside a large and a small one, the newcomer may get in or be refused. */
  lemma TieGoesEitherWay(config: Config, a: TxId, large: Entry, b: TxId, small: Entry, e: Entry)
    requires a != b && e.tx.id != a && e.tx.id != b && large.feeRate == small.feeRate
    requires config.maxTxs.None? && config.maxBytes.Some?
    requires small.size + e.size <= config.maxBytes.value < large.size + e.size
    ensures var p := map[a := large, b := small];
      && Accepted(config, p, e, Ok(Pending), map[b := small, e.tx.id := e])
      && Accepted(config, p, e, Err(CapacityExceeded), map[])
  {
    hide Total;
    var p, q := map[a := large, b := small], map[b := small];
    var p' := map[b := small, e.tx.id := e];
    TotalEmpty();
    assert map[][b := small] == q && q[e.tx.id := e] == p' && p' - {e.tx.id} == q && q[a := large] == p;
    TotalMore(map[], b, small);
    TotalMore(q, e.tx.id, e);
    TotalMore(q, a, large);
    assert LastOut(p, q, a);
    assert Highest(p, a);
  }

  // ------------------------------------------------------------- what can happen

  /** An outcome exists: evict the lowest rate until there is room or nothing is left. */
  lemma {:induction false} SomeRoom(config: Config, before: Pool, pool: Pool, size: nat) returns (q: Option<Pool>)
    requires config.Positive() && Evicted(before, pool) && Needed(config, before, pool, size)
    requires KeepsOne(config, before, pool)
    ensures q.Some? ==>
      Evicted(before, q.value) && Room(config, q.value, size) && Needed(config, before, q.value, size) &&
      KeepsOne(config, before, q.value) && q.value.Keys <= pool.Keys
    ensures q.None? ==> LastDoesNotFit(config, before, size)
    decreases |pool|, 1
  {
    hide Evicted, Needed, Total, Lowest, LastDoesNotFit, KeepsOne;
    if Room(config, pool, size) {
      q := Some(pool);
    } else if |pool| == 0 {
      EmptyPool(pool);
      NothingFits(config, before, size);
      q := None;
    } else {
      var id := SomeLowest(pool);
      q := RoomAfter(config, before, pool, size, id);
    }
  }

  lemma EmptyPool(pool: Pool)
    requires |pool| == 0
    ensures pool == map[]
  {
    assert |pool.Keys| == 0;
  }

  lemma LowestIn(pool: Pool, id: TxId)
    requires Lowest(pool, id)
    ensures id in pool
  {
  }

  lemma {:induction false} SomeLowest(q: Pool) returns (id: TxId)
    requires |q| != 0
    ensures Lowest(q, id)
    decreases |q|
  {
    assert |q| == |q.Keys| && q.Keys != {};
    var x :| x in q;
    PoolLess(q, x);
    if |q| == 1 {
      BlockGraph.SubsetSize({x}, q.Keys);
      id := x;
    } else {
      var l := SomeLowest(q - {x});
      id := if q[x].feeRate < q[l].feeRate then x else l;
    }
  }

  lemma SomeOutcome(config: Config, p: Pool, e: Entry) returns (r: Result<Added, MempoolError>, p': Pool)
    requires config.Positive() && e.tx.id !in p
    ensures Accepted(config, p, e, r, p')
  {
    NothingEvicted(config, p, e.size);
    var q := SomeRoom(config, p, p, e.size);
    if q.Some? {
      Takes(config, p, e, q.value);
      r, p' := Ok(Pending), q.value[e.tx.id := e];
    } else {
      r, p' := Err(CapacityExceeded), map[];
    }
  }

  lemma RoomKeepsLimits(config: Config, q: Pool, e: Entry)
    requires Room(config, q, e.size) && e.tx.id !in q
    ensures WithinLimits(config, q[e.tx.id := e])
  {
    hide Total;
    PoolMore(q, e.tx.id, e);
    TotalMore(q, e.tx.id, e);
  }

  /** The transactions of at least this rate. */
  ghost function AtLeast(p: Pool, rate: u64): Pool {
    map x | x in p && rate <= p[x].feeRate :: p[x]
  }

  /** What is left when `c` goes last of its rate: itself and the higher rates. */
  ghost function Above(p: Pool, c: TxId): Pool
    requires c in p
  {
    map x | x in p && (x == c || p[c].feeRate < p[x].feeRate) :: p[x]
  }

  /** There is room before this one has to go. */
  ghost predicate MayStay(config: Config, p: Pool, size: nat, c: TxId) {
    c in p && Room(config, Above(p, c), size)
  }

  /** Evicting with `c` kept back as long as others of its rate or less are left. */
  lemma {:induction false} RoomKeeping(config: Config, before: Pool, pool: Pool, size: nat, c: TxId)
    returns (q: Pool)
    requires config.Positive() && Evicted(before, pool) && Needed(config, before, pool, size)
    requires MayStay(config, pool, size, c)
    ensures Evicted(before, q) && Room(config, q, size) && Needed(config, before, q, size) && c in q
    decreases |pool|
  {
    hide Evicted, Needed, Total, Lowest;
    if Room(config, pool, size) {
      q := pool;
    } else {
      var id := LowestButOne(config, pool, size, c);
      LowestIn(pool, id);
      PoolLess(pool, id);
      EvictLowest(config, before, pool, id, size);
      assert Above(pool - {id}, c) == Above(pool, c);
      q := RoomKeeping(config, before, pool - {id}, size, c);
    }
  }

  lemma LowestButOne(config: Config, pool: Pool, size: nat, c: TxId) returns (id: TxId)
    requires MayStay(config, pool, size, c) && !Room(config, pool, size)
    ensures Lowest(pool, id) && id != c && pool[id].feeRate <= pool[c].feeRate
  {
    hide Room;
    var x := NotAllAbove(pool, c);
    SomeOther(pool, c, x);
    id := SomeLowest(pool - {c});
    assert forall y :: y in pool && y != c ==> y in pool - {c} && pool[y] == (pool - {c})[y];
    assert pool[id].feeRate <= pool[x].feeRate;
  }

  lemma NotAllAbove(pool: Pool, c: TxId) returns (x: TxId)
    requires c in pool && pool != Above(pool, c)
    ensures x in pool && x != c && pool[x].feeRate <= pool[c].feeRate
  {
    x :| x in pool && x !in Above(pool, c);
  }

  lemma SomeOther(pool: Pool, c: TxId, x: TxId)
    requires x in pool && x != c
    ensures |pool - {c}| != 0
  {
    assert x in pool - {c} && |pool - {c}| == |(pool - {c}).Keys|;
  }

  /** Once all lower rates are gone there is still no room, so this one may be next. */
  ghost predicate Evictable(config: Config, p: Pool, size: nat, c: TxId) {
    c in p && !Room(config, AtLeast(p, p[c].feeRate), size)
  }

  lemma {:induction false} TotalShrinks(a: Pool, b: Pool)
    requires Submap(a, b)
    ensures Total(a) <= Total(b) && |a| <= |b|
    decreases |b|
  {
    hide Total;
    assert |a| == |a.Keys| && |b| == |b.Keys| && a.Keys <= b.Keys;
    BlockGraph.SubsetSize(a.Keys, b.Keys);
    if a.Keys != b.Keys {
      var x :| x in b.Keys && x !in a.Keys;
      PoolLess(b, x);
      TotalLess(b, x);
      TotalShrinks(a, b - {x});
    } else {
      assert a == b;
    }
  }

  lemma RoomShrinks(config: Config, a: Pool, b: Pool, size: nat)
    requires Submap(a, b) && !Room(config, a, size)
    ensures !Room(config, b, size)
  {
    hide Total;
    TotalShrinks(a, b);
  }

  /** Evicting all lower rates, then `c`, and going on from there. */
  lemma {:induction false} RoomWithout(config: Config, before: Pool, pool: Pool, size: nat, c: TxId)
    returns (q: Option<Pool>)
    requires config.Positive() && Evicted(before, pool) && Evictable(config, pool, size, c)
    ensures q.Some? ==>
      Evicted(before, q.value) && Room(config, q.value, size) && Needed(config, before, q.value, size) &&
      KeepsOne(config, before, q.value) && c !in q.value
    ensures q.None? ==> LastDoesNotFit(config, before, size)
    decreases |pool|
  {
    hide Evicted, Needed, Total, Lowest, LastDoesNotFit, KeepsOne, Room;
    assert Submap(AtLeast(pool, pool[c].feeRate), pool);
    RoomShrinks(config, AtLeast(pool, pool[c].feeRate), pool, size);
    var id := NextOut(pool, c);
    LowestIn(pool, id);
    PoolLess(pool, id);
    EvictLowest(config, before, pool, id, size);
    if id != c {
      assert AtLeast(pool - {id}, pool[c].feeRate) == AtLeast(pool, pool[c].feeRate);
      q := RoomWithout(config, before, pool - {id}, size, c);
    } else {
      q := RoomAfter(config, before, pool, size, c);
    }
  }

  /** A transaction to evict that pays less than `c`, or else `c`. */
  lemma NextOut(pool: Pool, c: TxId) returns (id: TxId)
    requires c in pool
    ensures Lowest(pool, id) && (id == c || pool[id].feeRate < pool[c].feeRate)
  {
    PoolLess(pool, c);
    id := SomeLowest(pool);
    if pool[id].feeRate == pool[c].feeRate {
      id := c;
    }
  }

  lemma RoomAfter(config: Config, before: Pool, pool: Pool, size: nat, id: TxId) returns (q: Option<Pool>)
    requires config.Positive() && Evicted(before, pool) && Lowest(pool, id) && !Room(config, pool, size)
    ensures q.Some? ==>
      Evicted(before, q.value) && Room(config, q.value, size) && Needed(config, before, q.value, size) &&
      KeepsOne(config, before, q.value) && q.value.Keys <= pool.Keys - {id}
    ensures q.None? ==> LastDoesNotFit(config, before, size)
    decreases |pool|, 0
  {
    hide Evicted, Needed, Total, Lowest, LastDoesNotFit, KeepsOne;
    LowestIn(pool, id);
    PoolLess(pool, id);
    EvictLowest(config, before, pool, id, size);
    if !HasSlot(config, pool) {
      CountKeepsOne(config, before, pool, id);
      q := SomeRoom(config, before, pool - {id}, size);
    } else if |pool - {id}| == 0 {
      LastEvicted(config, before, pool, id, size);
      q := None;
    } else {
      SomeLeft(config, before, pool - {id});
      q := SomeRoom(config, before, pool - {id}, size);
    }
  }

  lemma Takes(config: Config, p: Pool, e: Entry, q: Pool)
    requires Evicted(p, q) && Room(config, q, e.size) && Needed(config, p, q, e.size) && KeepsOne(config, p, q)
    requires e.tx.id !in p
    ensures Accepted(config, p, e, Ok(Pending), q[e.tx.id := e])
  {
    hide Needed, Room, LastDoesNotFit, KeepsOne;
    EvictedKeys(p, q);
    PoolMore(q, e.tx.id, e);
    RoomKeepsLimits(config, q, e);
  }

  /** Of two transactions of one rate the search may put either first, so the byte limit has
      two answers to give: taken is possible exactly when the newcomer fits beside some
      transaction of the highest rate, refused exactly when it does not beside some one. */
  lemma AnswersIff(config: Config, p: Pool, e: Entry)
    requires config.Positive() && e.tx.id !in p && config.maxBytes.Some? && p != map[] && config.maxTxs != Some(1)
    ensures (exists r, p' :: Accepted(config, p, e, r, p') && r.Ok?) <==> exists top :: FitsBeside(config, p, e.size, top)
    ensures (exists r, p' :: Accepted(config, p, e, r, p') && r.Err?) <==>
      exists top :: TooBigBeside(config, p, e.size, top)
  {
    hide Accepted, Evicted, Needed, Room, Highest;
    forall r, p' | Accepted(config, p, e, r, p')
      ensures r.Ok? ==> exists top :: FitsBeside(config, p, e.size, top)
      ensures r.Err? ==> exists top :: TooBigBeside(config, p, e.size, top)
    {
      RoomDecides(config, p, e, r, p');
    }
    if top :| FitsBeside(config, p, e.size, top) {
      var q := TakenBeside(config, p, e, top);
    }
    if top :| TooBigBeside(config, p, e.size, top) {
      RefusedBeside(config, p, e, top);
    }
  }

  lemma TakenBeside(config: Config, p: Pool, e: Entry, top: TxId) returns (q: Pool)
    requires config.Positive() && e.tx.id !in p && config.maxBytes.Some? && config.maxTxs != Some(1)
    requires FitsBeside(config, p, e.size, top)
    ensures Accepted(config, p, e, Ok(Pending), q)
  {
    hide Evicted, Needed, Total, Accepted;
    NothingEvicted(config, p, e.size);
    TotalEmpty();
    TotalMore(map[], top, p[top]);
    assert map[][top := p[top]] == map[top := p[top]] == Above(p, top);
    assert Room(config, Above(p, top), e.size);
    hide Room;
    var kept := RoomKeeping(config, p, p, e.size, top);
    SomeKept(config, p, kept, top);
    Takes(config, p, e, kept);
    q := kept[e.tx.id := e];
  }

  lemma SomeKept(config: Config, before: Pool, q: Pool, top: TxId)
    requires top in q
    ensures KeepsOne(config, before, q)
  {
    assert |q| == |q.Keys|;
  }

  lemma RefusedBeside(config: Config, p: Pool, e: Entry, top: TxId)
    requires config.maxBytes.Some? && config.maxTxs != Some(1) && TooBigBeside(config, p, e.size, top)
    ensures Accepted(config, p, e, Err(CapacityExceeded), map[])
  {
  }

  /** A transaction can be pushed out for the newcomer if and only if there is no room once
      all lower rates are gone. */
  lemma EvictableIff(config: Config, p: Pool, e: Entry, c: TxId)
    requires config.Positive() && e.tx.id !in p && c in p
    ensures (exists r, p' :: Accepted(config, p, e, r, p') && c !in p') <==> Evictable(config, p, e.size, c)
  {
    hide Accepted, Evictable;
    forall r, p' | Accepted(config, p, e, r, p') && c !in p'
      ensures Evictable(config, p, e.size, c)
    {
      LeavesIfEvictable(config, p, e, r, p', c);
    }
    if Evictable(config, p, e.size, c) {
      var r, p' := Leaves(config, p, e, c);
    }
  }

  lemma LeavesIfEvictable(config: Config, p: Pool, e: Entry, r: Result<Added, MempoolError>, p': Pool, c: TxId)
    requires Accepted(config, p, e, r, p') && e.tx.id !in p && c in p && c !in p'
    ensures Evictable(config, p, e.size, c)
  {
    hide Room, Total;
    var kept := AtLeast(p, p[c].feeRate);
    if r.Ok? {
      var q := p' - {e.tx.id};
      assert c !in q;
      var last :| LastOut(p, q, last) && !Room(config, q[last := p[last]], e.size);
      assert Submap(q[last := p[last]], kept);
      RoomShrinks(config, q[last := p[last]], kept, e.size);
    } else {
      NoRoomBeside(config, p, kept, c, e.size);
    }
  }

  /** Refused, the newcomer does not fit beside the highest rate, let alone beside more. */
  lemma NoRoomBeside(config: Config, p: Pool, kept: Pool, c: TxId, size: nat)
    requires LastDoesNotFit(config, p, size) && c in p && kept == AtLeast(p, p[c].feeRate)
    ensures !Room(config, kept, size)
  {
    hide Total;
    if size <= config.maxBytes.value {
      var top :| Highest(p, top) && p[top].size + size > config.maxBytes.value;
      TotalLess(kept, top);
    }
  }

  lemma Leaves(config: Config, p: Pool, e: Entry, c: TxId) returns (r: Result<Added, MempoolError>, p': Pool)
    requires config.Positive() && e.tx.id !in p && Evictable(config, p, e.size, c)
    ensures Accepted(config, p, e, r, p') && c !in p'
  {
    hide Evicted, Needed, Room, LastDoesNotFit, KeepsOne;
    NothingEvicted(config, p, e.size);
    var q := RoomWithout(config, p, p, e.size, c);
    if q.Some? {
      Takes(config, p, e, q.value);
      r, p' := Ok(Pending), q.value[e.tx.id := e];
    } else {
      r, p' := Err(CapacityExceeded), map[];
    }
  }

  // ------------------------------------------------------------ one outcome or several

  /** A transaction can survive the newcomer if and only if there is room before it has to
      go, being the last of its rate to go. */
  lemma MayStayIff(config: Config, p: Pool, e: Entry, c: TxId)
    requires config.Positive() && e.tx.id !in p && c in p
    ensures (exists r, p' :: Accepted(config, p, e, r, p') && c in p') <==> MayStay(config, p, e.size, c)
  {
    hide Accepted, MayStay;
    forall r, p' | Accepted(config, p, e, r, p') && c in p'
      ensures MayStay(config, p, e.size, c)
    {
      StaysIfMay(config, p, e, r, p', c);
    }
    if MayStay(config, p, e.size, c) {
      var p' := Stays(config, p, e, c);
    }
  }

  lemma StaysIfMay(config: Config, p: Pool, e: Entry, r: Result<Added, MempoolError>, p': Pool, c: TxId)
    requires Accepted(config, p, e, r, p') && e.tx.id !in p && c in p && c in p'
    ensures MayStay(config, p, e.size, c)
  {
    hide Total, Needed;
    var q := p' - {e.tx.id};
    assert p' == q[e.tx.id := e] && c in q;
    PoolMore(q, e.tx.id, e);
    TotalMore(q, e.tx.id, e);
    assert Room(config, q, e.size);
    hide Room;
    SurvivorsAbove(p, q, c);
    if !Room(config, Above(p, c), e.size) {
      RoomShrinks(config, Above(p, c), q, e.size);
    }
  }

  lemma SurvivorsAbove(p: Pool, q: Pool, c: TxId)
    requires Evicted(p, q) && c in q
    ensures c in p && Submap(Above(p, c), q)
  {
  }

  lemma Stays(config: Config, p: Pool, e: Entry, c: TxId) returns (p': Pool)
    requires config.Positive() && e.tx.id !in p && MayStay(config, p, e.size, c)
    ensures Accepted(config, p, e, Ok(Pending), p') && c in p'
  {
    hide Evicted, Needed, Room, MayStay, Accepted;
    NothingEvicted(config, p, e.size);
    var q := RoomKeeping(config, p, p, e.size, c);
    SomeKept(config, p, q, c);
    Takes(config, p, e, q);
    p' := q[e.tx.id := e];
  }

  /** Whichever of several lowest rates the search finds first, the pool ends up the same. */
  ghost predicate OneOutcome(config: Config, p: Pool, e: Entry) {
    forall r, p', s, q' :: Accepted(config, p, e, r, p') && Accepted(config, p, e, s, q') ==> r == s && p' == q'
  }

  /** That holds if and only if no transaction can both leave and stay, as the room beside
      its own rate and above tells. */
  lemma OneOutcomeIff(config: Config, p: Pool, e: Entry)
    requires config.Positive() && e.tx.id !in p
    ensures OneOutcome(config, p, e) <==>
      forall c :: c in p ==> !(Evictable(config, p, e.size, c) && MayStay(config, p, e.size, c))
  {
    hide Accepted, Evictable, MayStay;
    if c :| c in p && Evictable(config, p, e.size, c) && MayStay(config, p, e.size, c) {
      var r, p' := Leaves(config, p, e, c);
      var q' := Stays(config, p, e, c);
      assert Accepted(config, p, e, Ok(Pending), q') && p' != q';
    } else {
      forall r, p', s, q' | Accepted(config, p, e, r, p') && Accepted(config, p, e, s, q')
        ensures r == s && p' == q'
      {
        SameOutcome(config, p, e, r, p', s, q');
      }
    }
  }

  lemma SameOutcome(
      config: Config, p: Pool, e: Entry, r: Result<Added, MempoolError>, p': Pool, s: Result<Added, MempoolError>,
      q': Pool)
    requires e.tx.id !in p && Accepted(config, p, e, r, p') && Accepted(config, p, e, s, q')
    requires forall c :: c in p ==> !(Evictable(config, p, e.size, c) && MayStay(config, p, e.size, c))
    ensures r == s && p' == q'
  {
    hide Evictable, MayStay, Accepted;
    forall c | c in p
      ensures c in p' <==> c in q'
    {
      if c in p' && c !in q' {
        StaysIfMay(config, p, e, r, p', c);
        LeavesIfEvictable(config, p, e, s, q', c);
      }
      if c in q' && c !in p' {
        StaysIfMay(config, p, e, s, q', c);
        LeavesIfEvictable(config, p, e, r, p', c);
      }
    }
    SameSurvivors(config, p, e, r, p', s, q');
  }

  lemma SameSurvivors(
      config: Config, p: Pool, e: Entry, r: Result<Added, MempoolError>, p': Pool, s: Result<Added, MempoolError>,
      q': Pool)
    requires e.tx.id !in p && Accepted(config, p, e, r, p') && Accepted(config, p, e, s, q')
    requires forall c :: c in p ==> (c in p' <==> c in q')
    ensures r == s && p' == q'
  {
    Survivors(config, p, e, r, p');
    Survivors(config, p, e, s, q');
    hide Accepted;
    if forall c :: c in p ==> c !in p' {
      TakenFits(config, p, e, r, p');
      TakenFits(config, p, e, s, q');
    }
    assert r == s;
    assert p'.Keys == q'.Keys;
  }

  /** What is left is survivors, unchanged, and the newcomer if it was taken. */
  lemma Survivors(config: Config, p: Pool, e: Entry, r: Result<Added, MempoolError>, p': Pool)
    requires Accepted(config, p, e, r, p') && e.tx.id !in p
    ensures r == Ok(Pending) || r == Err(CapacityExceeded)
    ensures forall x :: x in p' ==> if x == e.tx.id then p'[x] == e else x in p && p'[x] == p[x]
    ensures r.Ok? <==> e.tx.id in p'
    ensures r.Err? ==> p' == map[]
  {
    hide Needed, LastDoesNotFit, WithinLimits;
    assert forall x :: x in p' && x != e.tx.id ==> x in p' - {e.tx.id};
  }

  /** With no survivor to tell by, the newcomer's size alone decides. */
  lemma TakenFits(config: Config, p: Pool, e: Entry, r: Result<Added, MempoolError>, p': Pool)
    requires Accepted(config, p, e, r, p') && e.tx.id !in p && forall c :: c in p ==> c !in p'
    ensures config.maxBytes.None? ==> r.Ok?
    ensures config.maxBytes.Some? && (p == map[] || config.maxTxs == Some(1)) ==> (r.Ok? <==> e.size <= config.maxBytes.value)
    ensures p != map[] && config.maxTxs != Some(1) ==> r.Err?
  {
    RoomDecides(config, p, e, r, p');
    if r.Ok? {
      EmptiedOfOld(p, p', e.tx.id, config, e);
    }
  }

  lemma EmptiedOfOld(p: Pool, p': Pool, id: TxId, config: Config, e: Entry)
    requires Evicted(p, p' - {id}) && KeepsOne(config, p, p' - {id}) && forall c :: c in p ==> c !in p'
    ensures p == map[] || config.maxTxs == Some(1)
  {
    assert |p' - {id}| == |(p' - {id}).Keys|;
    assert (p' - {id}).Keys == {};
  }

  // ----------------------------------------------------------------------- orphans

  /** `n` of the orphans, among them `x`. */
  lemma {:induction false} KeepSome(o: Pool, n: nat, x: TxId) returns (q: Pool)
    requires x in o && 1 <= n <= |o|
    ensures Submap(q, o) && |q| == n && x in q
    decreases |o|
  {
    if |o| == n {
      q := o;
    } else {
      OneOther(o, x);
      var y :| y in o && y != x;
      PoolLess(o, y);
      q := KeepSome(o - {y}, n, x);
    }
  }

  lemma OneOther(o: Pool, x: TxId)
    requires x in o && |o| > 1
    ensures exists y :: y in o && y != x
  {
    if forall y :: y in o ==> y == x {
      BlockGraph.SubsetSize(o.Keys, {x});
    }
  }

  /** A full orphan pool drops any of its orphans for a new one, not the one that came
      first: every one of them may go, and may stay unless the pool holds only one. */
  lemma AnyOrphanMayGo(config: Config, o: Pool, tx: Tx, x: TxId)
    requires config.Positive() && config.maxOrphans.Some? && |o| == config.maxOrphans.value && tx.id !in o && x in o
    ensures exists o' :: Held(config, o, o', tx) && x !in o'
    ensures (exists o' :: Held(config, o, o', tx) && x in o') <==> 1 < config.maxOrphans.value
  {
    PoolLess(o, x);
    HeldBeside(config, o, tx, o - {x});
    if 1 < config.maxOrphans.value {
      var q := KeepSome(o, config.maxOrphans.value - 1, x);
      HeldBeside(config, o, tx, q);
      assert x in q[tx.id := Entry(tx, tx.size, 0)];
    } else {
      forall o' | Held(config, o, o', tx)
        ensures x !in o'
      {
        EmptyPool(o' - {tx.id});
        assert x in o' ==> x in o' - {tx.id};
      }
    }
  }

  lemma HeldBeside(config: Config, o: Pool, tx: Tx, q: Pool)
    requires config.Positive() && config.maxOrphans.Some? && |o| == config.maxOrphans.value && tx.id !in o
    requires Submap(q, o) && |q| + 1 == config.maxOrphans.value
    ensures Held(config, o, q[tx.id := Entry(tx, tx.size, 0)], tx)
  {
    PoolMore(q, tx.id, Entry(tx, tx.size, 0));
  }

  // --------------------------------------------------------------------- promotion

  lemma {:induction false} TotalJoins(p: Pool, q: Pool)
    requires p.Keys !! q.Keys
    ensures Total(p + q) == Total(p) + Total(q) && |p + q| == |p| + |q|
    decreases |q|
  {
    hide Total;
    if |q| == 0 {
      EmptyPool(q);
      TotalEmpty();
      assert p + q == p;
    } else {
      assert |q| == |q.Keys| && q.Keys != {};
      var x :| x in q;
      PoolLess(q, x);
      TotalLess(q, x);
      TotalJoins(p, q - {x});
      AddedBack(p, q, x);
      PoolMore(p + (q - {x}), x, q[x]);
      TotalMore(p + (q - {x}), x, q[x]);
    }
  }

  lemma AddedBack(p: Pool, q: Pool, x: TxId)
    requires p.Keys !! q.Keys && x in q
    ensures x !in p + (q - {x}) && (p + (q - {x}))[x := q[x]] == p + q
  {
  }

  /** A new block promotes whatever orphans it completes. The limits of the pending pool are
      kept if and only if there was room for all of those that pay enough. */
  lemma PromotionKeepsLimitsIff(config: Config, p: Pool, o: Pool, utxo: Utxo)
    requires p.Keys !! o.Keys
    ensures var promoted := Promoted(config, o, Complete(o, utxo), utxo);
      WithinLimits(config, p + promoted) <==>
        && (config.maxTxs.Some? ==> |p| + |promoted| <= config.maxTxs.value)
        && (config.maxBytes.Some? ==> Total(p) + Total(promoted) <= config.maxBytes.value)
  {
    hide Total, Promotion, Complete;
    TotalJoins(p, Promoted(config, o, Complete(o, utxo), utxo));
  }

  /** Room for one, one pending, and one orphan completed by the block: two are pending. */
  lemma PromotionOverfills(a: TxId, b: TxId, x: OutPoint, y: OutPoint)
    requires a != b && x != y
    ensures var config, utxo := Config(Some(1), None, None, 0), Utxo({x, y}, _ => Some(1));
      var p, o := map[a := Entry(Tx(a, false, [x], 1), 1, 1)], map[b := Entry(Tx(b, false, [y], 1), 1, 0)];
      && WithinLimits(config, p) && !WithinLimits(config, p + Promoted(config, o, Complete(o, utxo), utxo))
  {
    var config, utxo := Config(Some(1), None, None, 0), Utxo({x, y}, _ => Some(1));
    var p, o := map[a := Entry(Tx(a, false, [x], 1), 1, 1)], map[b := Entry(Tx(b, false, [y], 1), 1, 0)];
    assert Complete(o, utxo) == {b};
    assert Promoted(config, o, {b}, utxo).Keys == {b};
    PromotionKeepsLimitsIff(config, p, o, utxo);
    assert |Promoted(config, o, {b}, utxo)| == |{b}| && |p| == |p.Keys| && p.Keys == {a};
  }

  // ------------------------------------------------------------------- replacement

  /** The newcomer's rate beats this transaction's by the bump. */
  predicate Outbid(p: Pool, t: TxId, bump: u64, rate: u64)
    requires t in p
  {
    SaturatingAdd(p[t].feeRate, bump) <= rate
  }

  /** A transaction the pool accepts for replacement: new, not a coinbase, all inputs there. */
  predicate Replaces(p: Pool, tx: Tx, utxo: Utxo, rate: u64) {
    !tx.coinbase && tx.id !in p && utxo.FeeRate(tx) == Some(rate)
  }

  /** After a successful replacement no other pending transaction shares an input with it,
      every conflicting one is gone, and one of them was outbid by the bump. */
  lemma ReplacementLeavesNoConflict(
      config: Config, p: Pool, o: Pool, tx: Tx, utxo: Utxo, bump: u64, r: Result<Added, MempoolError>, p': Pool,
      o': Pool)
    requires Keyed(p) && ReplaceOutcome(config, p, o, tx, utxo, bump, r, p', o') && r.Ok?
    ensures r == Ok(Pending) && tx.id in p' && p'[tx.id].tx == tx && WithinLimits(config, p')
    ensures forall id :: id in p' && id != tx.id ==> !Shares(p'[id].tx, tx)
    ensures forall c :: c in Conflicts(p, tx) ==> c !in p'
    ensures exists t :: t in Conflicts(p, tx) && Outbid(p, t, bump, p'[tx.id].feeRate)
  {
    hide Room, Needed, LastDoesNotFit, Shares;
    var rate := utxo.FeeRate(tx).value;
    var t :| t in Conflicts(p, tx) && Replaced(config, p, tx, rate, t, bump, r, p');
    assert Outbid(p, t, bump, rate);
    forall id | id in p' && id != tx.id
      ensures !Shares(p'[id].tx, tx) && id !in Conflicts(p, tx)
    {
      assert id in p' - {tx.id};
    }
  }

  /** Paying enough, a replacement can fail only for want of room. */
  lemma ReplacementFailsOnlyForRoom(
      config: Config, p: Pool, o: Pool, tx: Tx, utxo: Utxo, bump: u64, rate: u64, r: Result<Added, MempoolError>,
      p': Pool, o': Pool)
    requires ReplaceOutcome(config, p, o, tx, utxo, bump, r, p', o')
    requires Replaces(p, tx, utxo, rate) && Conflicts(p, tx) != {}
    requires forall t :: t in Conflicts(p, tx) ==> Outbid(p, t, bump, rate)
    ensures r == Ok(Pending) || (r == Err(CapacityExceeded) && p' == map[])
  {
    hide Room, Needed, LastDoesNotFit, Shares, Evicted;
  }

  /** Once the price is accepted every conflicting transaction goes, room or no room. */
  lemma ConflictsLeave(
      config: Config, p: Pool, tx: Tx, rate: u64, t: TxId, bump: u64, r: Result<Added, MempoolError>, p': Pool, c: TxId)
    requires Replaced(config, p, tx, rate, t, bump, r, p') && tx.id !in p && c in Conflicts(p, tx)
    ensures if Outbid(p, t, bump, rate) then c !in p' else p' == p
  {
    hide Room, Needed, LastDoesNotFit, Shares, WithinLimits, KeepsOne;
    assert c in p && c != tx.id;
    assert forall x :: x in p' && x != tx.id ==> x in p' - {tx.id};
  }

  /** In whatever order the pool is searched, a replacement pushes out only transactions
      it outbids by the bump, be it for a conflict or to make room. */
  ghost predicate PushesOutOnlyOutbid(config: Config, p: Pool, o: Pool, tx: Tx, utxo: Utxo, bump: u64, rate: u64) {
    forall r, p', o' :: ReplaceOutcome(config, p, o, tx, utxo, bump, r, p', o') ==>
      forall c :: c in p && c !in p' ==> Outbid(p, c, bump, rate)
  }

  /** None of the conflicts is outbid, and the replacement is refused. */
  ghost predicate NoneOutbid(p: Pool, tx: Tx, bump: u64, rate: u64) {
    forall c :: c in Conflicts(p, tx) ==> !Outbid(p, c, bump, rate)
  }

  /** All of the conflicts are outbid, and so is whatever has to make room besides. */
  ghost predicate AllOutbid(config: Config, p: Pool, tx: Tx, bump: u64, rate: u64) {
    && (forall c :: c in Conflicts(p, tx) ==> Outbid(p, c, bump, rate))
    && forall c :: c in p && Evictable(config, p - Conflicts(p, tx), tx.size, c) ==> Outbid(p, c, bump, rate)
  }

  /** That holds if and only if none of the conflicts is outbid, or all of them and every
      transaction that can be evicted once they are gone; so in particular when they all
      are and leave room. */
  lemma PushesOutOnlyOutbidIff(config: Config, p: Pool, o: Pool, tx: Tx, utxo: Utxo, bump: u64, rate: u64)
    requires config.Positive() && Replaces(p, tx, utxo, rate)
    ensures PushesOutOnlyOutbid(config, p, o, tx, utxo, bump, rate) <==>
      NoneOutbid(p, tx, bump, rate) || AllOutbid(config, p, tx, bump, rate)
  {
    hide Accepted, Shares, Replaced, Outbid, Evictable;
    forall r, p', o', c | ReplaceOutcome(config, p, o, tx, utxo, bump, r, p', o') && c in p && c !in p'
      ensures NoneOutbid(p, tx, bump, rate) || AllOutbid(config, p, tx, bump, rate) ==> Outbid(p, c, bump, rate)
    {
      var t :| t in Conflicts(p, tx) && Replaced(config, p, tx, rate, t, bump, r, p');
      PushedOut(config, p, tx, rate, t, bump, r, p', c);
    }
    if !NoneOutbid(p, tx, bump, rate) && !AllOutbid(config, p, tx, bump, rate) {
      var r, p', c := PushesOutDearer(config, p, tx, bump, rate);
      assert ReplaceOutcome(config, p, o, tx, utxo, bump, r, p', o - {tx.id});
    }
  }

  /** What leaves is a conflict, or evictable once the conflicts are gone. */
  lemma PushedOut(
      config: Config, p: Pool, tx: Tx, rate: u64, t: TxId, bump: u64, r: Result<Added, MempoolError>, p': Pool, c: TxId)
    requires Replaced(config, p, tx, rate, t, bump, r, p') && tx.id !in p && t in Conflicts(p, tx)
    requires c in p && c !in p'
    ensures Outbid(p, t, bump, rate)
    ensures c in Conflicts(p, tx) || Evictable(config, p - Conflicts(p, tx), tx.size, c)
  {
    hide Accepted, Shares, Evictable;
    if c !in Conflicts(p, tx) && Outbid(p, t, bump, rate) {
      LeavesIfEvictable(config, p - Conflicts(p, tx), Entry(tx, tx.size, rate), r, p', c);
    }
  }

  lemma PushesOutDearer(config: Config, p: Pool, tx: Tx, bump: u64, rate: u64)
    returns (r: Result<Added, MempoolError>, p': Pool, c: TxId)
    requires config.Positive() && tx.id !in p
    requires !NoneOutbid(p, tx, bump, rate) && !AllOutbid(config, p, tx, bump, rate)
    ensures c in p && c !in p' && !Outbid(p, c, bump, rate)
    ensures exists t :: t in Conflicts(p, tx) && Replaced(config, p, tx, rate, t, bump, r, p')
  {
    hide Accepted, Shares, Outbid, Evictable;
    var t :| t in Conflicts(p, tx) && Outbid(p, t, bump, rate);
    if d :| d in Conflicts(p, tx) && !Outbid(p, d, bump, rate) {
      hide Replaced;
      c := d;
      r, p' := PricedAt(config, p, tx, rate, t, bump);
      ConflictsLeave(config, p, tx, rate, t, bump, r, p', c);
    } else {
      c :| c in p && Evictable(config, p - Conflicts(p, tx), tx.size, c) && !Outbid(p, c, bump, rate);
      r, p' := Leaves(config, p - Conflicts(p, tx), Entry(tx, tx.size, rate), c);
      PaysEnough(config, p, tx, rate, t, bump, r, p');
    }
  }

  lemma PaysEnough(
      config: Config, p: Pool, tx: Tx, rate: u64, t: TxId, bump: u64, r: Result<Added, MempoolError>, p': Pool)
    requires t in p && Outbid(p, t, bump, rate)
    requires Accepted(config, p - Conflicts(p, tx), Entry(tx, tx.size, rate), r, p')
    ensures Replaced(config, p, tx, rate, t, bump, r, p')
  {
    hide Accepted, Shares;
  }

  /** Any outbid conflict can be the one that sets the price. */
  lemma PricedAt(config: Config, p: Pool, tx: Tx, rate: u64, t: TxId, bump: u64)
    returns (r: Result<Added, MempoolError>, p': Pool)
    requires config.Positive() && tx.id !in p && t in Conflicts(p, tx) && Outbid(p, t, bump, rate)
    ensures Replaced(config, p, tx, rate, t, bump, r, p')
  {
    hide Accepted, Shares;
    r, p' := SomeOutcome(config, p - Conflicts(p, tx), Entry(tx, tx.size, rate));
  }

  /** The price a target sets is strictly above its own rate, for every newcomer it makes
      way for, if and only if a bump is asked for and the rate is not the largest there is. */
  lemma TargetIsOutbidStrictlyIff(config: Config, p: Pool, tx: Tx, t: TxId, bump: u64)
    requires config.Positive() && tx.id !in p && t in Conflicts(p, tx)
    ensures (forall rate, r, p' :: Replaced(config, p, tx, rate, t, bump, r, p') && t !in p' ==> p[t].feeRate < rate)
      <==> 0 < bump && p[t].feeRate < U64_MAX
  {
    hide Accepted, Shares, Replaced;
    var own := p[t].feeRate;
    forall rate, r, p' | Replaced(config, p, tx, rate, t, bump, r, p') && t !in p'
      ensures Outbid(p, t, bump, rate)
    {
      ConflictsLeave(config, p, tx, rate, t, bump, r, p', t);
    }
    if bump == 0 || own == U64_MAX {
      var r, p' := PricedAt(config, p, tx, own, t, bump);
      ConflictsLeave(config, p, tx, own, t, bump, r, p', t);
    }
  }

  /** Limits off, conflicts at rates 5 and 100, a newcomer at 5, no bump: it is taken at the
      very rate of one conflict, and the other goes too, at twenty times that rate. */
  lemma EqualRatePushesOutDearer(a: TxId, b: TxId, n: TxId, x: OutPoint, y: OutPoint)
    requires a != b && n != a && n != b && x != y
    ensures var config, utxo := Config(None, None, None, 0), Utxo({x, y}, _ => Some(5));
      var tx := Tx(n, false, [x, y], 10);
      var p := map[a := Entry(Tx(a, false, [x], 10), 10, 5), b := Entry(Tx(b, false, [y], 10), 10, 100)];
      ReplaceOutcome(config, p, map[], tx, utxo, 0, Ok(Pending), map[n := Entry(tx, 10, 5)], map[])
  {
    var config, utxo := Config(None, None, None, 0), Utxo({x, y}, _ => Some(5));
    var tx := Tx(n, false, [x, y], 10);
    var p := map[a := Entry(Tx(a, false, [x], 10), 10, 5), b := Entry(Tx(b, false, [y], 10), 10, 100)];
    var p' := map[n := Entry(tx, 10, 5)];
    assert x in p[a].tx.inputs && x in tx.inputs && y in p[b].tx.inputs && y in tx.inputs;
    assert Conflicts(p, tx) == {a, b} && p - {a, b} == map[] && p' - {n} == map[];
    var none: Pool := map[];
    assert utxo.FeeRate(tx) == Some(5) && none - {n} == none;
    assert Replaced(config, p, tx, 5, a, 0, Ok(Pending), p');
  }

  /** Of 25 bytes, b and c leave room for 10. The newcomer outbids its one conflict, a, and
      pushes out b at sixteen times its own rate to make room. */
  lemma RoomPushesOutDearer(a: TxId, b: TxId, c: TxId, n: TxId, x: OutPoint, y: OutPoint, z: OutPoint)
    requires a != b && a != c && b != c && n != a && n != b && n != c && x != y && x != z && y != z
    ensures var config, utxo := Config(None, Some(25), None, 0), Utxo({x}, _ => Some(6));
      var tx := Tx(n, false, [x], 20);
      var dear, dearest := Entry(Tx(b, false, [y], 10), 10, 100), Entry(Tx(c, false, [z], 5), 5, 200);
      var p := map[a := Entry(Tx(a, false, [x], 10), 10, 5), b := dear, c := dearest];
      && Conflicts(p, tx) == {a} && Outbid(p, a, 0, 6)
      && ReplaceOutcome(config, p, map[], tx, utxo, 0, Ok(Pending), map[c := dearest, n := Entry(tx, 20, 6)], map[])
  {
    var config, utxo := Config(None, Some(25), None, 0), Utxo({x}, _ => Some(6));
    var tx := Tx(n, false, [x], 20);
    var dear, dearest := Entry(Tx(b, false, [y], 10), 10, 100), Entry(Tx(c, false, [z], 5), 5, 200);
    var p := map[a := Entry(Tx(a, false, [x], 10), 10, 5), b := dear, c := dearest];
    var p' := map[c := dearest, n := Entry(tx, 20, 6)];
    BOut(config, b, dear, c, dearest, Entry(tx, 20, 6));
    hide Accepted, Conflicts;
    OneConflict(a, p[a], b, dear, c, dearest, tx, x);
    var none: Pool := map[];
    assert utxo.FeeRate(tx) == Some(6) && none - {n} == none;
    assert Replaced(config, p, tx, 6, a, 0, Ok(Pending), p');
  }

  lemma OneConflict(a: TxId, ea: Entry, b: TxId, eb: Entry, c: TxId, ec: Entry, tx: Tx, x: OutPoint)
    requires a != b && a != c && b != c
    requires x in ea.tx.inputs && x in tx.inputs && !Shares(eb.tx, tx) && !Shares(ec.tx, tx)
    ensures var p := map[a := ea, b := eb, c := ec]; Conflicts(p, tx) == {a} && p - {a} == map[b := eb, c := ec]
  {
    var p := map[a := ea, b := eb, c := ec];
    assert Shares(p[a].tx, tx);
    hide Shares;
    assert Conflicts(p, tx) == {a};
  }

  /** Of two held, the lower one goes when the newcomer fits beside the other alone. */
  lemma BOut(config: Config, b: TxId, dear: Entry, c: TxId, dearest: Entry, e: Entry)
    requires b != c && e.tx.id != b && e.tx.id != c && dear.feeRate < dearest.feeRate
    requires config.maxTxs.None? && config.maxBytes.Some?
    requires dearest.size + e.size <= config.maxBytes.value < dear.size + dearest.size + e.size
    ensures Accepted(config, map[b := dear, c := dearest], e, Ok(Pending), map[c := dearest, e.tx.id := e])
  {
    hide Total;
    var q, left := map[b := dear, c := dearest], map[c := dearest];
    var p' := map[c := dearest, e.tx.id := e];
    TotalEmpty();
    assert map[][c := dearest] == left && left[e.tx.id := e] == p' && p' - {e.tx.id} == left && left[b := dear] == q;
    TotalMore(map[], c, dearest);
    TotalMore(left, e.tx.id, e);
    TotalMore(left, b, dear);
    assert LastOut(q, left, b);
  }
}
