/** The memory pool: ready transactions, orphans waiting for inputs, and the byte
    counter, kept in step under eviction, promotion and replacement. */
module Mempool {
  import opened MempoolIndex
  import opened Words
  import opened Wrappers

  /** A limit, when there is one, is positive. */
  datatype Config = Config(maxTxs: Option<nat>, maxBytes: Option<nat>, maxOrphans: Option<nat>, minFeeRate: u64)
  {
    predicate Positive() {
      && (maxTxs.Some? ==> 0 < maxTxs.value)
      && (maxBytes.Some? ==> 0 < maxBytes.value)
      && (maxOrphans.Some? ==> 0 < maxOrphans.value)
    }
  }

  datatype Added = Pending | Orphan

  datatype MempoolError =
    | Duplicate(id: TxId)
    | CoinbaseRejected
    | BelowMinFeeRate(rate: u64, least: u64)
    | CapacityExceeded
    | MissingInputs
    | NoReplacementTarget
    | InsufficientFeeBump(old_: u64, new_: u64, required: u64)

  // ------------------------------------------------------------------ coherence

  ghost predicate RatesAtLeast(pool: Pool, least: u64) {
    forall id :: id in pool ==> least <= pool[id].feeRate
  }

  ghost predicate OrphansFit(config: Config, orphans: Pool) {
    config.maxOrphans.Some? ==> |orphans| <= config.maxOrphans.value
  }

  ghost predicate PendingOk(config: Config, pending: Pool, totalBytes: nat) {
    Keyed(pending) && totalBytes == Total(pending) && RatesAtLeast(pending, config.minFeeRate)
  }

  ghost predicate OrphansOk(orphans: Pool, index: Index) {
    Keyed(orphans) && Indexes(index, orphans)
  }

  /** Room for one more transaction of this size. */
  ghost predicate Room(config: Config, pending: Pool, size: nat) {
    && (config.maxTxs.Some? ==> |pending| < config.maxTxs.value)
    && (config.maxBytes.Some? ==> Total(pending) + size <= config.maxBytes.value)
  }

  ghost predicate WithinLimits(config: Config, pending: Pool) {
    && (config.maxTxs.Some? ==> |pending| <= config.maxTxs.value)
    && (config.maxBytes.Some? ==> Total(pending) <= config.maxBytes.value)
  }

  /** Survivors are unchanged and outrate whatever was evicted. */
  ghost predicate Evicted(before: Pool, after: Pool) {
    && Submap(after, before)
    && forall e, s :: e in before && e !in after && s in after ==> before[e].feeRate <= after[s].feeRate
  }

  /** Evictions stopped as soon as there was room: putting the last one back leaves none. */
  ghost predicate Needed(config: Config, before: Pool, after: Pool, size: nat) {
    after == before || exists e :: LastOut(before, after, e) && !Room(config, after[e := before[e]], size)
  }

  /** One of the evicted, and none of them paid more. */
  ghost predicate LastOut(before: Pool, after: Pool, e: TxId) {
    e in before && e !in after && forall x :: x in before && x !in after ==> before[x].feeRate <= before[e].feeRate
  }

  ghost predicate Lowest(pool: Pool, id: TxId) {
    id in pool && forall x :: x in pool ==> pool[id].feeRate <= pool[x].feeRate
  }

  lemma EvictLowest(config: Config, before: Pool, pool: Pool, id: TxId, size: nat)
    requires Evicted(before, pool) && Lowest(pool, id) && !Room(config, pool, size)
    ensures Evicted(before, pool - {id}) && Needed(config, before, pool - {id}, size)
  {
    PoolLess(pool, id);
    assert (pool - {id})[id := before[id]] == pool;
    assert LastOut(before, pool - {id}, id);
  }

  class Mempool {
    const config: Config
    var pending: Pool
    var orphans: Pool
    var orphansByMissing: Index
    var currentHeight: nat
    var totalBytes: nat

    ghost predicate Valid()
      reads this
    {
      && config.Positive() && PendingOk(config, pending, totalBytes) && OrphansOk(orphans, orphansByMissing)
      && pending.Keys !! orphans.Keys && OrphansFit(config, orphans)
    }

    constructor (config: Config)
      requires config.Positive()
      ensures Valid() && this.config == config && pending == map[] && orphans == map[]
    {
      this.config := config;
      pending, orphans, orphansByMissing, currentHeight, totalBytes := map[], map[], map[], 0, 0;
    }

    // ------------------------------------------------------------------ removal

    method RemovePending(id: TxId) returns (removed: bool)
      requires PendingOk(config, pending, totalBytes)
      modifies this`pending, this`totalBytes
      ensures PendingOk(config, pending, totalBytes) && pending == old(pending) - {id} && (removed <==> id in old(pending))
    {
      hide Total;
      if id in pending {
        TotalLess(pending, id);
        totalBytes := totalBytes - pending[id].size;
        pending := pending - {id};
        return true;
      }
      assert pending - {id} == pending;
      return false;
    }

    method RemoveOrphan(id: TxId) returns (removed: bool)
      requires OrphansOk(orphans, orphansByMissing)
      modifies this`orphans, this`orphansByMissing
      ensures OrphansOk(orphans, orphansByMissing) && orphans == old(orphans) - {id} && (removed <==> id in old(orphans))
    {
      hide Indexes, UnlistedUnder;
      if id in orphans {
        ghost var index, pool := orphansByMissing, orphans;
        IndexHasNoneEmpty(index, pool);
        var tx := orphans[id].tx;
        orphans := orphans - {id};
        orphansByMissing := UnlistUnder(orphansByMissing, id, tx.inputs);
        OrphanUnlisted(index, pool, orphansByMissing, id);
        return true;
      }
      assert orphans - {id} == orphans;
      return false;
    }

    method Forget(id: TxId)
      requires Valid()
      modifies this`pending, this`totalBytes, this`orphans, this`orphansByMissing
      ensures Valid() && pending == old(pending) - {id} && orphans == old(orphans) - {id}
    {
      hide PendingOk, OrphansOk, OrphansFit;
      FewerOrphans(config, orphans, id);
      var wasPending := RemovePending(id);
      var wasOrphan := RemoveOrphan(id);
    }

    /** Forget transactions that were included in a block. */
    method RemoveAll(ids: seq<TxId>)
      requires Valid()
      modifies this`pending, this`totalBytes, this`orphans, this`orphansByMissing
      ensures Valid()
      ensures pending == old(pending) - (set id | id in ids) && orphans == old(orphans) - (set id | id in ids)
    {
      hide PendingOk, OrphansOk, OrphansFit;
      ghost var p0, o0, gone := pending, orphans, Nothing();
      NothingGone(p0);
      NothingGone(o0);
      for i := 0 to |ids|
        invariant Valid() && gone == (set id | id in ids[..i]) && pending == p0 - gone && orphans == o0 - gone
      {
        assert ids[..i + 1] == ids[..i] + [ids[i]];
        MoreGone(p0, gone, ids[i]);
        MoreGone(o0, gone, ids[i]);
        Forget(ids[i]);
        gone := gone + {ids[i]};
      }
      assert ids[..|ids|] == ids;
    }

    // ----------------------------------------------------------------- eviction

    /** Evict a transaction with the lowest fee rate. */
    method EvictLowestFeeRate() returns (r: Result<TxId, MempoolError>)
      requires PendingOk(config, pending, totalBytes)
      modifies this`pending, this`totalBytes
      ensures PendingOk(config, pending, totalBytes)
      ensures r.Err? <==> old(pending) == map[]
      ensures r.Err? ==> r.error == CapacityExceeded && pending == old(pending)
      ensures r.Ok? ==> Lowest(old(pending), r.value) && pending == old(pending) - {r.value}
    {
      hide PendingOk;
      if |pending| == 0 {
        return Err(CapacityExceeded);
      }
      var lowest: Option<TxId> := None;
      var todo := pending.Keys;
      while todo != {}
        invariant todo <= pending.Keys && (lowest == None <==> todo == pending.Keys)
        invariant lowest.Some? ==> lowest.value in pending.Keys - todo
        invariant forall x :: lowest.Some? && x in pending.Keys - todo ==>
          pending[lowest.value].feeRate <= pending[x].feeRate
      {
        var x :| x in todo;
        todo := todo - {x};
        if lowest.None? || pending[x].feeRate < pending[lowest.value].feeRate {
          lowest := Some(x);
        }
      }
      var removed := RemovePending(lowest.value);
      return Ok(lowest.value);
    }

    /** Evict until one more of this size fits. */
    method EnsureCapacity(size: nat) returns (r: Result<(), MempoolError>)
      requires config.Positive() && PendingOk(config, pending, totalBytes)
      modifies this`pending, this`totalBytes
      ensures PendingOk(config, pending, totalBytes) && Evicted(old(pending), pending)
      ensures r.Ok? ==> Room(config, pending, size) && Needed(config, old(pending), pending, size)
      ensures r.Ok? ==> KeepsOne(config, old(pending), pending)
      ensures r.Err? ==> r.error == CapacityExceeded && pending == map[]
      ensures r.Err? ==> LastDoesNotFit(config, old(pending), size)
    {
      hide PendingOk, Total, Evicted, Needed, LastDoesNotFit, KeepsOne;
      ghost var before := pending;
      NothingEvicted(config, before, size);
      EvictForCount(before, size);
      r := EvictForBytes(before, size);
      TotalIsCounted(config, pending, totalBytes);
    }

    /** While the count is at its limit, evict. */
    method EvictForCount(ghost before: Pool, ghost size: nat)
      requires config.Positive() && PendingOk(config, pending, totalBytes) && pending == before
      requires Evicted(before, pending) && Needed(config, before, pending, size) && KeepsOne(config, before, pending)
      modifies this`pending, this`totalBytes
      ensures PendingOk(config, pending, totalBytes) && HasSlot(config, pending)
      ensures Evicted(before, pending) && Needed(config, before, pending, size) && KeepsOne(config, before, pending)
    {
      hide PendingOk, Evicted, Needed, KeepsOne;
      if config.maxTxs.Some? {
        while |pending| >= config.maxTxs.value
          invariant PendingOk(config, pending, totalBytes) && Evicted(before, pending)
          invariant Needed(config, before, pending, size) && KeepsOne(config, before, pending)
          decreases |pending|
        {
          ghost var pool := pending;
          var evicted := EvictLowestFeeRate();
          PoolLess(pool, evicted.value);
          EvictLowest(config, before, pool, evicted.value, size);
          CountKeepsOne(config, before, pool, evicted.value);
        }
      }
    }

    /** While the bytes would not fit, evict; give up once nothing is left. */
    method EvictForBytes(ghost before: Pool, size: nat) returns (r: Result<(), MempoolError>)
      requires config.Positive() && PendingOk(config, pending, totalBytes) && HasSlot(config, pending)
      requires Evicted(before, pending) && Needed(config, before, pending, size) && KeepsOne(config, before, pending)
      modifies this`pending, this`totalBytes
      ensures PendingOk(config, pending, totalBytes) && Evicted(before, pending)
      ensures r.Ok? ==> HasSlot(config, pending) && (config.maxBytes.Some? ==> totalBytes + size <= config.maxBytes.value)
      ensures r.Ok? ==> Needed(config, before, pending, size) && KeepsOne(config, before, pending)
      ensures r.Err? ==> r.error == CapacityExceeded && pending == map[] && LastDoesNotFit(config, before, size)
    {
      hide PendingOk, Evicted, Needed, KeepsOne, LastDoesNotFit, Total;
      if config.maxBytes.Some? {
        while totalBytes + size > config.maxBytes.value
          invariant PendingOk(config, pending, totalBytes) && Evicted(before, pending) && HasSlot(config, pending)
          invariant Needed(config, before, pending, size) && KeepsOne(config, before, pending)
          decreases |pending|
        {
          ghost var pool := pending;
          TotalIsCounted(config, pending, totalBytes);
          var evicted := EvictLowestFeeRate();
          if evicted.Err? {
            NothingFits(config, before, size);
            return Err(evicted.error);
          }
          PoolLess(pool, evicted.value);
          EvictLowest(config, before, pool, evicted.value, size);
          if |pending| == 0 {
            LastEvicted(config, before, pool, evicted.value, size);
            return Err(CapacityExceeded);
          }
          SomeLeft(config, before, pending);
        }
      }
      return Ok(());
    }

    /** Drop orphans, any of them, until no more than `most` are left. */
    method DropOrphans(most: nat)
      requires OrphansOk(orphans, orphansByMissing)
      modifies this`orphans, this`orphansByMissing
      ensures OrphansOk(orphans, orphansByMissing) && Submap(orphans, old(orphans))
      ensures if |old(orphans)| <= most then orphans == old(orphans) else |orphans| == most
    {
      hide OrphansOk;
      while |orphans| > most
        invariant OrphansOk(orphans, orphansByMissing) && Submap(orphans, old(orphans))
        invariant if |old(orphans)| <= most then orphans == old(orphans) else |orphans| >= most
        decreases |orphans|
      {
        assert orphans.Keys != {};
        var id :| id in orphans;
        PoolLess(orphans, id);
        var removed := RemoveOrphan(id);
      }
    }

    /** Hold a transaction until the inputs it misses turn up. */
    method AddOrphan(tx: Tx, missing: seq<OutPoint>)
      requires OrphansOk(orphans, orphansByMissing) && tx.id !in orphans
      requires missing != [] && forall o :: o in missing ==> o in tx.inputs
      modifies this`orphans, this`orphansByMissing
      ensures OrphansOk(orphans, orphansByMissing) && orphans == old(orphans)[tx.id := Entry(tx, tx.size, 0)]
    {
      hide Indexes, ListedUnder;
      ghost var index := orphansByMissing;
      IndexHasNoneEmpty(index, orphans);
      orphansByMissing := ListUnder(orphansByMissing, tx.id, missing);
      OrphanListed(index, orphans, orphansByMissing, tx.id, Entry(tx, tx.size, 0), missing);
      orphans := orphans[tx.id := Entry(tx, tx.size, 0)];
    }

    // -------------------------------------------------------------------- adding

    method Add(tx: Tx, utxo: Utxo) returns (r: Result<Added, MempoolError>)
      requires Valid()
      modifies this`pending, this`totalBytes, this`orphans, this`orphansByMissing
      ensures Valid()
      ensures AddOutcome(config, old(pending), old(orphans), tx, utxo, r, pending, orphans)
      ensures AddAnswers(config, old(pending), tx, utxo, r)
      ensures r == Ok(Orphan) ==> Joins(config.maxOrphans, old(orphans), orphans, tx)
      ensures r == Ok(Pending) ==>
        utxo.rateOf(tx).Some? && TakenFor(config, old(pending), pending, tx, utxo.rateOf(tx).value)
    {
      hide PendingOk, OrphansOk, OrphansFit, Evicted, Needed, LastDoesNotFit, WithinLimits, Room;
      hide TakenFor, Joins, Held, Accepted;
      var id := tx.id;
      if id in pending {
        return Err(Duplicate(id));
      }
      FewerOrphans(config, orphans, id);
      var wasOrphan := RemoveOrphan(id);
      if tx.coinbase {
        return Err(CoinbaseRejected);
      }
      var missing := Missing(tx.inputs, utxo);
      MissingIff(tx, utxo);
      if missing != [] {
        Hold(tx, missing);
        HeldJoins(config, old(orphans), orphans, tx);
        return Ok(Orphan);
      }
      var rate := utxo.rateOf(tx);
      if rate.None? {
        return Err(MissingInputs);
      }
      if rate.value < config.minFeeRate {
        return Err(BelowMinFeeRate(rate.value, config.minFeeRate));
      }
      r := AddReady(tx, rate.value);
      if r == Ok(Pending) {
        AcceptedIsTaken(config, old(pending), pending, tx, rate.value);
      }
    }

    /** Make room among the orphans, and add one. */
    method Hold(tx: Tx, missing: seq<OutPoint>)
      requires Valid() && tx.id !in pending && tx.id !in orphans
      requires missing != [] && forall o :: o in missing ==> o in tx.inputs
      modifies this`orphans, this`orphansByMissing
      ensures Valid() && Held(config, old(orphans), orphans, tx)
    {
      hide PendingOk, OrphansOk;
      ghost var others := orphans;
      if config.maxOrphans.Some? {
        DropOrphans(config.maxOrphans.value - 1);
      }
      OneMoreOrphan(config, others, orphans, tx.id, Entry(tx, tx.size, 0));
      AddOrphan(tx, missing);
    }

    /** Make room among the pending, and add one. */
    method AddReady(tx: Tx, rate: u64) returns (r: Result<Added, MempoolError>)
      requires Valid() && tx.id !in pending && tx.id !in orphans && config.minFeeRate <= rate
      modifies this`pending, this`totalBytes
      ensures Valid() && Accepted(config, old(pending), Entry(tx, tx.size, rate), r, pending)
      ensures r == Ok(Pending) || r == Err(CapacityExceeded)
    {
      hide PendingOk, OrphansOk, OrphansFit, Evicted, Needed, LastDoesNotFit, WithinLimits, Room;
      ghost var before := pending;
      var room := EnsureCapacity(tx.size);
      EvictedKeys(before, pending);
      if room.Err? {
        return Err(room.error);
      }
      PendingPlus(config, pending, totalBytes, tx.id, Entry(tx, tx.size, rate));
      pending := pending[tx.id := Entry(tx, tx.size, rate)];
      totalBytes := totalBytes + tx.size;
      return Ok(Pending);
    }

    // ------------------------------------------------------------ changes of state

    /** Every pending transaction that lost an input becomes an orphan. */
    method RevalidateWithUtxo(utxo: Utxo) returns (moved: nat)
      requires Valid()
      modifies this`pending, this`totalBytes, this`orphans, this`orphansByMissing
      ensures Valid()
      ensures pending == old(pending) - Broken(old(pending), utxo) && moved == |Broken(old(pending), utxo)|
      ensures HeldAll(config, old(orphans) + AsOrphans(old(pending), Broken(old(pending), utxo)), orphans)
      ensures Revalidated(config.maxOrphans, old(pending), old(orphans), pending, orphans, utxo)
      ensures |pending| + moved == |old(pending)|
    {
      hide PendingOk, OrphansOk, Broken, AsOrphans, MovedSome, Revalidated;
      ghost var p0, o0 := pending, orphans;
      BrokenKeys(pending, utxo);
      moved := MoveBroken(utxo);
      MovedAll(p0, o0, Broken(p0, utxo), pending, orphans);
      ghost var held := orphans;
      if config.maxOrphans.Some? {
        DropOrphans(config.maxOrphans.value);
      }
      FewerKeys(held, orphans, pending);
      BrokenMoved(config, p0, o0, pending, orphans, utxo);
    }

    method MoveBroken(utxo: Utxo) returns (moved: nat)
      requires PendingOk(config, pending, totalBytes) && OrphansOk(orphans, orphansByMissing)
      requires pending.Keys !! orphans.Keys
      modifies this`pending, this`totalBytes, this`orphans, this`orphansByMissing
      ensures PendingOk(config, pending, totalBytes) && OrphansOk(orphans, orphansByMissing)
      ensures MovedSome(old(pending), old(orphans), Broken(old(pending), utxo), pending, orphans)
      ensures moved == |Broken(old(pending), utxo)|
    {
      hide PendingOk, OrphansOk, Broken, AsOrphans, MovedSome;
      ghost var p0, o0 := pending, orphans;
      var todo := Broken(pending, utxo);
      ghost var all, gone := todo, Nothing();
      moved := 0;
      BrokenKeys(pending, utxo);
      MovedNone(p0, o0);
      while todo != {}
        invariant gone + todo == all && gone !! todo && MovedSome(p0, o0, gone, pending, orphans) && moved == |gone|
        invariant PendingOk(config, pending, totalBytes) && OrphansOk(orphans, orphansByMissing)
        decreases todo
      {
        var id :| id in todo;
        MovedNext(p0, o0, gone, id, pending, orphans, config, totalBytes);
        todo := todo - {id};
        gone := gone + {id};
        var entry := pending[id];
        var missing := Missing(entry.tx.inputs, utxo);
        IsBroken(p0, utxo, id);
        var removed := RemovePending(id);
        AddOrphan(entry.tx, missing);
        moved := moved + 1;
      }
      assert gone == all;
    }

    /** Promote every orphan whose inputs turned up, unless it pays too little. */
    method OnNewBlock(utxo: Utxo, newBlockHeight: nat) returns (promoted: nat)
      requires Valid()
      modifies this
      ensures Valid() && currentHeight == newBlockHeight
      ensures orphans == old(orphans) - Complete(old(orphans), utxo)
      ensures pending == old(pending) + Promoted(config, old(orphans), Complete(old(orphans), utxo), utxo)
      ensures promoted == |Promoted(config, old(orphans), Complete(old(orphans), utxo), utxo)|
      ensures ArrivedPromoted(config.minFeeRate, old(pending), old(orphans), pending, orphans, utxo)
      ensures |pending| == |old(pending)| + promoted
    {
      hide PendingOk, OrphansOk, Complete, Promoted, PromotedSome, ArrivedPromoted;
      currentHeight := newBlockHeight;
      ghost var p0, o0 := pending, orphans;
      promoted := PromoteComplete(utxo);
      PromotedAll(config, p0, o0, Complete(o0, utxo), pending, orphans, utxo);
      if config.maxOrphans.Some? {
        DropOrphans(config.maxOrphans.value);
      }
      CompletePromoted(config, p0, o0, utxo);
    }

    method PromoteComplete(utxo: Utxo) returns (promoted: nat)
      requires PendingOk(config, pending, totalBytes) && OrphansOk(orphans, orphansByMissing)
      requires pending.Keys !! orphans.Keys
      modifies this`pending, this`totalBytes, this`orphans, this`orphansByMissing
      ensures PendingOk(config, pending, totalBytes) && OrphansOk(orphans, orphansByMissing)
      ensures PromotedSome(config, old(pending), old(orphans), Complete(old(orphans), utxo), pending, orphans, utxo)
      ensures promoted == |Promoted(config, old(orphans), Complete(old(orphans), utxo), utxo)|
    {
      hide PendingOk, OrphansOk, Complete, Promoted, Promotion, PromotedSome, WithPromotion;
      ghost var p0, o0 := pending, orphans;
      var todo := Complete(orphans, utxo);
      ghost var all, gone := todo, Nothing();
      promoted := 0;
      PromotedNone(config, p0, o0, utxo);
      while todo != {}
        invariant gone + todo == all && gone !! todo && all == Complete(o0, utxo)
        invariant PromotedSome(config, p0, o0, gone, pending, orphans, utxo)
        invariant promoted == |Promoted(config, o0, gone, utxo)|
        invariant PendingOk(config, pending, totalBytes) && OrphansOk(orphans, orphansByMissing)
        decreases todo
      {
        var id :| id in todo;
        OrphanParts(p0, o0, gone, id, config, pending, orphans, orphansByMissing, utxo);
        PromotedNext(config, p0, o0, gone, id, pending, orphans, utxo);
        var taken := PromoteOne(id, utxo);
        promoted := if taken then promoted + 1 else promoted;
        todo := todo - {id};
        gone := gone + {id};
      }
      assert gone == all;
    }

    method PromoteOne(id: TxId, utxo: Utxo) returns (taken: bool)
      requires PendingOk(config, pending, totalBytes) && OrphansOk(orphans, orphansByMissing)
      requires id in orphans && orphans[id].tx.id == id && id !in pending
      modifies this`pending, this`totalBytes, this`orphans, this`orphansByMissing
      ensures PendingOk(config, pending, totalBytes) && OrphansOk(orphans, orphansByMissing)
      ensures orphans == old(orphans) - {id} && (taken <==> Promotion(config, old(orphans)[id], utxo).Some?)
      ensures pending == WithPromotion(old(pending), id, Promotion(config, old(orphans)[id], utxo))
    {
      hide PendingOk, OrphansOk, Promotion;
      var entry := orphans[id];
      var removed := RemoveOrphan(id);
      var promotion := Promotion(config, entry, utxo);
      taken := promotion.Some?;
      if taken {
        PromotionPays(config, entry, utxo);
        PendingPlus(config, pending, totalBytes, id, promotion.value);
        totalBytes := totalBytes + promotion.value.size;
        pending := pending[id := promotion.value];
      }
    }

    // --------------------------------------------------------------- replacement

    /** Replace the pending transactions that spend an input of `tx`. */
    method ReplaceByFee(tx: Tx, utxo: Utxo, minFeeBump: u64) returns (r: Result<Added, MempoolError>)
      requires Valid()
      modifies this`pending, this`totalBytes, this`orphans, this`orphansByMissing
      ensures Valid()
      ensures ReplaceOutcome(config, old(pending), old(orphans), tx, utxo, minFeeBump, r, pending, orphans)
    {
      hide PendingOk, OrphansOk, OrphansFit, Accepted, Conflicts;
      if tx.coinbase {
        return Err(CoinbaseRejected);
      }
      if tx.id in pending {
        return Err(Duplicate(tx.id));
      }
      FewerOrphans(config, orphans, tx.id);
      var wasOrphan := RemoveOrphan(tx.id);
      var rate := utxo.FeeRate(tx);
      if rate.None? {
        return Err(MissingInputs);
      }
      var conflicts := Conflicts(pending, tx);
      if conflicts == {} {
        return Err(NoReplacementTarget);
      }
      var target :| target in conflicts;
      r := ReplaceTarget(tx, utxo, rate.value, target, minFeeBump);
    }

    /** Take the target out, and put it back when the newcomer pays too little more. */
    method ReplaceTarget(tx: Tx, utxo: Utxo, rate: u64, target: TxId, minFeeBump: u64)
      returns (r: Result<Added, MempoolError>)
      requires Valid() && !tx.coinbase && tx.id !in pending && tx.id !in orphans && utxo.FeeRate(tx) == Some(rate)
      requires target in Conflicts(pending, tx)
      modifies this`pending, this`totalBytes, this`orphans, this`orphansByMissing
      ensures Valid() && orphans == old(orphans)
      ensures Replaced(config, old(pending), tx, rate, target, minFeeBump, r, pending)
    {
      hide PendingOk, OrphansOk, OrphansFit, Accepted, Conflicts, AddOutcome, Replaced, Shares;
      ghost var before := pending;
      ConflictIsPending(config, before, totalBytes, tx, target);
      var replaced := pending[target];
      PoolLess(pending, target);
      pending := pending - {target};
      totalBytes := totalBytes - replaced.size;
      var required := SaturatingAdd(replaced.feeRate, minFeeBump);
      if rate < required {
        totalBytes := totalBytes + replaced.size;
        pending := pending[replaced.tx.id := replaced];
        assert pending == before;
        PriceRefused(config, before, tx, rate, target, minFeeBump);
        return Err(InsufficientFeeBump(replaced.feeRate, rate, required));
      }
      RemoveConflicts(tx);
      ConflictsGone(before, tx, target);
      ghost var cleared := pending;
      r := Add(tx, utxo);
      ReplacedByAdd(config, before, cleared, old(orphans), tx, utxo, rate, target, minFeeBump, r, pending, orphans);
    }

    method RemoveConflicts(tx: Tx)
      requires PendingOk(config, pending, totalBytes)
      modifies this`pending, this`totalBytes
      ensures PendingOk(config, pending, totalBytes) && pending == old(pending) - Conflicts(old(pending), tx)
    {
      hide PendingOk, Conflicts;
      ghost var before := pending;
      var todo := Conflicts(pending, tx);
      ghost var gone := Nothing();
      ghost var all := todo;
      NothingGone(before);
      while todo != {}
        invariant gone + todo == all && pending == before - gone && PendingOk(config, pending, totalBytes)
        decreases todo
      {
        var id :| id in todo;
        MoreGone(before, gone, id);
        todo := todo - {id};
        gone := gone + {id};
        var removed := RemovePending(id);
      }
      assert gone == all;
    }
  }

  /** The orphans whose inputs are all there. */
  function Complete(orphans: Pool, utxo: Utxo): set<TxId> {
    set id | id in orphans && utxo.Spendable(orphans[id].tx)
  }

  function RateOrZero(tx: Tx, utxo: Utxo): u64 {
    match utxo.FeeRate(tx)
    case None => 0
    case Some(rate) => rate
  }

  /** The pending entry of a complete orphan, if it pays enough. */
  function Promotion(config: Config, e: Entry, utxo: Utxo): Option<Entry> {
    var rate := RateOrZero(e.tx, utxo);
    if config.minFeeRate <= rate then Some(Entry(e.tx, e.size, rate)) else None
  }

  /** Of the listed orphans, those that pay enough, as pending entries. */
  ghost function Promoted(config: Config, orphans: Pool, ids: set<TxId>, utxo: Utxo): Pool {
    map id | id in ids && id in orphans && Promotion(config, orphans[id], utxo).Some? ::
      Promotion(config, orphans[id], utxo).value
  }

  ghost predicate PromotedSome(
      config: Config, p0: Pool, o0: Pool, gone: set<TxId>, pending: Pool, orphans: Pool, utxo: Utxo) {
    && p0.Keys !! o0.Keys && orphans == o0 - gone && pending == p0 + Promoted(config, o0, gone, utxo)
  }

  lemma PromotedNone(config: Config, p0: Pool, o0: Pool, utxo: Utxo)
    requires p0.Keys !! o0.Keys
    ensures PromotedSome(config, p0, o0, Nothing(), p0, o0, utxo) && |Promoted(config, o0, Nothing(), utxo)| == 0
  {
    assert Promoted(config, o0, {}, utxo) == map[] && o0 - {} == o0;
  }

  lemma OrphanParts(
      p0: Pool, o0: Pool, gone: set<TxId>, id: TxId, config: Config, pending: Pool, orphans: Pool, index: Index,
      utxo: Utxo)
    requires PromotedSome(config, p0, o0, gone, pending, orphans, utxo) && id in Complete(o0, utxo) && id !in gone
    requires OrphansOk(orphans, index)
    ensures id in orphans && orphans[id] == o0[id] && orphans[id].tx.id == id && id !in pending
    ensures o0 - gone - {id} == o0 - (gone + {id})
  {
    hide Promotion;
  }

  lemma PromotionPays(config: Config, e: Entry, utxo: Utxo)
    requires Promotion(config, e, utxo).Some?
    ensures var taken := Promotion(config, e, utxo).value;
      config.minFeeRate <= taken.feeRate && taken.tx == e.tx && taken.size == e.size
  {
  }

  lemma PromotedTaken(config: Config, p0: Pool, o0: Pool, gone: set<TxId>, id: TxId, pending: Pool, utxo: Utxo)
    requires pending == p0 + Promoted(config, o0, gone, utxo) && id in o0 && id !in gone
    requires Promotion(config, o0[id], utxo).Some?
    ensures pending[id := Promotion(config, o0[id], utxo).value] == p0 + Promoted(config, o0, gone + {id}, utxo)
    ensures |Promoted(config, o0, gone + {id}, utxo)| == |Promoted(config, o0, gone, utxo)| + 1
  {
    hide Promotion, Promoted;
    var taken := Promotion(config, o0[id], utxo).value;
    var before := Promoted(config, o0, gone, utxo);
    PromotedOneMore(config, o0, gone, id, utxo);
    PoolMore(before, id, taken);
    MergedMore(p0, before, id, taken);
  }

  lemma MergedMore(p: Pool, q: Pool, id: TxId, e: Entry)
    ensures (p + q)[id := e] == p + q[id := e]
  {
  }

  lemma PromotedOneMore(config: Config, o0: Pool, gone: set<TxId>, id: TxId, utxo: Utxo)
    requires id in o0 && id !in gone && Promotion(config, o0[id], utxo).Some?
    ensures id !in Promoted(config, o0, gone, utxo)
    ensures Promoted(config, o0, gone + {id}, utxo) ==
      Promoted(config, o0, gone, utxo)[id := Promotion(config, o0[id], utxo).value]
  {
    hide Promotion;
  }

  lemma PromotedDropped(config: Config, p0: Pool, o0: Pool, gone: set<TxId>, id: TxId, pending: Pool, utxo: Utxo)
    requires pending == p0 + Promoted(config, o0, gone, utxo) && id in o0
    requires Promotion(config, o0[id], utxo).None?
    ensures pending == p0 + Promoted(config, o0, gone + {id}, utxo)
    ensures |Promoted(config, o0, gone + {id}, utxo)| == |Promoted(config, o0, gone, utxo)|
  {
    hide Promotion;
    assert Promoted(config, o0, gone + {id}, utxo) == Promoted(config, o0, gone, utxo);
  }

  function WithPromotion(pending: Pool, id: TxId, promotion: Option<Entry>): Pool {
    if promotion.Some? then pending[id := promotion.value] else pending
  }

  lemma PromotedNext(
      config: Config, p0: Pool, o0: Pool, gone: set<TxId>, id: TxId, pending: Pool, orphans: Pool, utxo: Utxo)
    requires PromotedSome(config, p0, o0, gone, pending, orphans, utxo) && id in orphans
    ensures var promotion := Promotion(config, orphans[id], utxo);
      && PromotedSome(
        config, p0, o0, gone + {id}, WithPromotion(pending, id, promotion), orphans - {id}, utxo)
      && |Promoted(config, o0, gone + {id}, utxo)| ==
        |Promoted(config, o0, gone, utxo)| + (if promotion.Some? then 1 else 0)
  {
    hide Promotion, Promoted;
    assert o0 - gone - {id} == o0 - (gone + {id});
    if Promotion(config, o0[id], utxo).Some? {
      PromotedTaken(config, p0, o0, gone, id, pending, utxo);
    } else {
      PromotedDropped(config, p0, o0, gone, id, pending, utxo);
    }
  }

  lemma PromotedAll(
      config: Config, p0: Pool, o0: Pool, gone: set<TxId>, pending: Pool, orphans: Pool, utxo: Utxo)
    requires PromotedSome(config, p0, o0, gone, pending, orphans, utxo) && gone == Complete(o0, utxo)
    requires OrphansFit(config, o0)
    ensures pending.Keys !! orphans.Keys && OrphansFit(config, orphans) && orphans == o0 - gone
    ensures pending == p0 + Promoted(config, o0, gone, utxo)
  {
    assert Submap(orphans, o0);
    SubmapSize(orphans, o0);
  }

  predicate Shares(a: Tx, b: Tx) {
    exists o :: o in a.inputs && o in b.inputs
  }

  /** The pending transactions spending an input of `tx`. */
  function Conflicts(pending: Pool, tx: Tx): (r: set<TxId>)
    ensures forall id :: id in r <==> id in pending && exists o :: o in pending[id].tx.inputs && o in tx.inputs
  {
    set id | id in pending && Shares(pending[id].tx, tx)
  }

  ghost predicate ReplaceOutcome(
      config: Config, p: Pool, o: Pool, tx: Tx, utxo: Utxo, bump: u64, r: Result<Added, MempoolError>, p': Pool,
      o': Pool) {
    if tx.coinbase then r == Err(CoinbaseRejected) && p' == p && o' == o
    else if tx.id in p then r == Err(Duplicate(tx.id)) && p' == p && o' == o
    else
      o' == o - {tx.id} &&
      match utxo.FeeRate(tx)
      case None => r == Err(MissingInputs) && p' == p
      case Some(rate) =>
        if Conflicts(p, tx) == {} then r == Err(NoReplacementTarget) && p' == p
        else exists t :: t in Conflicts(p, tx) && Replaced(config, p, tx, rate, t, bump, r, p')
  }

  /** One conflicting transaction sets the price; at that price all of them make way. */
  ghost predicate Replaced(
      config: Config, p: Pool, tx: Tx, rate: u64, t: TxId, bump: u64, r: Result<Added, MempoolError>, p': Pool)
  {
    && t in p
    && var required := SaturatingAdd(p[t].feeRate, bump);
      if rate < required then r == Err(InsufficientFeeBump(p[t].feeRate, rate, required)) && p' == p
      else Accepted(config, p - Conflicts(p, tx), Entry(tx, tx.size, rate), r, p')
  }

  lemma ConflictIsPending(config: Config, pending: Pool, totalBytes: nat, tx: Tx, t: TxId)
    requires PendingOk(config, pending, totalBytes) && t in Conflicts(pending, tx)
    ensures t in pending && pending[t].tx.id == t && config.minFeeRate <= pending[t].feeRate
    ensures totalBytes >= pending[t].size && PendingOk(config, pending - {t}, totalBytes - pending[t].size)
  {
    hide Total;
    TotalLess(pending, t);
  }

  lemma ConflictsGone(p: Pool, tx: Tx, t: TxId)
    requires t in Conflicts(p, tx)
    ensures p - {t} - Conflicts(p - {t}, tx) == p - Conflicts(p, tx)
  {
    hide Shares;
  }

  lemma PriceRefused(config: Config, p: Pool, tx: Tx, rate: u64, t: TxId, bump: u64)
    requires t in p && rate < SaturatingAdd(p[t].feeRate, bump)
    ensures Replaced(
      config, p, tx, rate, t, bump, Err(InsufficientFeeBump(p[t].feeRate, rate, SaturatingAdd(p[t].feeRate, bump))), p)
  {
  }

  lemma ReplacedByAdd(
      config: Config, before: Pool, p: Pool, o: Pool, tx: Tx, utxo: Utxo, rate: u64, t: TxId, bump: u64,
      r: Result<Added, MempoolError>, p': Pool, o': Pool)
    requires AddOutcome(config, p, o, tx, utxo, r, p', o') && !tx.coinbase && tx.id !in p && tx.id !in o
    requires utxo.FeeRate(tx) == Some(rate) && config.minFeeRate <= rate
    requires t in before && SaturatingAdd(before[t].feeRate, bump) <= rate && p == before - Conflicts(before, tx)
    ensures Replaced(config, before, tx, rate, t, bump, r, p') && o' == o
  {
    hide Accepted, Held, Conflicts;
    assert o - {tx.id} == o;
  }

  lemma BrokenKeys(pending: Pool, utxo: Utxo)
    ensures Broken(pending, utxo) <= pending.Keys
  {
  }

  lemma IsBroken(pending: Pool, utxo: Utxo, id: TxId)
    requires id in Broken(pending, utxo)
    ensures id in pending && Missing(pending[id].tx.inputs, utxo) != []
  {
    MissingIff(pending[id].tx, utxo);
  }

  lemma FewerKeys(held: Pool, orphans: Pool, pending: Pool)
    requires Submap(orphans, held) && pending.Keys !! held.Keys
    ensures pending.Keys !! orphans.Keys
  {
  }

  /** What is held is the wanted orphans, or as many of them as may be when they are too many. */
  ghost predicate HeldAll(config: Config, wanted: Pool, orphans: Pool) {
    Submap(orphans, wanted) &&
    if OrphansFit(config, wanted) then orphans == wanted else |orphans| == config.maxOrphans.value
  }

  /** The pending transactions with an input that is gone. */
  function Broken(pending: Pool, utxo: Utxo): set<TxId> {
    set id | id in pending && !utxo.Spendable(pending[id].tx)
  }

  function AsOrphan(e: Entry): Entry {
    Entry(e.tx, e.tx.size, 0)
  }

  ghost function AsOrphans(pending: Pool, ids: set<TxId>): Pool {
    map id | id in ids && id in pending :: AsOrphan(pending[id])
  }

  /** The entries in `gone` were moved from one pool to the other. */
  ghost predicate MovedSome(p0: Pool, o0: Pool, gone: set<TxId>, pending: Pool, orphans: Pool) {
    && gone <= p0.Keys && p0.Keys !! o0.Keys && pending == p0 - gone && orphans == o0 + AsOrphans(p0, gone)
  }

  lemma MovedNone(p0: Pool, o0: Pool)
    requires p0.Keys !! o0.Keys
    ensures MovedSome(p0, o0, Nothing(), p0, o0)
  {
    assert AsOrphans(p0, {}) == map[] && p0 - {} == p0;
  }

  lemma MovedNext(
      p0: Pool, o0: Pool, gone: set<TxId>, id: TxId, pending: Pool, orphans: Pool, config: Config, totalBytes: nat)
    requires MovedSome(p0, o0, gone, pending, orphans) && id in p0 && id !in gone
    requires PendingOk(config, pending, totalBytes)
    ensures id in pending && pending[id] == p0[id] && pending[id].tx.id == id && id !in orphans
    ensures MovedSome(p0, o0, gone + {id}, pending - {id}, orphans[id := AsOrphan(p0[id])])
  {
    assert p0 - gone - {id} == p0 - (gone + {id});
    assert (o0 + AsOrphans(p0, gone))[id := AsOrphan(p0[id])] == o0 + AsOrphans(p0, gone + {id});
  }

  lemma MovedAll(p0: Pool, o0: Pool, gone: set<TxId>, pending: Pool, orphans: Pool)
    requires MovedSome(p0, o0, gone, pending, orphans)
    ensures pending.Keys !! orphans.Keys && pending == p0 - gone && orphans == o0 + AsOrphans(p0, gone)
  {
  }

  lemma EvictedKeys(before: Pool, after: Pool)
    requires Evicted(before, after)
    ensures after.Keys <= before.Keys
  {
  }

  lemma OneMoreOrphan(config: Config, others: Pool, orphans: Pool, id: TxId, e: Entry)
    requires config.Positive() && Submap(orphans, others) && id !in others && OrphansFit(config, others)
    requires config.maxOrphans.Some? ==> |orphans| <= config.maxOrphans.value - 1
    ensures id !in orphans && orphans[id := e] - {id} == orphans && OrphansFit(config, orphans[id := e])
  {
    PoolMore(orphans, id, e);
  }

  lemma PendingPlus(config: Config, pending: Pool, totalBytes: nat, id: TxId, e: Entry)
    requires PendingOk(config, pending, totalBytes) && id !in pending && e.tx.id == id && config.minFeeRate <= e.feeRate
    ensures PendingOk(config, pending[id := e], totalBytes + e.size) && pending[id := e] - {id} == pending
    ensures Room(config, pending, e.size) ==> WithinLimits(config, pending[id := e])
  {
    hide Total;
    PoolMore(pending, id, e);
    TotalMore(pending, id, e);
  }

  /** Evicting never empties a pool that may hold more than one transaction. */
  ghost predicate KeepsOne(config: Config, before: Pool, after: Pool) {
    |after| == 0 ==> before == map[] || config.maxTxs == Some(1)
  }

  /** What adding does, case by case, in the order the cases are tried. */
  ghost predicate AddOutcome(
      config: Config, p: Pool, o: Pool, tx: Tx, utxo: Utxo, r: Result<Added, MempoolError>, p': Pool, o': Pool) {
    if tx.id in p then r == Err(Duplicate(tx.id)) && p' == p && o' == o
    else if tx.coinbase then r == Err(CoinbaseRejected) && p' == p && o' == o - {tx.id}
    else if !utxo.Spendable(tx) then r == Ok(Orphan) && p' == p && Held(config, o - {tx.id}, o', tx)
    else
      o' == o - {tx.id} &&
      match utxo.rateOf(tx)
      case None => r == Err(MissingInputs) && p' == p
      case Some(rate) =>
        if rate < config.minFeeRate then r == Err(BelowMinFeeRate(rate, config.minFeeRate)) && p' == p
        else Accepted(config, p, Entry(tx, tx.size, rate), r, p')
  }

  /** Held as an orphan; others are dropped only when the limit is reached, and no more
      than that takes. */
  ghost predicate Held(config: Config, o: Pool, o': Pool, tx: Tx) {
    && tx.id in o' && o'[tx.id] == Entry(tx, tx.size, 0) && Submap(o' - {tx.id}, o)
    && if config.maxOrphans.Some? && config.maxOrphans.value <= |o| then |o' - {tx.id}| + 1 == config.maxOrphans.value
       else o' - {tx.id} == o
  }

  /** Pending, with only lower rates evicted for it and both limits kept; or no room at
      all, and then the pool was emptied trying. */
  ghost predicate Accepted(config: Config, p: Pool, e: Entry, r: Result<Added, MempoolError>, p': Pool) {
    || (r == Ok(Pending) && e.tx.id in p' && p'[e.tx.id] == e && WithinLimits(config, p') &&
        Evicted(p, p' - {e.tx.id}) && Needed(config, p, p' - {e.tx.id}, e.size) &&
        KeepsOne(config, p, p' - {e.tx.id}))
    || (r == Err(CapacityExceeded) && p' == map[] && LastDoesNotFit(config, p, e.size))
  }

  // ------------------------------------------------------------- in plain terms

  /** All inputs are there. */
  ghost predicate Arrived(tx: Tx, utxo: Utxo) {
    forall o :: o in tx.inputs ==> o in utxo.coins
  }

  /** Which answer a new transaction gets: the first that applies. */
  ghost predicate AddAnswers(config: Config, p: Pool, tx: Tx, utxo: Utxo, r: Result<Added, MempoolError>) {
    if tx.id in p then r == Err(Duplicate(tx.id))
    else if tx.coinbase then r == Err(CoinbaseRejected)
    else if !Arrived(tx, utxo) then r == Ok(Orphan)
    else match utxo.rateOf(tx)
      case None => r == Err(MissingInputs)
      case Some(rate) =>
        if rate < config.minFeeRate then r == Err(BelowMinFeeRate(rate, config.minFeeRate))
        else r == Ok(Pending) || r == Err(CapacityExceeded)
  }

  /** It joins the orphans: all of them stay while the limit allows, else just the limit is used. */
  ghost predicate Joins(limit: Option<nat>, o: Pool, o': Pool, tx: Tx) {
    var all := (o - {tx.id})[tx.id := Entry(tx, tx.size, 0)];
    && tx.id in o' && Submap(o', all)
    && if limit.Some? && limit.value < |all| then |o'| == limit.value else o' == all
  }

  /** Taking the transaction keeps both limits; nothing is evicted when it fits as it is, and
      with the last one evicted put back a limit would be passed. */
  ghost predicate TakenFor(config: Config, p: Pool, p': Pool, tx: Tx, rate: u64) {
    var all := p[tx.id := Entry(tx, tx.size, rate)];
    && Submap(p', all) && tx.id in p' && LimitsHold(config, |p'|, Total(p'))
    && (LimitsHold(config, |p| + 1, Total(p) + tx.size) ==> p' == all)
    && (p' != all ==> exists e ::
      && e in p && e !in p' && !LimitsHold(config, |p'| + 1, Total(p') + p[e].size)
      && forall x, y :: x in p && x !in p' && y in p && y in p' ==>
        p[x].feeRate <= p[e].feeRate && p[e].feeRate <= p[y].feeRate)
  }

  /** The orphans whose inputs arrived are gone; those that pay enough are pending. */
  ghost predicate ArrivedPromoted(least: u64, p: Pool, o: Pool, p': Pool, o': Pool, utxo: Utxo) {
    && Submap(o', o) && Submap(p, p') && p'.Keys <= p.Keys + o.Keys
    && forall id :: id in o ==> PromotedOr(least, o[id], p', o', utxo, id)
  }

  ghost predicate PromotedOr(least: u64, e: Entry, p': Pool, o': Pool, utxo: Utxo, id: TxId) {
    var rate := if utxo.rateOf(e.tx).Some? then utxo.rateOf(e.tx).value else 0;
    && (id in o' <==> !Arrived(e.tx, utxo))
    && (id in p' <==> Arrived(e.tx, utxo) && least <= rate)
    && (id in p' ==> p'[id] == Entry(e.tx, e.size, rate))
  }

  /** The pending transactions that lost an input are orphans now, as far as the limit allows. */
  ghost predicate Revalidated(limit: Option<nat>, p: Pool, o: Pool, p': Pool, o': Pool, utxo: Utxo) {
    && Submap(p', p) && (forall id :: id in p ==> (id in p' <==> Arrived(p[id].tx, utxo)))
    && (forall id :: id in o' ==> KeptOrDemoted(p, o, p', o'[id], id))
    && var wanted := |o| + (|p| - |p'|);
      |o'| == if limit.Some? && limit.value < wanted then limit.value else wanted
  }

  ghost predicate KeptOrDemoted(p: Pool, o: Pool, p': Pool, e: Entry, id: TxId) {
    (id in o && e == o[id]) || (id in p && id !in p' && e == Entry(p[id].tx, p[id].tx.size, 0))
  }

  lemma CompletePromoted(config: Config, p: Pool, o: Pool, utxo: Utxo)
    requires p.Keys !! o.Keys
    ensures var p', o' := p + Promoted(config, o, Complete(o, utxo), utxo), o - Complete(o, utxo);
      ArrivedPromoted(config.minFeeRate, p, o, p', o', utxo) && |p'| == |p| + |Promoted(config, o, Complete(o, utxo), utxo)|
  {
    hide Promoted, Complete, PromotedOr, Submap;
    var promoted, complete := Promoted(config, o, Complete(o, utxo), utxo), Complete(o, utxo);
    PromotedKeys(config, o, complete, utxo);
    AllPromoted(config, p, o, utxo);
    JoinedSize(p, promoted);
    PoolJoins(p, o, promoted);
    PoolWithout(o, complete);
  }

  lemma PoolJoins(p: Pool, o: Pool, promoted: Pool)
    requires p.Keys !! o.Keys && promoted.Keys <= o.Keys
    ensures Submap(p, p + promoted) && (p + promoted).Keys <= p.Keys + o.Keys
  {
  }

  lemma PoolWithout(o: Pool, gone: set<TxId>)
    ensures Submap(o - gone, o)
  {
  }

  lemma AllPromoted(config: Config, p: Pool, o: Pool, utxo: Utxo)
    requires p.Keys !! o.Keys
    ensures var p', o' := p + Promoted(config, o, Complete(o, utxo), utxo), o - Complete(o, utxo);
      forall id :: id in o ==> PromotedOr(config.minFeeRate, o[id], p', o', utxo, id)
  {
    hide Promoted, Complete, PromotedOr;
    forall id | id in o
      ensures PromotedOr(
        config.minFeeRate, o[id], p + Promoted(config, o, Complete(o, utxo), utxo), o - Complete(o, utxo), utxo, id)
    {
      PromotedIs(config, p, o, utxo, id);
    }
  }

  lemma PromotedKeys(config: Config, o: Pool, ids: set<TxId>, utxo: Utxo)
    ensures Promoted(config, o, ids, utxo).Keys <= o.Keys
  {
    hide Promotion;
  }

  lemma PromotedIs(config: Config, p: Pool, o: Pool, utxo: Utxo, id: TxId)
    requires id in o && id !in p
    ensures PromotedOr(
      config.minFeeRate, o[id], p + Promoted(config, o, Complete(o, utxo), utxo), o - Complete(o, utxo), utxo, id)
  {
    assert id in Complete(o, utxo) <==> Arrived(o[id].tx, utxo);
    hide Complete, Arrived;
  }

  lemma JoinedSize(a: Pool, b: Pool)
    requires a.Keys !! b.Keys
    ensures |a + b| == |a| + |b|
  {
    assert (a + b).Keys == a.Keys + b.Keys;
    assert |a| == |a.Keys| && |b| == |b.Keys| && |a + b| == |(a + b).Keys|;
  }

  lemma BrokenMoved(config: Config, p: Pool, o: Pool, p': Pool, o': Pool, utxo: Utxo)
    requires p.Keys !! o.Keys && p' == p - Broken(p, utxo) && HeldAll(config, o + AsOrphans(p, Broken(p, utxo)), o')
    ensures Revalidated(config.maxOrphans, p, o, p', o', utxo) && |p'| + |Broken(p, utxo)| == |p|
  {
    hide Broken, Arrived, AsOrphans, KeptOrDemoted, HeldAll, Submap;
    BrokenIs(p, utxo);
    DemotedSizes(p, o, Broken(p, utxo));
    AllKeptOrDemoted(config, p, o, Broken(p, utxo), o');
    HeldSize(config, o + AsOrphans(p, Broken(p, utxo)), o');
  }

  lemma AllKeptOrDemoted(config: Config, p: Pool, o: Pool, broken: set<TxId>, o': Pool)
    requires p.Keys !! o.Keys && HeldAll(config, o + AsOrphans(p, broken), o')
    ensures forall id :: id in o' ==> KeptOrDemoted(p, o, p - broken, o'[id], id)
  {
    forall id | id in o'
      ensures KeptOrDemoted(p, o, p - broken, o'[id], id)
    {
      assert o'[id] == (o + AsOrphans(p, broken))[id];
    }
  }

  lemma BrokenIs(p: Pool, utxo: Utxo)
    ensures Broken(p, utxo) <= p.Keys && forall id :: id in p ==> (id in Broken(p, utxo) <==> !Arrived(p[id].tx, utxo))
    ensures Submap(p - Broken(p, utxo), p)
  {
  }

  lemma DemotedSizes(p: Pool, o: Pool, broken: set<TxId>)
    requires p.Keys !! o.Keys && broken <= p.Keys
    ensures |o + AsOrphans(p, broken)| == |o| + |broken| && |p - broken| + |broken| == |p|
  {
    assert AsOrphans(p, broken).Keys == broken;
    JoinedSize(o, AsOrphans(p, broken));
    assert |p| == |p.Keys| && |p - broken| == |(p - broken).Keys| && (p - broken).Keys == p.Keys - broken;
    assert |AsOrphans(p, broken)| == |AsOrphans(p, broken).Keys|;
  }

  lemma HeldSize(config: Config, wanted: Pool, held: Pool)
    requires HeldAll(config, wanted, held)
    ensures |held| ==
      if config.maxOrphans.Some? && config.maxOrphans.value < |wanted| then config.maxOrphans.value else |wanted|
  {
  }

  ghost predicate Clashes(p: Pool, x: TxId, tx: Tx) {
    x in p && exists o :: o in p[x].tx.inputs && o in tx.inputs
  }

  /** What a replacement answers: a pending transaction it shares an input with sets the price. */
  ghost predicate ReplaceAnswers(
      p: Pool, tx: Tx, utxo: Utxo, bump: u64, r: Result<Added, MempoolError>) {
    if tx.coinbase then r == Err(CoinbaseRejected)
    else if tx.id in p then r == Err(Duplicate(tx.id))
    else if !Arrived(tx, utxo) || utxo.rateOf(tx) == None then r == Err(MissingInputs)
    else if forall x :: !Clashes(p, x, tx) then r == Err(NoReplacementTarget)
    else exists t :: Clashes(p, t, tx) && PriceAnswers(p[t].feeRate, bump, utxo.rateOf(tx).value, r)
  }

  /** The price is the old rate and the bump, up to the largest rate there is. */
  ghost predicate PriceAnswers(oldRate: u64, bump: u64, rate: u64, r: Result<Added, MempoolError>) {
    if rate != U64_MAX && rate as nat < oldRate as nat + bump as nat then
      r == Err(InsufficientFeeBump(
        oldRate, rate,
        if oldRate as nat + bump as nat < U64_MAX as nat then oldRate + bump else U64_MAX))
    else r == Ok(Pending) || r == Err(CapacityExceeded)
  }

  /** And what it leaves: every pending transaction that shares an input made way, and then
      it was taken as any other; or everything is as it was. */
  ghost predicate ReplaceLeaves(
      config: Config, p: Pool, o: Pool, tx: Tx, utxo: Utxo, r: Result<Added, MempoolError>, p': Pool, o': Pool) {
    && o' == (if tx.coinbase || tx.id in p then o else o - {tx.id})
    && match r
      case Ok(_) =>
        && utxo.rateOf(tx).Some?
        && exists cleared: Pool ::
          && (forall x :: x in cleared <==> x in p && !Clashes(p, x, tx)) && Submap(cleared, p)
          && TakenFor(config, cleared, p', tx, utxo.rateOf(tx).value)
      case Err(e) => if e == CapacityExceeded then p' == map[] else p' == p
  }

  lemma ReplaceIsPlain(
      config: Config, p: Pool, o: Pool, tx: Tx, utxo: Utxo, bump: u64, r: Result<Added, MempoolError>, p': Pool,
      o': Pool)
    requires ReplaceOutcome(config, p, o, tx, utxo, bump, r, p', o')
    ensures ReplaceAnswers(p, tx, utxo, bump, r) && ReplaceLeaves(config, p, o, tx, utxo, r, p', o')
  {
    hide Conflicts, Accepted, TakenFor, Submap, Clashes;
    ConflictsClash(p, tx);
    if !tx.coinbase && tx.id !in p && utxo.FeeRate(tx).Some? && Conflicts(p, tx) != {} {
      var rate := utxo.FeeRate(tx).value;
      var t :| t in Conflicts(p, tx) && Replaced(config, p, tx, rate, t, bump, r, p');
      assert Clashes(p, t, tx);
      if SaturatingAdd(p[t].feeRate, bump) <= rate {
        AcceptedAnswers(config, p - Conflicts(p, tx), tx, rate, r, p');
      }
    }
  }

  lemma ConflictsClash(p: Pool, tx: Tx)
    ensures forall x :: x in Conflicts(p, tx) <==> Clashes(p, x, tx)
    ensures Submap(p - Conflicts(p, tx), p)
    ensures forall x :: x in p - Conflicts(p, tx) <==> x in p && !Clashes(p, x, tx)
  {
  }

  lemma AcceptedAnswers(config: Config, p: Pool, tx: Tx, rate: u64, r: Result<Added, MempoolError>, p': Pool)
    requires Accepted(config, p, Entry(tx, tx.size, rate), r, p') && tx.id !in p
    ensures r == Ok(Pending) || (r == Err(CapacityExceeded) && p' == map[])
    ensures r == Ok(Pending) ==> TakenFor(config, p, p', tx, rate)
  {
    hide TakenFor;
    if r == Ok(Pending) {
      AcceptedIsTaken(config, p, p', tx, rate);
    }
  }

  /** So many transactions of so many bytes may be pending. */
  ghost predicate LimitsHold(config: Config, count: nat, bytes: nat) {
    && (config.maxTxs.Some? ==> count <= config.maxTxs.value)
    && (config.maxBytes.Some? ==> bytes <= config.maxBytes.value)
  }

  lemma HeldJoins(config: Config, o: Pool, o': Pool, tx: Tx)
    requires Held(config, o - {tx.id}, o', tx)
    ensures Joins(config.maxOrphans, o, o', tx)
  {
    var e := Entry(tx, tx.size, 0);
    PoolMore(o - {tx.id}, tx.id, e);
    PoolLess(o', tx.id);
    BackIn(o - {tx.id}, o', tx.id, e);
  }

  lemma BackIn(others: Pool, o': Pool, id: TxId, e: Entry)
    requires id in o' && o'[id] == e && Submap(o' - {id}, others)
    ensures Submap(o', others[id := e]) && (o' - {id} == others ==> o' == others[id := e])
  {
    assert o' == (o' - {id})[id := e];
  }

  lemma AcceptedIsTaken(config: Config, p: Pool, p': Pool, tx: Tx, rate: u64)
    requires tx.id !in p
    requires Accepted(config, p, Entry(tx, tx.size, rate), Ok(Pending), p')
    ensures TakenFor(config, p, p', tx, rate)
  {
    hide Total, SumOver, Evicted, Needed;
    var e, after := Entry(tx, tx.size, rate), p' - {tx.id};
    assert p' == after[tx.id := e];
    PoolMore(after, tx.id, e);
    TotalMore(after, tx.id, e);
    SurvivorsStay(p, after, tx.id, e);
    if after != p {
      var x := LastBack(config, p, after, e.size);
      OthersStay(p, p', after, tx.id);
    }
  }

  lemma SurvivorsStay(p: Pool, after: Pool, id: TxId, e: Entry)
    requires Evicted(p, after) && id !in p
    ensures Submap(after[id := e], p[id := e]) && (after == p ==> after[id := e] == p[id := e])
  {
  }

  lemma OthersStay(p: Pool, p': Pool, after: Pool, id: TxId)
    requires after == p' - {id} && id !in p
    ensures forall x :: x in p ==> (x in p' <==> x in after)
  {
  }

  /** The last one evicted did not fit beside the newcomer. */
  lemma LastBack(config: Config, p: Pool, after: Pool, size: nat) returns (e: TxId)
    requires Evicted(p, after) && Needed(config, p, after, size) && after != p
    ensures e in p && e !in after && !LimitsHold(config, |after| + 2, Total(after) + p[e].size + size)
    ensures !LimitsHold(config, |p| + 1, Total(p) + size)
    ensures forall x, y :: x in p && x !in after && y in p && y in after ==>
      p[x].feeRate <= p[e].feeRate && p[e].feeRate <= p[y].feeRate
  {
    hide Total, SumOver, LastOut, Evicted, Needed;
    e := SomeLastOut(config, p, after, size);
    LastOutFacts(p, after, e);
    PoolMore(after, e, p[e]);
    TotalMore(after, e, p[e]);
    TotalOfPart(after[e := p[e]], p);
  }

  lemma SomeLastOut(config: Config, p: Pool, after: Pool, size: nat) returns (e: TxId)
    requires Needed(config, p, after, size) && after != p
    ensures LastOut(p, after, e) && e in p && !Room(config, after[e := p[e]], size)
  {
    hide Room;
    e :| LastOut(p, after, e) && !Room(config, after[e := p[e]], size);
  }

  lemma LastOutFacts(p: Pool, after: Pool, e: TxId)
    requires Evicted(p, after) && LastOut(p, after, e)
    ensures e in p && e !in after && Submap(after[e := p[e]], p)
    ensures forall x, y :: x in p && x !in after && y in p && y in after ==>
      p[x].feeRate <= p[e].feeRate && p[e].feeRate <= p[y].feeRate
  {
  }

  lemma {:induction false} TotalOfPart(a: Pool, b: Pool)
    requires Submap(a, b)
    ensures |a| <= |b| && Total(a) <= Total(b)
    decreases b.Keys
  {
    SubmapSize(a, b);
    if a.Keys == b.Keys {
      assert a == b;
    } else {
      var x :| x in b && x !in a;
      PoolLess(b, x);
      TotalLess(b, x);
      hide Total;
      TotalOfPart(a, b - {x});
    }
  }

  ghost function Nothing(): set<TxId> {
    {}
  }

  lemma NothingGone(pool: Pool)
    ensures pool - Nothing() == pool
  {
  }

  lemma MoreGone(pool: Pool, gone: set<TxId>, id: TxId)
    ensures pool - gone - {id} == pool - (gone + {id})
  {
  }

  lemma IndexHasNoneEmpty(index: Index, orphans: Pool)
    requires Indexes(index, orphans)
    ensures NoneEmpty(index)
  {
  }

  lemma FewerOrphans(config: Config, orphans: Pool, id: TxId)
    requires OrphansFit(config, orphans)
    ensures OrphansFit(config, orphans - {id})
  {
    if id in orphans {
      PoolLess(orphans, id);
    } else {
      assert orphans - {id} == orphans;
    }
  }

  lemma TotalIsCounted(config: Config, pending: Pool, totalBytes: nat)
    requires PendingOk(config, pending, totalBytes)
    ensures totalBytes == Total(pending)
  {
  }

  lemma NothingEvicted(config: Config, pool: Pool, size: nat)
    ensures Evicted(pool, pool) && Needed(config, pool, pool, size) && KeepsOne(config, pool, pool)
  {
  }

  ghost predicate HasSlot(config: Config, pending: Pool) {
    config.maxTxs.Some? ==> |pending| < config.maxTxs.value
  }

  lemma CountKeepsOne(config: Config, before: Pool, pool: Pool, id: TxId)
    requires config.Positive() && config.maxTxs.Some? && |pool| >= config.maxTxs.value && id in pool
    ensures KeepsOne(config, before, pool - {id})
  {
    PoolLess(pool, id);
  }

  lemma SomeLeft(config: Config, before: Pool, pool: Pool)
    requires |pool| != 0
    ensures KeepsOne(config, before, pool)
  {
  }

  /** The transaction evicted last: one of the highest rate. */
  ghost predicate Highest(pool: Pool, id: TxId) {
    id in pool && forall x :: x in pool ==> pool[x].feeRate <= pool[id].feeRate
  }

  /** Making room failed only because the newcomer is too big, alone or beside the last survivor. */
  ghost predicate LastDoesNotFit(config: Config, before: Pool, size: nat) {
    config.maxBytes.Some? &&
    (size > config.maxBytes.value ||
     (config.maxTxs != Some(1) && exists id :: Highest(before, id) && before[id].size + size > config.maxBytes.value))
  }

  lemma NothingFits(config: Config, before: Pool, size: nat)
    requires config.maxBytes.Some? && Total(map[]) + size > config.maxBytes.value
    ensures LastDoesNotFit(config, before, size)
  {
    TotalEmpty();
  }

  lemma LastEvicted(config: Config, before: Pool, pool: Pool, id: TxId, size: nat)
    requires config.maxBytes.Some? && Evicted(before, pool) && id in pool && |pool - {id}| == 0
    requires Total(pool) + size > config.maxBytes.value && HasSlot(config, pool)
    ensures LastDoesNotFit(config, before, size)
  {
    PoolLess(pool, id);
    TotalLess(pool, id);
    TotalEmpty();
    assert pool - {id} == map[];
    assert forall x :: x in pool <==> x == id;
    assert Highest(before, id);
  }
}
