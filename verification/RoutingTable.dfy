/** The routing table: 256 buckets, each a list of contacts and a replacement cache
    kept in order of use. */
module RoutingTable {
  import opened NodeLookup
  import opened Wrappers
  import opened XorMetric

  datatype UpdateResult = Added | Updated | Promoted | Cached

  const STRIKES: nat := 3
  const FAILED_MAX: nat := 0xFFFF_FFFF

  function Touched(c: Contact, now: nat): Contact {
    c.(lastSeenMs := now, failedQueries := 0)
  }

  function Failed(c: Contact): Contact {
    c.(failedQueries := if c.failedQueries < FAILED_MAX then c.failedQueries + 1 else FAILED_MAX)
  }

  predicate Dead(c: Contact) {
    c.failedQueries >= STRIKES
  }

  // ---------------------------------------------------------------- lists of peers

  ghost predicate DistinctIds(s: seq<Contact>) {
    forall i, j :: 0 <= i < j < |s| ==> s[i].id != s[j].id
  }

  function Dropped(s: seq<Contact>, pos: nat): seq<Contact>
    requires pos < |s|
  {
    s[..pos] + s[pos + 1..]
  }

  lemma DroppedIds(s: seq<Contact>, pos: nat)
    requires DistinctIds(s) && pos < |s|
    ensures Ids(Dropped(s, pos)) == Ids(s) - {s[pos].id} && DistinctIds(Dropped(s, pos)) && s[pos].id in Ids(s)
    ensures |Dropped(s, pos)| == |s| - 1
  {
    var r := Dropped(s, pos);
    assert s[pos] in s;
    assert forall i :: 0 <= i < |r| ==> r[i] == s[if i < pos then i else i + 1];
    forall id | id in Ids(s) - {s[pos].id}
      ensures id in Ids(r)
    {
      var i :| 0 <= i < |s| && s[i].id == id;
      assert r[if i < pos then i else i - 1] == s[i];
    }
  }

  lemma FrontIdsAre(s: seq<Contact>, c: Contact)
    requires DistinctIds(s) && c.id !in Ids(s)
    ensures Ids([c] + s) == Ids(s) + {c.id} && DistinctIds([c] + s)
    ensures Ids(s + [c]) == Ids(s) + {c.id} && DistinctIds(s + [c])
  {
    assert forall i :: 0 <= i < |s| ==> s[i].id in Ids(s);
    assert forall x :: x in [c] + s <==> x in s || x == c;
    assert forall x :: x in s + [c] <==> x in s || x == c;
  }

  method Position(s: seq<Contact>, id: NodeId) returns (r: Option<nat>)
    ensures r.Some? ==> r.value < |s| && s[r.value].id == id && id in Ids(s)
    ensures r.None? ==> id !in Ids(s)
  {
    for i := 0 to |s|
      invariant forall j :: 0 <= j < i ==> s[j].id != id
    {
      if s[i].id == id {
        return Some(i);
      }
    }
    return None;
  }

  class KBucket {
    const k: nat
    var contacts: seq<Contact>
    var cache: seq<Contact>

    /** Both lists within `k`, no peer twice. */
    ghost predicate Valid()
      reads this
    {
      && |contacts| <= k && |cache| <= k && DistinctIds(contacts) && DistinctIds(cache)
      && Ids(contacts) !! Ids(cache)
    }

    ghost function Members(): set<NodeId>
      reads this
    {
      Ids(contacts) + Ids(cache)
    }

    constructor (k: nat)
      ensures Valid() && Members() == {} && this.k == k
    {
      this.k := k;
      contacts, cache := [], [];
    }

    /** Note that a peer was seen: it moves to the front of its list, or joins the
        contacts while there is room and the cache after that. */
    method UpdateContact(contact: Contact, now: nat) returns (r: UpdateResult)
      requires Valid()
      modifies this
      ensures Valid()
      ensures Seen(k, old(contacts), old(cache), contacts, cache, contact, now, r)
      ensures Members() <= old(Members()) + {contact.id}
      ensures !r.Cached? ==> Members() == old(Members()) + {contact.id}
    {
      var pos := Position(contacts, contact.id);
      if pos.Some? {
        var existing := contacts[pos.value];
        DroppedIds(contacts, pos.value);
        existing := Touched(existing.(addr := contact.addr), now);
        FrontIdsAre(Dropped(contacts, pos.value), existing);
        contacts := [existing] + Dropped(contacts, pos.value);
        return Updated;
      }
      pos := Position(cache, contact.id);
      if pos.Some? {
        var existing := cache[pos.value];
        DroppedIds(cache, pos.value);
        existing := Touched(existing.(addr := contact.addr), now);
        if |contacts| < k {
          FrontIdsAre(contacts, existing);
          cache := Dropped(cache, pos.value);
          contacts := [existing] + contacts;
          return Promoted;
        } else {
          FrontIdsAre(Dropped(cache, pos.value), existing);
          cache := [existing] + Dropped(cache, pos.value);
          return Cached;
        }
      }
      r := Join(contact);
    }

    /** A peer seen for the first time. */
    method Join(contact: Contact) returns (r: UpdateResult)
      requires Valid() && contact.id !in Members()
      modifies this
      ensures Valid() && (r.Added? || r.Cached?) && (r.Added? <==> old(|contacts|) < k)
      ensures r.Added? ==> contacts == [contact] + old(contacts) && cache == old(cache)
      ensures r.Cached? ==> contacts == old(contacts)
      ensures r.Cached? ==> cache == if old(|cache|) < k then [contact] + old(cache) else ([contact] + old(cache))[..k]
    {
      if |contacts| < k {
        FrontIdsAre(contacts, contact);
        contacts := [contact] + contacts;
        return Added;
      }
      FrontIdsAre(cache, contact);
      cache := [contact] + cache;
      if |cache| > k {
        DroppedIds(cache, |cache| - 1);
        assert Dropped(cache, |cache| - 1) == cache[..|cache| - 1];
        cache := cache[..|cache| - 1];
      }
      return Cached;
    }

    /** A peer did not answer; on the third strike it goes, and a cached one takes its place. */
    method MarkFailed(id: NodeId, now: nat) returns (evicted: Option<Contact>)
      requires Valid()
      modifies this
      ensures Valid() && Members() == old(Members()) - (if evicted.Some? then {id} else {})
      ensures Struck(old(contacts), old(cache), contacts, cache, id, now, evicted)
    {
      var pos := Position(contacts, id);
      if pos.Some? {
        var contact := Failed(contacts[pos.value]);
        DroppedIds(contacts, pos.value);
        var others := Dropped(contacts, pos.value);
        if Dead(contact) {
          contacts := others;
          assert StruckAt(old(contacts), pos.value, id, others, Some(contact));
          if cache != [] {
            var replacement := Touched(cache[0], now);
            DroppedIds(cache, 0);
            assert Dropped(cache, 0) == cache[1..];
            FrontIdsAre(others, replacement);
            contacts := [replacement] + contacts;
            cache := cache[1..];
          }
          return Some(contact);
        }
        FrontIdsAre(others, contact);
        contacts := others + [contact];
        assert StruckAt(old(contacts), pos.value, id, contacts, None);
        return None;
      }
      pos := Position(cache, id);
      if pos.Some? {
        var contact := Failed(cache[pos.value]);
        DroppedIds(cache, pos.value);
        var others := Dropped(cache, pos.value);
        if Dead(contact) {
          cache := others;
          assert StruckAt(old(cache), pos.value, id, cache, Some(contact));
          return Some(contact);
        }
        FrontIdsAre(others, contact);
        cache := others + [contact];
        assert StruckAt(old(cache), pos.value, id, cache, None);
      }
      return None;
    }

    /** Drop every dead peer, then refill the contacts from the cache. */
    method PruneDead(now: nat) returns (dead: seq<Contact>)
      requires Valid()
      modifies this
      ensures Valid() && Members() == old(Members()) - Ids(dead)
      ensures forall c :: c in dead <==> Dead(c) && (c in old(contacts) || c in old(cache))
      ensures forall c :: c in contacts || c in cache ==> !Dead(c)
      ensures |contacts| == k || cache == []
      ensures dead == Buried(old(contacts)) + Buried(old(cache))
      ensures Refilled(k, Alive(old(contacts)), Alive(old(cache)), contacts, cache, now)
    {
      AliveFacts(contacts);
      AliveFacts(cache);
      var deadContacts, deadCached := Buried(contacts), Buried(cache);
      dead := deadContacts + deadCached;
      contacts, cache := Alive(contacts), Alive(cache);
      assert Members() == old(Members()) - Ids(dead) by {
        assert forall c :: c in dead <==> c in deadContacts || c in deadCached;
        DeadIds(old(contacts), old(cache));
      }
      Refill(now);
    }

    method Refill(now: nat)
      requires Valid() && forall c :: c in contacts || c in cache ==> !Dead(c)
      modifies this
      ensures Valid() && Members() == old(Members())
      ensures forall c :: c in contacts || c in cache ==> !Dead(c)
      ensures |contacts| == k || cache == []
      ensures Refilled(k, old(contacts), old(cache), contacts, cache, now)
    {
      ghost var n: nat := 0;
      while |contacts| < k && cache != []
        invariant Moved(n, old(contacts), old(cache), contacts, cache, now)
        invariant Valid() && Members() == old(Members())
        invariant forall c :: c in contacts || c in cache ==> !Dead(c)
        decreases |cache|
      {
        var replacement := Touched(cache[0], now);
        DroppedIds(cache, 0);
        assert Dropped(cache, 0) == cache[1..];
        FrontIdsAre(contacts, replacement);
        MovedOneMore(n, old(contacts), old(cache), contacts, cache, now);
        contacts := [replacement] + contacts;
        cache := cache[1..];
        n := n + 1;
      }
    }
  }

  /** The first `n` of the cache went, one by one, to the front of the contacts, as just seen. */
  ghost predicate Moved(
      n: nat, c0: seq<Contact>, h0: seq<Contact>, c1: seq<Contact>, h1: seq<Contact>, now: nat) {
    && n <= |h0| && h1 == h0[n..] && |c1| == n + |c0| && c1[n..] == c0
    && forall i :: 0 <= i < n ==> c1[n - 1 - i] == h0[i].(lastSeenMs := now, failedQueries := 0)
  }

  /** As many as there was room for, or all. */
  ghost predicate Refilled(
      k: nat, c0: seq<Contact>, h0: seq<Contact>, c1: seq<Contact>, h1: seq<Contact>, now: nat) {
    exists n :: Moved(n, c0, h0, c1, h1, now) && (n == |h0| || |c0| + n == k)
  }

  lemma MovedOneMore(n: nat, c0: seq<Contact>, h0: seq<Contact>, c1: seq<Contact>, h1: seq<Contact>, now: nat)
    requires Moved(n, c0, h0, c1, h1, now) && h1 != []
    ensures Moved(n + 1, c0, h0, [Touched(h1[0], now)] + c1, h1[1..], now)
  {
    assert h1[0] == h0[n] && h1[1..] == h0[n + 1..];
  }

  /** `after` is `before` without this peer, in the same order. */
  ghost predicate Without(before: seq<Contact>, id: NodeId, after: seq<Contact>) {
    exists pos: nat :: pos < |before| && before[pos].id == id && after == before[..pos] + before[pos + 1..]
  }

  /** One more failure for the peer at `pos`: last in its list or, with three, out. */
  ghost predicate StruckAt(before: seq<Contact>, pos: nat, id: NodeId, after: seq<Contact>, evicted: Option<Contact>)
  {
    && pos < |before| && before[pos].id == id
    && var failures := before[pos].failedQueries + 1;
      var struck := before[pos].(failedQueries := if failures <= FAILED_MAX then failures else FAILED_MAX);
      if failures >= 3 then evicted == Some(struck) && after == before[..pos] + before[pos + 1..]
      else evicted == None && after == before[..pos] + before[pos + 1..] + [struck]
  }

  /** The strike falls on the list the peer is in. A contact that goes is replaced by the
      front of the cache, as just seen. */
  ghost predicate Struck(
      c0: seq<Contact>, h0: seq<Contact>, c1: seq<Contact>, h1: seq<Contact>, id: NodeId, now: nat,
      evicted: Option<Contact>) {
    if id in Ids(c0) then
      exists pos, after :: StruckAt(c0, pos, id, after, evicted) &&
        if evicted.Some? && h0 != [] then
          c1 == [h0[0].(lastSeenMs := now, failedQueries := 0)] + after && h1 == h0[1..]
        else c1 == after && h1 == h0
    else if id in Ids(h0) then c1 == c0 && exists pos :: StruckAt(h0, pos, id, h1, evicted)
    else c1 == c0 && h1 == h0 && evicted == None
  }

  /** Which list the peer ends up in, and where: one case per answer. */
  ghost predicate Seen(
      k: nat, c0: seq<Contact>, h0: seq<Contact>, c1: seq<Contact>, h1: seq<Contact>, contact: Contact, now: nat,
      r: UpdateResult) {
    match r
    case Updated => contact.id in Ids(c0) && SeenFirst(c1, contact, now) && Without(c0, contact.id, c1[1..]) && h1 == h0
    case Promoted =>
      contact.id in Ids(h0) && |c0| < k && SeenFirst(c1, contact, now) && c1[1..] == c0 && Without(h0, contact.id, h1)
    case Added => contact.id !in Ids(c0) + Ids(h0) && |c0| < k && c1 == [contact] + c0 && h1 == h0
    case Cached => contact.id !in Ids(c0) && |c0| >= k && c1 == c0 && CachedFirst(k, h0, h1, contact, now)
  }

  /** The peer leads the list, as just seen at this address. */
  ghost predicate SeenFirst(s: seq<Contact>, contact: Contact, now: nat) {
    s != [] && s[0].id == contact.id && s[0].addr == contact.addr && s[0].lastSeenMs == now && s[0].failedQueries == 0
  }

  /** The peer leads the cache; a newcomer may push the last one out. */
  ghost predicate CachedFirst(k: nat, before: seq<Contact>, after: seq<Contact>, contact: Contact, now: nat) {
    if contact.id in Ids(before) then SeenFirst(after, contact, now) && Without(before, contact.id, after[1..])
    else after == if |before| < k then [contact] + before else ([contact] + before)[..k]
  }

  function Alive(s: seq<Contact>): seq<Contact> {
    if s == [] then [] else (if Dead(s[0]) then [] else [s[0]]) + Alive(s[1..])
  }

  function Buried(s: seq<Contact>): seq<Contact> {
    if s == [] then [] else (if Dead(s[0]) then [s[0]] else []) + Buried(s[1..])
  }

  /** One by one, in order: fewer than three failures are alive, three or more are not. */
  lemma {:induction false} AliveNext(s: seq<Contact>, c: Contact)
    ensures Alive([]) == [] && Alive(s + [c]) == Alive(s) + if c.failedQueries < 3 then [c] else []
    ensures Buried([]) == [] && Buried(s + [c]) == Buried(s) + if c.failedQueries < 3 then [] else [c]
  {
    if s == [] {
      assert [] + [c] == [c] && [c][1..] == [];
    } else {
      assert (s + [c])[1..] == s[1..] + [c];
      AliveNext(s[1..], c);
    }
  }

  lemma {:induction false} AliveFacts(s: seq<Contact>)
    requires DistinctIds(s)
    ensures |Alive(s)| <= |s| && DistinctIds(Alive(s)) && Ids(Alive(s)) <= Ids(s)
    ensures forall c :: c in Alive(s) <==> c in s && !Dead(c)
    ensures forall c :: c in Buried(s) <==> c in s && Dead(c)
  {
    if s != [] {
      assert s == [s[0]] + s[1..];
      AliveFacts(s[1..]);
      assert forall i :: 0 < i < |s| ==> s[i] == s[1..][i - 1];
      assert s[0].id !in Ids(s[1..]) by {
        forall c | c in s[1..]
          ensures c.id != s[0].id
        {
          var i :| 0 <= i < |s[1..]| && s[1..][i] == c;
          assert s[i + 1] == c;
        }
      }
      if !Dead(s[0]) {
        FrontIdsAre(Alive(s[1..]), s[0]);
      }
    }
  }

  lemma DeadIds(a: seq<Contact>, b: seq<Contact>)
    requires DistinctIds(a) && DistinctIds(b) && Ids(a) !! Ids(b)
    ensures Ids(Alive(a)) + Ids(Alive(b)) == Ids(a) + Ids(b) - Ids(Buried(a) + Buried(b))
  {
    AliveFacts(a);
    AliveFacts(b);
    SplitIds(a);
    SplitIds(b);
    assert Ids(Buried(a) + Buried(b)) == Ids(Buried(a)) + Ids(Buried(b));
  }

  lemma SplitIds(s: seq<Contact>)
    requires DistinctIds(s)
    ensures Ids(Alive(s)) == Ids(s) - Ids(Buried(s)) && Ids(Buried(s)) <= Ids(s)
  {
    AliveFacts(s);
    forall id | id in Ids(s)
      ensures id in Ids(Alive(s)) <==> id !in Ids(Buried(s))
    {
      var c :| c in s && c.id == id;
      forall d | d in s && d.id == id
        ensures d == c
      {
        var i :| 0 <= i < |s| && s[i] == c;
        var j :| 0 <= j < |s| && s[j] == d;
      }
    }
  }

  // -------------------------------------------------------------------- the table

  const BUCKETS: nat := 256

  /** The bucket of a peer in the table of `local`. */
  ghost predicate Belongs(local: NodeId, i: nat, id: NodeId) {
    FirstBit(Distance(local, id)) == Some(i)
  }

  ghost predicate AllBelong(local: NodeId, i: nat, ids: set<NodeId>) {
    forall id :: id in ids ==> Belongs(local, i, id)
  }

  class RoutingTable {
    const localId: NodeId
    const k: nat
    const buckets: seq<KBucket>

    /** 256 buckets of their own, each holding only peers that belong there: so no peer
        is in the table twice, and the table's owner is not in it. */
    ghost predicate Valid()
      reads this, buckets
    {
      && |buckets| == BUCKETS && (forall i, j :: 0 <= i < j < |buckets| ==> buckets[i] != buckets[j])
      && forall i :: 0 <= i < |buckets| ==>
        buckets[i].Valid() && buckets[i].k == k && AllBelong(localId, i, buckets[i].Members())
    }

    ghost predicate Holds(id: NodeId)
      reads this, buckets
    {
      exists i :: 0 <= i < |buckets| && id in buckets[i].Members()
    }

    constructor (localId: NodeId, k: nat)
      ensures Valid() && this.localId == localId && this.k == k && forall id :: !Holds(id)
      ensures forall b :: b in buckets ==> fresh(b)
    {
      hide Distance, FirstBit;
      var made: seq<KBucket> := [];
      for n := 0 to BUCKETS
        invariant |made| == n && (forall i, j :: 0 <= i < j < n ==> made[i] != made[j])
        invariant forall i :: 0 <= i < n ==>
          fresh(made[i]) && made[i].Valid() && made[i].k == k && made[i].Members() == {}
      {
        var b := new KBucket(k);
        made := made + [b];
      }
      this.localId, this.k, buckets := localId, k, made;
    }

    /** Note that a peer was seen, in its own bucket; the table's owner is ignored. */
    method UpdateContact(contact: Contact, now: nat) returns (r: UpdateResult)
      requires Valid()
      modifies buckets
      ensures Valid()
      ensures contact.id == localId ==> forall b :: b in buckets ==> unchanged(b)
      ensures forall i :: 0 <= i < |buckets| && !Belongs(localId, i, contact.id) ==> unchanged(buckets[i])
      ensures forall i :: 0 <= i < |buckets| && Belongs(localId, i, contact.id) ==>
        Seen(k, old(buckets[i].contacts), old(buckets[i].cache), buckets[i].contacts, buckets[i].cache, contact, now, r)
      ensures contact.id != localId && !r.Cached? ==> Holds(contact.id)
      ensures forall x :: Holds(x) ==> x == contact.id || old(Holds(x))
      ensures !r.Cached? ==> forall x :: old(Holds(x)) ==> Holds(x)
    {
      hide Distance, FirstBit, DistinctIds, Seen, Ids;
      BucketExists(localId, contact.id);
      if contact.id == localId {
        return Updated;
      }
      var idx := BucketIndex(localId, contact.id);
      if idx.None? {
        return Updated;
      }
      var i := idx.value;
      r := buckets[i].UpdateContact(contact, now);
      assert forall j :: 0 <= j < |buckets| && j != i ==> unchanged(buckets[j]);
    }

    method MarkFailed(id: NodeId, now: nat) returns (evicted: Option<Contact>)
      requires Valid()
      modifies buckets
      ensures Valid()
      ensures forall i :: 0 <= i < |buckets| && !Belongs(localId, i, id) ==> unchanged(buckets[i])
      ensures forall i :: 0 <= i < |buckets| && Belongs(localId, i, id) ==>
        Struck(old(buckets[i].contacts), old(buckets[i].cache), buckets[i].contacts, buckets[i].cache, id, now, evicted)
      ensures evicted.Some? ==> old(Holds(id)) && !Holds(id)
      ensures forall x :: x != id ==> (Holds(x) <==> old(Holds(x)))
    {
      hide Distance, FirstBit, DistinctIds, Struck, Ids;
      BucketExists(localId, id);
      var idx := BucketIndex(localId, id);
      if idx.None? {
        return None;
      }
      var i := idx.value;
      evicted := buckets[i].MarkFailed(id, now);
      assert forall j :: 0 <= j < |buckets| && j != i ==> unchanged(buckets[j]);
    }

    /** The peers nearest to `target`, of contacts and caches alike. */
    method ClosestPeers(target: NodeId, count: nat) returns (r: seq<Contact>)
      requires Valid()
      ensures exists all: set<NodeId> :: (forall id :: id in all <==> Holds(id)) && Nearest(all, target, count, r)
      ensures forall c :: c in r ==> StoredBefore(|buckets|, c)
    {
      hide Distance, FirstBit, DistinctIds, Less, Measured, IdsOf, Gathered, StoredBefore, HoldsBefore, Nearest;
      hide StrictlyAscends;
      var candidates: seq<Candidate> := [];
      GatheredNone(target);
      for i := 0 to |buckets|
        invariant Gathered(i, candidates, target)
      {
        GatheredNext(i, candidates, target);
        candidates := candidates + MeasuredAll(buckets[i].contacts, target) + MeasuredAll(buckets[i].cache, target);
      }
      SortedByDistance(candidates);
      var sorted := SortByDistance(candidates);
      GatheredSame(candidates, sorted, target);
      Deduped(sorted, target);
      var once := Dedup(sorted);
      FrontIsNearest(once, target, count);
      r := ContactsOf(if count < |once| then once[..count] else once);
      GatheredAll(sorted, once, target, count, r);
    }

    /** The candidates are the records of the first `n` buckets, each with its distance. */
    ghost predicate Gathered(n: nat, candidates: seq<Candidate>, target: NodeId)
      requires n <= |buckets|
      reads this, buckets
    {
      && Measured(candidates, target) && (forall id :: id in IdsOf(candidates) <==> HoldsBefore(n, id))
      && forall c :: c in candidates ==> StoredBefore(n, c.contact)
    }

    lemma GatheredNone(target: NodeId)
      ensures Gathered(0, [], target)
    {
    }

    lemma GatheredNext(i: nat, candidates: seq<Candidate>, target: NodeId)
      requires i < |buckets| && Gathered(i, candidates, target)
      ensures Gathered(
        i + 1, candidates + MeasuredAll(buckets[i].contacts, target) + MeasuredAll(buckets[i].cache, target), target)
    {
      hide Measured, IdsOf, Ids;
      MeasuredIds(candidates, buckets[i].contacts, buckets[i].cache, target);
      CandidatesOf(candidates, buckets[i].contacts, buckets[i].cache, target);
    }

    lemma GatheredSame(candidates: seq<Candidate>, sorted: seq<Candidate>, target: NodeId)
      requires Gathered(|buckets|, candidates, target) && forall x :: x in sorted <==> x in candidates
      ensures Gathered(|buckets|, sorted, target) && Measured(sorted, target)
    {
      assert IdsOf(sorted) == IdsOf(candidates);
    }

    lemma GatheredAll(sorted: seq<Candidate>, once: seq<Candidate>, target: NodeId, count: nat, r: seq<Contact>)
      requires Gathered(|buckets|, sorted, target) && once == Dedup(sorted) && IdsOf(once) == IdsOf(sorted)
      requires Nearest(IdsOf(once), target, count, r)
      requires r == ContactsOf(if count < |once| then once[..count] else once)
      ensures exists all: set<NodeId> :: (forall id :: id in all <==> Holds(id)) && Nearest(all, target, count, r)
      ensures forall c :: c in r ==> StoredBefore(|buckets|, c)
    {
      hide Measured, Nearest, IdsOf, StoredBefore;
      DedupKeepsRecords(sorted);
      assert forall id :: id in IdsOf(once) <==> Holds(id);
      forall c | c in r
        ensures StoredBefore(|buckets|, c)
      {
        var i :| 0 <= i < |r| && r[i] == c;
        assert once[i] in once && once[i].contact == c;
      }
    }

    /** One of the first `n` buckets lists or caches this very record. */
    ghost predicate StoredBefore(n: nat, c: Contact)
      requires n <= |buckets|
      reads this, buckets
    {
      exists i :: 0 <= i < n && (c in buckets[i].contacts || c in buckets[i].cache)
    }

    ghost predicate HoldsBefore(n: nat, id: NodeId)
      requires n <= |buckets|
      reads this, buckets
    {
      exists i :: 0 <= i < n && id in buckets[i].Members()
    }
  }

  function MeasuredAll(s: seq<Contact>, target: NodeId): seq<Candidate> {
    seq(|s|, i requires 0 <= i < |s| => Candidate(Distance(s[i].id, target), s[i]))
  }

  lemma CandidatesOf(before: seq<Candidate>, a: seq<Contact>, b: seq<Contact>, target: NodeId)
    ensures forall c :: c in before + MeasuredAll(a, target) + MeasuredAll(b, target) ==>
      c in before || c.contact in a || c.contact in b
  {
    hide Distance;
    forall c | c in MeasuredAll(a, target)
      ensures c.contact in a
    {
      var i :| 0 <= i < |a| && MeasuredAll(a, target)[i] == c;
    }
    forall c | c in MeasuredAll(b, target)
      ensures c.contact in b
    {
      var i :| 0 <= i < |b| && MeasuredAll(b, target)[i] == c;
    }
  }

  lemma {:induction false} DedupKeepsRecords(s: seq<Candidate>)
    ensures forall c :: c in Dedup(s) ==> c in s
  {
    if |s| >= 2 {
      DedupKeepsRecords(s[..|s| - 1]);
    }
  }

  lemma MeasuredIds(before: seq<Candidate>, a: seq<Contact>, b: seq<Contact>, target: NodeId)
    requires Measured(before, target)
    ensures var s := before + MeasuredAll(a, target) + MeasuredAll(b, target);
      Measured(s, target) && IdsOf(s) == IdsOf(before) + Ids(a) + Ids(b)
  {
    hide Distance;
    MeasuredOne(a, target);
    MeasuredOne(b, target);
    var s := before + MeasuredAll(a, target) + MeasuredAll(b, target);
    assert forall c :: c in s <==> c in before || c in MeasuredAll(a, target) || c in MeasuredAll(b, target);
  }

  lemma MeasuredOne(a: seq<Contact>, target: NodeId)
    ensures Measured(MeasuredAll(a, target), target) && IdsOf(MeasuredAll(a, target)) == Ids(a)
  {
    hide Distance;
    var m := MeasuredAll(a, target);
    forall id | id in Ids(a)
      ensures id in IdsOf(m)
    {
      var i :| 0 <= i < |a| && a[i].id == id;
      assert m[i] in m;
    }
  }

  /** Keep the first of each run with one id. */
  function Dedup(s: seq<Candidate>): seq<Candidate> {
    if |s| < 2 then s
    else if s[|s| - 1].contact.id == s[|s| - 2].contact.id then Dedup(s[..|s| - 1])
    else Dedup(s[..|s| - 1]) + [s[|s| - 1]]
  }

  lemma StrictAppend(d: seq<Candidate>, last: Candidate)
    requires StrictlyAscends(d) && d != [] && Less(d[|d| - 1].dist, last.dist)
    ensures StrictlyAscends(d + [last])
  {
    hide Less;
    forall i | 0 <= i < |d|
      ensures Less(d[i].dist, last.dist)
    {
      if i < |d| - 1 {
        LessTransitive(d[i].dist, d[|d| - 1].dist, last.dist);
      }
    }
  }

  lemma MeasuredParts(front: seq<Candidate>, last: Candidate, target: NodeId)
    ensures Measured(front + [last], target) <==> Measured(front, target) && last.dist == Distance(last.contact.id, target)
  {
    hide Distance;
    assert forall c :: c in front + [last] <==> c in front || c == last;
  }

  /** In a sorted list equal ids are neighbours, so each peer is kept once. */
  lemma {:induction false} Deduped(s: seq<Candidate>, target: NodeId)
    requires Ascends(s) && Measured(s, target)
    ensures StrictlyAscends(Dedup(s)) && Measured(Dedup(s), target) && IdsOf(Dedup(s)) == IdsOf(s)
    ensures s != [] ==> Dedup(s) != [] && Dedup(s)[|Dedup(s)| - 1].dist == s[|s| - 1].dist
  {
    hide Distance, Less, IdsOf, Measured;
    if |s| >= 2 {
      var front, last, prev := s[..|s| - 1], s[|s| - 1], s[|s| - 2];
      assert s == front + [last] && front == s[..|s| - 2] + [prev];
      MeasuredParts(front, last, target);
      MeasuredParts(s[..|s| - 2], prev, target);
      Deduped(front, target);
      IdsOfNext(front, last);
      IdsOfNext(s[..|s| - 2], prev);
      DistanceFacts(last.contact.id, prev.contact.id, target);
      var d := Dedup(front);
      if last.contact.id == prev.contact.id {
        assert IdsOf(s) == IdsOf(front);
      } else {
        LessTotal(prev.dist, last.dist);
        IdsOfNext(d, last);
        MeasuredParts(d, last, target);
        StrictAppend(d, last);
      }
    }
  }
}
