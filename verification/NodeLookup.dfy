/** Sorting peers by distance, and the iterative lookup built on it. */
module NodeLookup {
  import opened Wrappers
  import opened XorMetric

  datatype Contact = Contact(id: NodeId, addr: string, lastSeenMs: nat, failedQueries: nat)

  datatype Candidate = Candidate(dist: NodeId, contact: Contact)

  function Ids(contacts: seq<Contact>): set<NodeId> {
    set c | c in contacts :: c.id
  }

  // --------------------------------------------------------------------- sorting

  /** After every candidate that is not farther: the sort is stable. */
  function InsertCandidate(s: seq<Candidate>, c: Candidate): seq<Candidate> {
    if s == [] || Less(c.dist, s[0].dist) then [c] + s else [s[0]] + InsertCandidate(s[1..], c)
  }

  function SortByDistance(s: seq<Candidate>): seq<Candidate> {
    if s == [] then [] else InsertCandidate(SortByDistance(s[..|s| - 1]), s[|s| - 1])
  }

  ghost predicate Ascends(s: seq<Candidate>) {
    forall i, j :: 0 <= i < j < |s| ==> !Less(s[j].dist, s[i].dist)
  }

  ghost predicate StrictlyAscends(s: seq<Candidate>) {
    forall i, j :: 0 <= i < j < |s| ==> Less(s[i].dist, s[j].dist)
  }

  lemma NotLessTransitive(a: NodeId, b: NodeId, c: NodeId)
    requires !Less(b, a) && !Less(c, b)
    ensures !Less(c, a)
  {
    LessTotal(a, b);
    LessTotal(b, c);
    if Less(a, b) && Less(b, c) {
      LessTransitive(a, b, c);
      LessIsStrict(a, c);
    }
  }

  lemma {:induction false} InsertSorted(s: seq<Candidate>, c: Candidate)
    requires Ascends(s)
    ensures Ascends(InsertCandidate(s, c)) && |InsertCandidate(s, c)| == |s| + 1
    ensures forall x :: x in InsertCandidate(s, c) <==> x in s || x == c
  {
    hide Less;
    if s != [] {
      assert s == [s[0]] + s[1..];
      if Less(c.dist, s[0].dist) {
        LessIsStrict(c.dist, s[0].dist);
        forall j | 0 <= j < |s|
          ensures !Less(s[j].dist, c.dist)
        {
          if j > 0 {
            NotLessTransitive(c.dist, s[0].dist, s[j].dist);
          }
        }
      } else {
        InsertSorted(s[1..], c);
        var rest := InsertCandidate(s[1..], c);
        forall j | 0 <= j < |rest|
          ensures !Less(rest[j].dist, s[0].dist)
        {
          assert rest[j] in rest;
          if rest[j] in s[1..] {
            var i :| 0 <= i < |s[1..]| && s[1..][i] == rest[j];
            assert s[i + 1] == rest[j];
          }
        }
      }
    }
  }

  lemma {:induction false} SortedByDistance(s: seq<Candidate>)
    ensures Ascends(SortByDistance(s)) && |SortByDistance(s)| == |s|
    ensures forall x :: x in SortByDistance(s) <==> x in s
  {
    if s != [] {
      var front, last := s[..|s| - 1], s[|s| - 1];
      assert s == front + [last];
      SortedByDistance(front);
      InsertSorted(SortByDistance(front), last);
    }
  }

  // -------------------------------------------------------------------- nearest

  /** The distances are to `target`. */
  ghost predicate Measured(s: seq<Candidate>, target: NodeId) {
    forall c :: c in s ==> c.dist == Distance(c.contact.id, target)
  }

  ghost predicate OneEach(s: seq<Candidate>) {
    forall i, j :: 0 <= i < j < |s| ==> s[i].contact.id != s[j].contact.id
  }

  function IdsOf(s: seq<Candidate>): set<NodeId> {
    set c | c in s :: c.contact.id
  }

  /** Listing each peer once, the order is strict. */
  lemma StrictWhenDistinct(s: seq<Candidate>, target: NodeId)
    requires Ascends(s) && Measured(s, target) && OneEach(s)
    ensures StrictlyAscends(s)
  {
    hide Less;
    forall i, j | 0 <= i < j < |s|
      ensures Less(s[i].dist, s[j].dist)
    {
      assert s[i] in s && s[j] in s;
      DistanceFacts(s[i].contact.id, s[j].contact.id, target);
      LessTotal(s[i].dist, s[j].dist);
    }
  }

  lemma StrictIsOneEach(s: seq<Candidate>, target: NodeId)
    requires StrictlyAscends(s) && Measured(s, target)
    ensures OneEach(s)
  {
    hide Less;
    forall i, j | 0 <= i < j < |s|
      ensures s[i].contact.id != s[j].contact.id
    {
      assert s[i] in s && s[j] in s;
      LessIsStrict(s[i].dist, s[j].dist);
    }
  }

  lemma {:induction false} IdCount(s: seq<Candidate>)
    requires OneEach(s)
    ensures |IdsOf(s)| == |s|
  {
    if s != [] {
      var front, last := s[..|s| - 1], s[|s| - 1];
      assert s == front + [last];
      IdCount(front);
      assert IdsOf(s) == IdsOf(front) + {last.contact.id};
      assert last.contact.id !in IdsOf(front);
    }
  }

  /** `r` lists the `count` peers of `all` nearest to `target`, or all of them when they
      are fewer, nearest first. */
  ghost predicate Nearest(all: set<NodeId>, target: NodeId, count: nat, r: seq<Contact>) {
    && Ids(r) <= all && |r| == (if count < |all| then count else |all|)
    && (forall i, j :: 0 <= i < j < |r| ==> Less(Distance(r[i].id, target), Distance(r[j].id, target)))
    && (forall x, y :: x in all && x !in Ids(r) && y in Ids(r) ==> Less(Distance(y, target), Distance(x, target)))
  }

  function ContactsOf(s: seq<Candidate>): (r: seq<Contact>)
    ensures |r| == |s| && forall i :: 0 <= i < |s| ==> r[i] == s[i].contact
  {
    seq(|s|, i requires 0 <= i < |s| => s[i].contact)
  }

  lemma FrontIds(s: seq<Candidate>, n: nat)
    requires n <= |s|
    ensures Ids(ContactsOf(s[..n])) == IdsOf(s[..n]) && IdsOf(s[..n]) <= IdsOf(s)
  {
    var r := ContactsOf(s[..n]);
    forall id | id in IdsOf(s[..n])
      ensures id in Ids(r)
    {
      var i :| 0 <= i < n && s[..n][i].contact.id == id;
      assert r[i] in r;
    }
  }

  /** Split a strictly sorted list anywhere: the front is nearer than the rest. */
  lemma FrontIsNearer(s: seq<Candidate>, target: NodeId, n: nat, x: NodeId, y: NodeId)
    requires StrictlyAscends(s) && Measured(s, target) && n <= |s|
    requires x in IdsOf(s) && x !in IdsOf(s[..n]) && y in IdsOf(s[..n])
    ensures Less(Distance(y, target), Distance(x, target))
  {
    hide Less, Distance;
    assert forall m :: 0 <= m < n ==> s[..n][m] == s[m] && s[..n][m] in s[..n];
    var j :| 0 <= j < |s| && s[j].contact.id == x;
    var i :| 0 <= i < n && s[..n][i].contact.id == y;
    assert s[i] in s && s[j] in s;
  }

  /** The front of a strictly sorted list is the nearest. */
  lemma FrontIsNearest(s: seq<Candidate>, target: NodeId, count: nat)
    requires StrictlyAscends(s) && Measured(s, target)
    ensures Nearest(IdsOf(s), target, count, ContactsOf(if count < |s| then s[..count] else s))
  {
    hide Less, Distance, IdsOf, Ids;
    var n := if count < |s| then count else |s|;
    var r := ContactsOf(s[..n]);
    assert s[..|s|] == s;
    StrictIsOneEach(s, target);
    IdCount(s);
    FrontIds(s, n);
    forall i, j | 0 <= i < j < n
      ensures Less(Distance(r[i].id, target), Distance(r[j].id, target))
    {
      assert s[i] in s && s[j] in s;
    }
    forall x, y | x in IdsOf(s) && x !in Ids(r) && y in Ids(r)
      ensures Less(Distance(y, target), Distance(x, target))
    {
      FrontIsNearer(s, target, n, x, y);
    }
  }

  // ------------------------------------------------------------------- the lookup

  /** The peers still to query, nearest first. */
  function Unqueried(s: seq<Candidate>, queried: set<NodeId>): seq<Contact> {
    if s == [] then []
    else
      var front := Unqueried(s[..|s| - 1], queried);
      if s[|s| - 1].contact.id in queried then front else front + [s[|s| - 1].contact]
  }

  lemma {:induction false} UnqueriedFacts(s: seq<Candidate>, queried: set<NodeId>)
    requires OneEach(s)
    ensures Ids(Unqueried(s, queried)) == IdsOf(s) - queried
    ensures forall i, j :: 0 <= i < j < |Unqueried(s, queried)| ==>
      Unqueried(s, queried)[i].id != Unqueried(s, queried)[j].id
  {
    if s != [] {
      var front, last := s[..|s| - 1], s[|s| - 1];
      assert s == front + [last];
      UnqueriedFacts(front, queried);
      var u := Unqueried(front, queried);
      LastId(front, last);
      LastContactId(u, last.contact);
      assert s[..|s| - 1] == front;
      hide Ids, IdsOf;
    }
  }

  /** The unqueried, with their distances: a strictly sorted list too. */
  lemma {:induction false} UnqueriedSorted(s: seq<Candidate>, queried: set<NodeId>, target: NodeId)
    returns (u: seq<Candidate>)
    requires StrictlyAscends(s) && Measured(s, target)
    ensures ContactsOf(u) == Unqueried(s, queried) && StrictlyAscends(u) && Measured(u, target)
    ensures forall c :: c in u <==> c in s && c.contact.id !in queried
  {
    hide Less, Distance;
    u := [];
    if s != [] {
      var front, last := s[..|s| - 1], s[|s| - 1];
      assert s == front + [last];
      assert forall c :: c in front ==> c in s;
      u := UnqueriedSorted(front, queried, target);
      if last.contact.id !in queried {
        forall i | 0 <= i < |u|
          ensures Less(u[i].dist, last.dist)
        {
          assert u[i] in front;
          var j :| 0 <= j < |front| && front[j] == u[i];
          assert s[j] == u[i];
        }
        assert ContactsOf(u + [last]) == ContactsOf(u) + [last.contact];
        u := u + [last];
      }
    }
  }

  /** The next to query are the nearest of the peers not queried yet. */
  lemma NextAreNearest(s: seq<Candidate>, queried: set<NodeId>, target: NodeId, n: nat)
    requires StrictlyAscends(s) && Measured(s, target)
    ensures Nearest(IdsOf(s) - queried, target, n, FirstOf(Unqueried(s, queried), n))
  {
    hide StrictlyAscends, Measured, Unqueried, Nearest;
    var u := UnqueriedSorted(s, queried, target);
    FrontIsNearest(u, target, n);
    assert IdsOf(u) == IdsOf(s) - queried;
    assert n < |u| ==> ContactsOf(u[..n]) == ContactsOf(u)[..n];
  }

  lemma LastId(front: seq<Candidate>, last: Candidate)
    requires OneEach(front + [last])
    ensures IdsOf(front + [last]) == IdsOf(front) + {last.contact.id} && last.contact.id !in IdsOf(front)
  {
    var s := front + [last];
    assert forall c :: c in s <==> c in front || c == last;
    assert forall i :: 0 <= i < |front| ==> s[i] == front[i] && s[|front|] == last;
  }

  lemma LastContactId(front: seq<Contact>, last: Contact)
    ensures Ids(front + [last]) == Ids(front) + {last.id}
    ensures forall i :: 0 <= i < |front| ==> front[i].id in Ids(front)
  {
    assert forall c :: c in front + [last] <==> c in front || c == last;
  }

  class NodeLookup {
    const target: NodeId
    const k: nat
    const alpha: nat
    var queried: set<NodeId>
    var shortlist: seq<Candidate>

    ghost predicate Valid()
      reads this
    {
      StrictlyAscends(shortlist) && Measured(shortlist, target)
    }

    /** Every peer heard of. */
    ghost function Learned(): set<NodeId>
      reads this
    {
      IdsOf(shortlist)
    }

    constructor (target: NodeId, k: nat, alpha: nat)
      ensures Valid() && Learned() == {} && queried == {}
      ensures this.target == target && this.k == k && this.alpha == alpha
    {
      this.target, this.k, this.alpha := target, k, alpha;
      queried, shortlist := {}, [];
    }

    /** Learn peers; one already known keeps its contact. */
    method AddInitial(contacts: seq<Contact>)
      requires Valid()
      modifies this`shortlist
      ensures Valid() && Learned() == old(Learned()) + Ids(contacts)
      ensures forall c :: c in old(shortlist) ==> c in shortlist
      ensures forall c :: c in shortlist ==> c in old(shortlist) || c.contact in contacts
      ensures KeepsFirst(ContactsOf(old(shortlist)) + contacts, shortlist)
    {
      hide Less, Distance, KeepsFirst, Ids, IdsOf, OneEach, Measured, FreshAsOf;
      ghost var before := shortlist;
      StrictIsOneEach(shortlist, target);
      ListedOnceEach(shortlist);
      NoIds(contacts);
      assert ContactsOf(before) + contacts[..0] == ContactsOf(before);
      for i := 0 to |contacts|
        invariant KeepsFirst(ContactsOf(before) + contacts[..i], shortlist)
        invariant Measured(shortlist, target) && OneEach(shortlist)
        invariant IdsOf(shortlist) == IdsOf(before) + Ids(contacts[..i])
        invariant forall c :: c in before ==> c in shortlist
        invariant forall c :: c in shortlist ==> c in before || c.contact in contacts
      {
        var contact := contacts[i];
        IdsNext(contacts, i);
        KnownId(shortlist, contact.id);
        FirstNext(before, contacts, i, shortlist, Distance(contact.id, target));
        if forall c :: c in shortlist ==> c.contact.id != contact.id {
          NewTaken(shortlist, Candidate(Distance(contact.id, target), contact));
          Pushed(shortlist, target, contact);
          shortlist := shortlist + [Candidate(Distance(contact.id, target), contact)];
        }
      }
      assert contacts[..|contacts|] == contacts;
      Sort();
    }

    /** Learn peers from a reply; a known one takes the contact unless it is staler. */
    method AddResults(contacts: seq<Contact>)
      requires Valid()
      modifies this`shortlist
      ensures Valid() && Learned() == old(Learned()) + Ids(contacts)
      ensures forall c :: c in contacts || FreshAsOf(old(shortlist), c) ==> FreshAsOf(shortlist, c)
      ensures forall c :: c in shortlist ==> c in old(shortlist) || c.contact in contacts
      ensures KeepsLatest(ContactsOf(old(shortlist)) + contacts, shortlist)
    {
      hide Less, Distance, FreshAsOf, Ids, IdsOf, KeepsLatest, KeptOrTaken;
      ghost var before := shortlist;
      StrictIsOneEach(shortlist, target);
      NoIds(contacts);
      ListedOnceEach(shortlist);
      assert ContactsOf(before) + contacts[..0] == ContactsOf(before);
      for i := 0 to |contacts|
        invariant KeepsLatest(ContactsOf(before) + contacts[..i], shortlist)
        invariant Measured(shortlist, target) && OneEach(shortlist)
        invariant IdsOf(shortlist) == IdsOf(before) + Ids(contacts[..i])
        invariant forall c :: c in contacts[..i] || FreshAsOf(before, c) ==> FreshAsOf(shortlist, c)
        invariant forall c :: c in shortlist ==> c in before || c.contact in contacts
      {
        IdsNext(contacts, i);
        ghost var known := shortlist;
        AddResult(contacts[i]);
        LatestNext(before, contacts, i, known, shortlist);
        assert contacts[..i + 1] == contacts[..i] + [contacts[i]];
      }
      assert contacts[..|contacts|] == contacts;
      Sort();
    }

    method AddResult(contact: Contact)
      requires Measured(shortlist, target) && OneEach(shortlist)
      modifies this`shortlist
      ensures Measured(shortlist, target) && OneEach(shortlist) && IdsOf(shortlist) == IdsOf(old(shortlist)) + {contact.id}
      ensures FreshAsOf(shortlist, contact) && forall c :: FreshAsOf(old(shortlist), c) ==> FreshAsOf(shortlist, c)
      ensures forall c :: c in shortlist ==> KeptOrTaken(old(shortlist), contact, c)
    {
      hide Less, Distance, Measured, OneEach, KeptOrTaken, FreshAsOf;
      var pos := PositionOf(contact.id);
      if pos.Some? {
        OneTaken(shortlist, pos.value, contact);
        StillFresh(shortlist, pos.value, contact);
        if contact.lastSeenMs >= shortlist[pos.value].contact.lastSeenMs {
          Freshened(shortlist, target, pos.value, contact);
          shortlist := shortlist[pos.value := shortlist[pos.value].(contact := contact)];
        }
      } else {
        Pushed(shortlist, target, contact);
        NewTaken(shortlist, Candidate(Distance(contact.id, target), contact));
        shortlist := shortlist + [Candidate(Distance(contact.id, target), contact)];
      }
    }

    method PositionOf(id: NodeId) returns (r: Option<nat>)
      ensures r.Some? ==> r.value < |shortlist| && shortlist[r.value].contact.id == id
      ensures r.None? ==> forall c :: c in shortlist ==> c.contact.id != id
    {
      for i := 0 to |shortlist|
        invariant forall j :: 0 <= j < i ==> shortlist[j].contact.id != id
      {
        if shortlist[i].contact.id == id {
          return Some(i);
        }
      }
      return None;
    }

    method Sort()
      requires Measured(shortlist, target) && OneEach(shortlist)
      modifies this`shortlist
      ensures Valid() && Learned() == old(Learned())
      ensures forall c :: c in shortlist <==> c in old(shortlist)
      ensures forall all :: KeepsFirst(all, old(shortlist)) ==> KeepsFirst(all, shortlist)
      ensures forall all :: KeepsLatest(all, old(shortlist)) ==> KeepsLatest(all, shortlist)
      ensures forall c :: FreshAsOf(shortlist, c) <==> FreshAsOf(old(shortlist), c)
    {
      hide Less, Distance, SortByDistance;
      SortedByDistance(shortlist);
      SameMembersOneEach(shortlist, SortByDistance(shortlist));
      StrictWhenDistinct(SortByDistance(shortlist), target);
      shortlist := SortByDistance(shortlist);
    }

    /** The next peers to query, at most `alpha`, and none of them a second time. */
    method NextCandidates() returns (r: seq<Contact>)
      requires Valid()
      modifies this`queried
      ensures Valid() && |r| <= alpha && Ids(r) <= Learned() && Ids(r) !! old(queried)
      ensures queried == old(queried) + Ids(r)
      ensures r == FirstOf(Unqueried(shortlist, old(queried)), alpha)
      ensures Nearest(Learned() - old(queried), target, alpha, r)
    {
      hide Less, Distance, StrictlyAscends, Measured, OneEach, Nearest;
      NextAreNearest(shortlist, queried, target, alpha);
      r := [];
      StrictIsOneEach(shortlist, target);
      UnqueriedFacts(shortlist, queried);
      for i := 0 to |shortlist|
        invariant r == FirstOf(Unqueried(shortlist[..i], queried), alpha)
      {
        assert shortlist[..i + 1][..i] == shortlist[..i];
        if shortlist[i].contact.id !in queried && |r| < alpha {
          r := r + [shortlist[i].contact];
        }
      }
      assert shortlist[..|shortlist|] == shortlist;
      FirstIds(Unqueried(shortlist, queried), alpha);
      MarkQueried(r);
    }

    method MarkQueried(contacts: seq<Contact>)
      modifies this`queried
      ensures queried == old(queried) + Ids(contacts)
    {
      hide Ids;
      ghost var before := queried;
      NoIds(contacts);
      for i := 0 to |contacts|
        invariant queried == before + Ids(contacts[..i])
      {
        IdsNext(contacts, i);
        queried := queried + {contacts[i].id};
      }
      assert contacts[..|contacts|] == contacts;
    }

    /** Whether the nearest `k` peers have all been queried. */
    predicate IsComplete()
      requires 0 < k
      reads this
    {
      if |shortlist| < k then forall c :: c in shortlist ==> c.contact.id in queried
      else forall c :: c in shortlist[..k] ==> c.contact.id in queried
    }

    function Closest(): seq<Contact>
      reads this
    {
      ContactsOf(if k < |shortlist| then shortlist[..k] else shortlist)
    }

    /** The answer is the nearest of all the peers heard of; when the lookup is complete,
        every one of them was queried. */
    lemma ClosestIsNearest()
      requires Valid() && 0 < k
      ensures Nearest(Learned(), target, k, Closest())
      ensures IsComplete() <==> Ids(Closest()) <= queried
    {
      hide Less, Distance;
      FrontIsNearest(shortlist, target, k);
      var front := if k < |shortlist| then shortlist[..k] else shortlist;
      assert shortlist[..|shortlist|] == shortlist;
      assert forall c :: c in front ==> c.contact in ContactsOf(front) by {
        forall c | c in front
          ensures c.contact in ContactsOf(front)
        {
          var i :| 0 <= i < |front| && front[i] == c;
          assert ContactsOf(front)[i] == c.contact;
        }
      }
      assert forall c :: c in front ==> c.contact.id in Ids(Closest());
    }

    /** An incomplete lookup always has a peer to query. */
    lemma IncompleteHasCandidate()
      requires Valid() && 0 < k && 0 < alpha && !IsComplete()
      ensures Unqueried(shortlist, queried) != [] && Learned() - queried != {}
    {
      StrictIsOneEach(shortlist, target);
      UnqueriedFacts(shortlist, queried);
      var c :| c in shortlist && c.contact.id !in queried;
      assert c.contact.id in IdsOf(shortlist) - queried;
    }
  }

  function FirstOf(s: seq<Contact>, n: nat): seq<Contact> {
    if n < |s| then s[..n] else s
  }

  lemma FirstIds(s: seq<Contact>, n: nat)
    ensures Ids(FirstOf(s, n)) <= Ids(s) && |FirstOf(s, n)| <= n
  {
  }

  lemma NoIds(contacts: seq<Contact>)
    ensures Ids(contacts[..0]) == {}
  {
  }

  /** Of the records listed for a peer, the first. */
  ghost predicate FirstListed(all: seq<Contact>, c: Contact) {
    exists i :: 0 <= i < |all| && all[i] == c && forall j :: 0 <= j < i ==> all[j].id != c.id
  }

  /** Of the records listed for a peer, the one seen latest; of several, the last listed. */
  ghost predicate LatestListed(all: seq<Contact>, c: Contact) {
    exists i :: 0 <= i < |all| && all[i] == c && LatestAt(all, i)
  }

  ghost predicate LatestAt(all: seq<Contact>, i: int)
    requires 0 <= i < |all|
  {
    forall j :: 0 <= j < |all| && all[j].id == all[i].id ==>
      all[j].lastSeenMs <= all[i].lastSeenMs && (i < j ==> all[j].lastSeenMs < all[i].lastSeenMs)
  }

  /** The list has this peer, seen later. */
  ghost predicate HasLater(s: seq<Candidate>, c: Contact) {
    exists x :: x in s && x.contact.id == c.id && c.lastSeenMs < x.contact.lastSeenMs
  }

  /** A record other than the peer's stays; the peer's gives way unless it was seen later. */
  ghost predicate KeptOrTaken(before: seq<Candidate>, contact: Contact, c: Candidate) {
    if c.contact.id == contact.id && !HasLater(before, contact) then c.contact == contact else c in before
  }

  lemma OneTaken(s: seq<Candidate>, pos: nat, contact: Contact)
    requires OneEach(s) && pos < |s| && s[pos].contact.id == contact.id
    ensures HasLater(s, contact) <==> contact.lastSeenMs < s[pos].contact.lastSeenMs
    ensures if HasLater(s, contact) then forall c :: c in s ==> KeptOrTaken(s, contact, c)
      else forall c :: c in s[pos := s[pos].(contact := contact)] ==> KeptOrTaken(s, contact, c)
    ensures IdsOf(s) + {contact.id} == IdsOf(s)
  {
    assert s[pos] in s;
    forall c | c in s && c.contact.id == contact.id
      ensures c == s[pos]
    {
      var i :| 0 <= i < |s| && s[i] == c;
    }
    var s' := s[pos := s[pos].(contact := contact)];
    forall c | c in s'
      ensures c == s'[pos] || (c in s && c.contact.id != contact.id)
    {
      var i :| 0 <= i < |s| && s'[i] == c;
      assert s'[i] == if i == pos then s'[pos] else s[i];
    }
  }

  lemma StillFresh(s: seq<Candidate>, pos: nat, contact: Contact)
    requires pos < |s| && s[pos].contact.id == contact.id
    ensures contact.lastSeenMs < s[pos].contact.lastSeenMs ==> FreshAsOf(s, contact)
  {
    assert s[pos] in s;
  }

  lemma NewTaken(s: seq<Candidate>, x: Candidate)
    requires forall c :: c in s ==> c.contact.id != x.contact.id
    ensures forall c :: c in s + [x] ==> KeptOrTaken(s, x.contact, c)
  {
  }

  /** Every record is the first its peer was listed with. */
  ghost predicate KeepsFirst(all: seq<Contact>, s: seq<Candidate>) {
    forall c :: c in s ==> FirstListed(all, c.contact)
  }

  /** Every record is the latest its peer was listed with. */
  ghost predicate KeepsLatest(all: seq<Contact>, s: seq<Candidate>) {
    forall c :: c in s ==> LatestListed(all, c.contact)
  }

  lemma ListedOnceEach(s: seq<Candidate>)
    requires OneEach(s)
    ensures KeepsFirst(ContactsOf(s), s) && KeepsLatest(ContactsOf(s), s)
  {
    var all := ContactsOf(s);
    forall c | c in s
      ensures FirstListed(all, c.contact) && LatestListed(all, c.contact)
    {
      var i :| 0 <= i < |s| && s[i] == c;
      assert all[i] == c.contact && LatestAt(all, i);
    }
  }

  lemma FirstNext(before: seq<Candidate>, contacts: seq<Contact>, i: nat, s: seq<Candidate>, dist: NodeId)
    requires i < |contacts| && IdsOf(s) == IdsOf(before) + Ids(contacts[..i])
    requires KeepsFirst(ContactsOf(before) + contacts[..i], s)
    ensures KeepsFirst(ContactsOf(before) + contacts[..i + 1], s)
    ensures (forall c :: c in s ==> c.contact.id != contacts[i].id) ==>
      KeepsFirst(ContactsOf(before) + contacts[..i + 1], s + [Candidate(dist, contacts[i])])
  {
    var all, x := ContactsOf(before) + contacts[..i], contacts[i];
    assert ContactsOf(before) + contacts[..i + 1] == all + [x];
    forall c | c in s
      ensures FirstListed(all + [x], c.contact)
    {
      var n :| 0 <= n < |all| && all[n] == c.contact && forall j :: 0 <= j < n ==> all[j].id != c.contact.id;
      assert (all + [x])[n] == c.contact;
    }
    if forall c :: c in s ==> c.contact.id != x.id {
      assert x.id !in IdsOf(s);
      forall j | 0 <= j < |all|
        ensures all[j].id != x.id
      {
        ListedId(before, contacts, i, j);
      }
      assert (all + [x])[|all|] == x;
    }
  }

  lemma KnownId(s: seq<Candidate>, id: NodeId)
    ensures (forall c :: c in s ==> c.contact.id != id) || IdsOf(s) + {id} == IdsOf(s)
  {
  }

  lemma ListedId(before: seq<Candidate>, contacts: seq<Contact>, i: nat, j: nat)
    requires i <= |contacts| && j < |before| + i
    ensures (ContactsOf(before) + contacts[..i])[j].id in IdsOf(before) + Ids(contacts[..i])
  {
    var all := ContactsOf(before) + contacts[..i];
    if j < |before| {
      assert all[j] == before[j].contact && before[j] in before;
    } else {
      assert all[j] == contacts[..i][j - |before|] && all[j] in contacts[..i];
    }
  }

  /** The next record: it is the latest of its peer unless the one kept was seen later. */
  lemma LatestNext(before: seq<Candidate>, contacts: seq<Contact>, i: nat, s: seq<Candidate>, s': seq<Candidate>)
    requires i < |contacts| && IdsOf(s) == IdsOf(before) + Ids(contacts[..i])
    requires KeepsLatest(ContactsOf(before) + contacts[..i], s)
    requires forall c :: c in s' ==> KeptOrTaken(s, contacts[i], c)
    ensures KeepsLatest(ContactsOf(before) + contacts[..i + 1], s')
    ensures forall c :: c in s' ==> c in s || c.contact == contacts[i]
  {
    hide IdsOf, LatestListed;
    var all, x := ContactsOf(before) + contacts[..i], contacts[i];
    assert ContactsOf(before) + contacts[..i + 1] == all + [x];
    forall c | c in s'
      ensures LatestListed(all + [x], c.contact)
    {
      if c.contact.id != x.id {
        LatestOneMore(all, c.contact, x);
      } else if HasLater(s, x) {
        var y :| y in s && y.contact.id == x.id && x.lastSeenMs < y.contact.lastSeenMs;
        LatestIsOne(all, c.contact, y.contact);
        LatestOneMore(all, c.contact, x);
      } else {
        NoneLater(before, contacts, i, s);
      }
    }
  }

  lemma NoneLater(before: seq<Candidate>, contacts: seq<Contact>, i: nat, s: seq<Candidate>)
    requires i < |contacts| && IdsOf(s) == IdsOf(before) + Ids(contacts[..i])
    requires KeepsLatest(ContactsOf(before) + contacts[..i], s) && !HasLater(s, contacts[i])
    ensures LatestListed(ContactsOf(before) + contacts[..i] + [contacts[i]], contacts[i])
  {
    var all, x := ContactsOf(before) + contacts[..i], contacts[i];
    forall j | 0 <= j < |all| && all[j].id == x.id
      ensures all[j].lastSeenMs <= x.lastSeenMs
    {
      ListedId(before, contacts, i, j);
      var c := ListedIn(s, x.id);
      var n :| 0 <= n < |all| && all[n] == c.contact && LatestAt(all, n);
    }
    assert (all + [x])[|all|] == x && LatestAt(all + [x], |all|);
  }

  lemma ListedIn(s: seq<Candidate>, id: NodeId) returns (c: Candidate)
    requires id in IdsOf(s)
    ensures c in s && c.contact.id == id
  {
    c :| c in s && c.contact.id == id;
  }

  lemma LatestOneMore(all: seq<Contact>, c: Contact, x: Contact)
    requires LatestListed(all, c) && (c.id == x.id ==> x.lastSeenMs < c.lastSeenMs)
    ensures LatestListed(all + [x], c)
  {
    var i :| 0 <= i < |all| && all[i] == c && LatestAt(all, i);
    assert (all + [x])[i] == c && LatestAt(all + [x], i);
  }

  lemma LatestIsOne(all: seq<Contact>, c: Contact, d: Contact)
    requires LatestListed(all, c) && LatestListed(all, d) && c.id == d.id
    ensures c == d
  {
    var i :| 0 <= i < |all| && all[i] == c && LatestAt(all, i);
    var j :| 0 <= j < |all| && all[j] == d && LatestAt(all, j);
  }

  /** The list has this peer, seen no earlier. */
  ghost predicate FreshAsOf(s: seq<Candidate>, c: Contact) {
    exists x :: x in s && x.contact.id == c.id && c.lastSeenMs <= x.contact.lastSeenMs
  }

  lemma IdsNext(contacts: seq<Contact>, i: nat)
    requires i < |contacts|
    ensures Ids(contacts[..i + 1]) == Ids(contacts[..i]) + {contacts[i].id}
  {
    assert contacts[..i + 1] == contacts[..i] + [contacts[i]];
  }

  lemma Pushed(s: seq<Candidate>, target: NodeId, contact: Contact)
    requires Measured(s, target) && OneEach(s) && forall c :: c in s ==> c.contact.id != contact.id
    ensures var s' := s + [Candidate(Distance(contact.id, target), contact)];
      && Measured(s', target) && OneEach(s') && IdsOf(s') == IdsOf(s) + {contact.id}
      && FreshAsOf(s', contact) && forall c :: FreshAsOf(s, c) ==> FreshAsOf(s', c)
  {
    hide Distance;
    var x := Candidate(Distance(contact.id, target), contact);
    assert forall c :: c in s + [x] <==> c in s || c == x;
    assert forall i :: 0 <= i < |s| ==> s[i] in s;
  }

  lemma Freshened(s: seq<Candidate>, target: NodeId, pos: nat, contact: Contact)
    requires Measured(s, target) && OneEach(s) && pos < |s| && s[pos].contact.id == contact.id
    requires s[pos].contact.lastSeenMs <= contact.lastSeenMs
    ensures var s' := s[pos := s[pos].(contact := contact)];
      && Measured(s', target) && OneEach(s') && IdsOf(s') == IdsOf(s)
      && FreshAsOf(s', contact) && forall c :: FreshAsOf(s, c) ==> FreshAsOf(s', c)
  {
    hide Distance;
    var x := s[pos].(contact := contact);
    var s' := s[pos := x];
    assert s'[pos] == x && s[pos] in s && forall i :: 0 <= i < |s| && i != pos ==> s'[i] == s[i];
    forall c | FreshAsOf(s, c)
      ensures FreshAsOf(s', c)
    {
      var y :| y in s && y.contact.id == c.id && c.lastSeenMs <= y.contact.lastSeenMs;
      var i :| 0 <= i < |s| && s[i] == y;
      assert s'[i] in s';
    }
    forall id | id in IdsOf(s)
      ensures id in IdsOf(s')
    {
      var i :| 0 <= i < |s| && s[i].contact.id == id;
      assert s'[i] in s' && s'[i].contact.id == id;
    }
  }

  lemma IdsOfNext(front: seq<Candidate>, last: Candidate)
    ensures IdsOf(front + [last]) == IdsOf(front) + {last.contact.id}
  {
  }

  lemma {:induction false} IdsFew(s: seq<Candidate>)
    ensures |IdsOf(s)| <= |s|
    ensures |IdsOf(s)| == |s| ==> OneEach(s)
  {
    hide IdsOf;
    if s != [] {
      var front, last := s[..|s| - 1], s[|s| - 1];
      assert s == front + [last];
      IdsFew(front);
      IdsOfNext(front, last);
      forall i | 0 <= i < |front|
        ensures front[i].contact.id in IdsOf(front)
      {
        IdListed(front, i);
      }
    } else {
      NoIdsOf();
    }
  }

  lemma IdListed(s: seq<Candidate>, i: nat)
    requires i < |s|
    ensures s[i].contact.id in IdsOf(s)
  {
  }

  lemma NoIdsOf()
    ensures IdsOf([]) == {}
  {
  }

  lemma SameMembersOneEach(s: seq<Candidate>, r: seq<Candidate>)
    requires OneEach(s) && |r| == |s| && forall c :: c in r <==> c in s
    ensures OneEach(r) && IdsOf(r) == IdsOf(s)
  {
    IdCount(s);
    assert IdsOf(r) == IdsOf(s);
    IdsFew(r);
  }

  // ------------------------------------------------------------------ one lookup

  const ALPHA: nat := 3
  const MAX_ROUNDS: nat := 10

  /** What the queried peers answered has been learned. */
  ghost predicate Closed(learned: set<NodeId>, queried: set<NodeId>, replies: NodeId -> seq<Contact>) {
    queried <= learned && forall q :: q in queried ==> Ids(replies(q)) <= learned
  }

  /** The lookup starts among the peers of `world`, and they name no others. */
  ghost predicate Within(world: set<NodeId>, initial: seq<Contact>, replies: NodeId -> seq<Contact>) {
    Ids(initial) <= world && forall q :: q in world ==> Ids(replies(q)) <= world
  }

  /** What holds between two rounds. */
  ghost predicate Running(
      learned: set<NodeId>, queried: set<NodeId>, initial: seq<Contact>, replies: NodeId -> seq<Contact>) {
    && Ids(initial) <= learned && Closed(learned, queried, replies)
    && forall world :: Within(world, initial, replies) ==> learned <= world
  }

  /** Query round by round until the nearest `k` have all answered, ten rounds at most. In
      a world of fewer peers than that the lookup completes; in any, it asks no peer twice. */
  method FindNode(target: NodeId, k: nat, initial: seq<Contact>, replies: NodeId -> seq<Contact>)
    returns (lookup: NodeLookup, r: seq<Contact>)
    requires 0 < k
    ensures fresh(lookup) && lookup.Valid() && lookup.target == target && lookup.k == k && lookup.alpha == 3
    ensures r == lookup.Closest()
    ensures Ids(initial) <= lookup.Learned() && Closed(lookup.Learned(), lookup.queried, replies)
    ensures lookup.IsComplete() || 10 <= |lookup.queried|
    ensures forall world :: Within(world, initial, replies) ==>
      |lookup.queried| <= |world| && (|world| < 10 ==> lookup.IsComplete())
  {
    hide Less, Distance, Closed, StrictlyAscends, Measured, Unqueried, Ids, IdsOf, Running, Within, Answers;
    lookup := new NodeLookup(target, k, ALPHA);
    lookup.AddInitial(initial);
    var rounds := 0;
    RunningStart(initial, replies);
    while !lookup.IsComplete() && rounds < MAX_ROUNDS
      invariant lookup.Valid() && Running(lookup.Learned(), lookup.queried, initial, replies)
      invariant rounds <= |lookup.queried|
    {
      lookup.IncompleteHasCandidate();
      ghost var queried, learned := lookup.queried, lookup.Learned();
      var candidates := lookup.NextCandidates();
      if candidates == [] {
        break;
      }
      var found := RepliesOf(candidates, replies);
      MoreAsked(queried, candidates);
      lookup.AddResults(found);
      RunningStep(learned, queried, candidates, found, initial, replies);
      rounds := rounds + 1;
    }
    RunningEnd(lookup.Learned(), lookup.queried, initial, replies);
    r := lookup.Closest();
  }

  lemma RunningStart(initial: seq<Contact>, replies: NodeId -> seq<Contact>)
    ensures Running({} + Ids(initial), {}, initial, replies)
  {
    hide Ids;
  }

  lemma RunningStep(
      learned: set<NodeId>, queried: set<NodeId>, asked: seq<Contact>, found: seq<Contact>, initial: seq<Contact>,
      replies: NodeId -> seq<Contact>)
    requires Running(learned, queried, initial, replies) && Ids(asked) <= learned && Answers(asked, found, replies)
    ensures Running(learned + Ids(found), queried + Ids(asked), initial, replies)
  {
    StillClosed(learned, queried, asked, found, replies);
    hide Ids, Closed;
    forall world | Within(world, initial, replies)
      ensures learned + Ids(found) <= world
    {
      forall id | id in Ids(found)
        ensures id in world
      {
        var c :| c in asked && id in Ids(replies(c.id));
        IdOf(asked, c);
      }
    }
  }

  lemma IdOf(s: seq<Contact>, c: Contact)
    requires c in s
    ensures c.id in Ids(s)
  {
  }

  lemma RunningEnd(
      learned: set<NodeId>, queried: set<NodeId>, initial: seq<Contact>, replies: NodeId -> seq<Contact>)
    requires Running(learned, queried, initial, replies)
    ensures Ids(initial) <= learned && Closed(learned, queried, replies)
    ensures forall world :: Within(world, initial, replies) ==> |queried| <= |world|
  {
    hide Ids;
    forall world | Within(world, initial, replies)
      ensures |queried| <= |world|
    {
      FewerIds(queried, world);
    }
  }

  lemma FewerIds(a: set<NodeId>, b: set<NodeId>)
    requires a <= b
    ensures |a| <= |b|
  {
    assert b == a + (b - a);
  }

  /** All that the asked peers answered was found, and nothing else. */
  ghost predicate Answers(asked: seq<Contact>, found: seq<Contact>, replies: NodeId -> seq<Contact>) {
    && (forall c :: c in asked ==> Ids(replies(c.id)) <= Ids(found))
    && forall id :: id in Ids(found) ==> exists c :: c in asked && id in Ids(replies(c.id))
  }

  method RepliesOf(candidates: seq<Contact>, replies: NodeId -> seq<Contact>) returns (found: seq<Contact>)
    ensures Answers(candidates, found, replies)
  {
    hide Ids, Answers;
    found := [];
    NothingAnswered(replies);
    for i := 0 to |candidates|
      invariant Answers(candidates[..i], found, replies)
    {
      OneMoreAnswers(candidates[..i], candidates[i], found, replies);
      found := found + replies(candidates[i].id);
      assert candidates[..i + 1] == candidates[..i] + [candidates[i]];
    }
    assert candidates[..|candidates|] == candidates;
  }

  lemma NothingAnswered(replies: NodeId -> seq<Contact>)
    ensures Answers([], [], replies)
  {
  }

  lemma OneMoreAnswers(asked: seq<Contact>, c: Contact, found: seq<Contact>, replies: NodeId -> seq<Contact>)
    requires Answers(asked, found, replies)
    ensures Answers(asked + [c], found + replies(c.id), replies)
  {
    IdsAppend(found, replies(c.id));
    hide Ids;
    assert forall x :: x in asked + [c] <==> x in asked || x == c;
    forall id | id in Ids(found + replies(c.id))
      ensures exists x :: x in asked + [c] && id in Ids(replies(x.id))
    {
      if id in Ids(found) {
        var x :| x in asked && id in Ids(replies(x.id));
        assert x in asked + [c];
      } else {
        assert c in asked + [c];
      }
    }
  }

  lemma IdsAppend(a: seq<Contact>, b: seq<Contact>)
    ensures Ids(a + b) == Ids(a) + Ids(b)
  {
  }

  lemma MoreAsked(queried: set<NodeId>, candidates: seq<Contact>)
    requires candidates != [] && Ids(candidates) !! queried
    ensures |queried + Ids(candidates)| >= |queried| + 1
  {
    assert candidates[0].id in Ids(candidates);
    assert |queried + Ids(candidates)| == |queried| + |Ids(candidates)|;
  }

  lemma StillClosed(
      learned: set<NodeId>, queried: set<NodeId>, candidates: seq<Contact>, found: seq<Contact>,
      replies: NodeId -> seq<Contact>)
    requires Closed(learned, queried, replies) && Ids(candidates) <= learned && Answers(candidates, found, replies)
    ensures Closed(learned + Ids(found), queried + Ids(candidates), replies)
  {
    forall q | q in queried + Ids(candidates)
      ensures Ids(replies(q)) <= learned + Ids(found)
    {
      if q !in queried {
        var c :| c in candidates && c.id == q;
      }
    }
  }

  /** A complete lookup has converged: every peer its answer names was asked, and none of
      them knows a peer nearer than the answer. */
  lemma Converged(lookup: NodeLookup, replies: NodeId -> seq<Contact>, y: NodeId, c: Contact)
    requires lookup.Valid() && 0 < lookup.k && lookup.IsComplete()
    requires Closed(lookup.Learned(), lookup.queried, replies)
    requires y in Ids(lookup.Closest()) && c in replies(y)
    ensures y in lookup.queried
    ensures c.id in Ids(lookup.Closest()) ||
      forall z :: z in Ids(lookup.Closest()) ==> Less(Distance(z, lookup.target), Distance(c.id, lookup.target))
  {
    hide Less, Distance;
    lookup.ClosestIsNearest();
    assert y in lookup.queried && c.id in Ids(replies(y));
  }
}
