/** Peer ids and the XOR metric between them. */
module XorMetric {
  import opened Wrappers

  const ID_BYTES: nat := 32

  type NodeId = s: seq<bv8> | |s| == ID_BYTES witness seq(ID_BYTES, _ => 0)

  function Distance(a: NodeId, b: NodeId): NodeId {
    seq(ID_BYTES, i requires 0 <= i < ID_BYTES => a[i] ^ b[i])
  }

  /** Byte order: the first byte that differs decides. */
  predicate Less(a: seq<bv8>, b: seq<bv8>)
    requires |a| == |b|
  {
    a != [] && (a[0] < b[0] || (a[0] == b[0] && Less(a[1..], b[1..])))
  }

  ghost predicate SmallerAt(a: seq<bv8>, b: seq<bv8>, i: nat) {
    i < |a| && i < |b| && a[..i] == b[..i] && a[i] < b[i]
  }

  lemma SmallerLater(a: seq<bv8>, b: seq<bv8>, i: nat)
    requires a != [] && b != []
    ensures SmallerAt(a, b, i + 1) <==> a[0] == b[0] && SmallerAt(a[1..], b[1..], i)
  {
    if i + 1 < |a| && i + 1 < |b| {
      assert a[..i + 1] == [a[0]] + a[1..][..i] && b[..i + 1] == [b[0]] + b[1..][..i];
    }
  }

  /** The smaller one has the smaller byte where the two first differ. */
  lemma {:induction false} LessIff(a: seq<bv8>, b: seq<bv8>)
    requires |a| == |b|
    ensures Less(a, b) <==> exists i: nat :: SmallerAt(a, b, i)
  {
    if a != [] {
      LessIff(a[1..], b[1..]);
      forall i: nat
        ensures SmallerAt(a, b, i + 1) <==> a[0] == b[0] && SmallerAt(a[1..], b[1..], i)
      {
        SmallerLater(a, b, i);
      }
      assert SmallerAt(a, b, 0) <==> a[0] < b[0];
      hide SmallerAt;
      if Less(a, b) && a[0] == b[0] {
        var i: nat :| SmallerAt(a[1..], b[1..], i);
        assert SmallerAt(a, b, i + 1);
      }
      forall i: nat | SmallerAt(a, b, i) && i > 0
        ensures Less(a, b)
      {
        var j: nat := i - 1;
        assert SmallerAt(a, b, j + 1) && SmallerAt(a[1..], b[1..], j);
      }
    } else {
      assert forall i: nat :: !SmallerAt(a, b, i);
    }
  }

  lemma {:induction false} LessIsStrict(a: seq<bv8>, b: seq<bv8>)
    requires |a| == |b| && Less(a, b)
    ensures a != b && !Less(b, a)
  {
    if a[0] == b[0] {
      LessIsStrict(a[1..], b[1..]);
    }
  }

  lemma {:induction false} LessTransitive(a: seq<bv8>, b: seq<bv8>, c: seq<bv8>)
    requires |a| == |b| == |c| && Less(a, b) && Less(b, c)
    ensures Less(a, c)
  {
    if a[0] == b[0] == c[0] {
      LessTransitive(a[1..], b[1..], c[1..]);
    }
  }

  lemma {:induction false} LessTotal(a: seq<bv8>, b: seq<bv8>)
    requires |a| == |b|
    ensures Less(a, b) || Less(b, a) || a == b
  {
    if a != [] && a[0] == b[0] {
      LessTotal(a[1..], b[1..]);
      assert a == [a[0]] + a[1..] && b == [b[0]] + b[1..];
    }
  }

  lemma XorCancels(a: bv8, b: bv8, t: bv8)
    ensures a ^ t == b ^ t ==> a == b
    ensures a ^ b == b ^ a
    ensures a ^ b == 0 <==> a == b
  {
  }

  /** Distances to one target tell peers apart; the distance is symmetric. */
  lemma DistanceFacts(a: NodeId, b: NodeId, t: NodeId)
    ensures Distance(a, t) == Distance(b, t) <==> a == b
    ensures Distance(a, b) == Distance(b, a)
  {
    forall i | 0 <= i < ID_BYTES
      ensures a[i] ^ t[i] == b[i] ^ t[i] ==> a[i] == b[i]
      ensures a[i] ^ b[i] == b[i] ^ a[i]
    {
      XorCancels(a[i], b[i], t[i]);
    }
    assert Distance(a, b) == Distance(b, a);
    if Distance(a, t) == Distance(b, t) {
      forall i | 0 <= i < ID_BYTES
        ensures a[i] == b[i]
      {
        assert Distance(a, t)[i] == Distance(b, t)[i];
      }
    }
  }

  // --------------------------------------------------------------- bucket numbers

  function LeadingZeros(b: bv8): nat {
    if b >= 0x80 then 0
    else if b >= 0x40 then 1
    else if b >= 0x20 then 2
    else if b >= 0x10 then 3
    else if b >= 0x08 then 4
    else if b >= 0x04 then 5
    else if b >= 0x02 then 6
    else if b >= 0x01 then 7
    else 8
  }

  function Mask(i: nat): bv8
    requires i < 8
  {
    if i == 0 then 0x80
    else if i == 1 then 0x40
    else if i == 2 then 0x20
    else if i == 3 then 0x10
    else if i == 4 then 0x08
    else if i == 5 then 0x04
    else if i == 6 then 0x02
    else 0x01
  }

  /** Bit `j`, counted from the most significant bit of the first byte. */
  predicate Bit(s: seq<bv8>, j: nat)
    requires j < 8 * |s|
  {
    Picks(s[j / 8], Mask(j % 8))
  }

  predicate Picks(b: bv8, mask: bv8) {
    b & mask != 0
  }

  function FirstBit(s: seq<bv8>): Option<nat> {
    if s == [] then None
    else if s[0] != 0 then Some(LeadingZeros(s[0]))
    else match FirstBit(s[1..])
      case None => None
      case Some(i) => Some(i + 8)
  }

  /** The bucket of `b` in the table of `a`; none for `a` itself. */
  method BucketIndex(a: NodeId, b: NodeId) returns (r: Option<nat>)
    ensures r == FirstBit(Distance(a, b))
  {
    var dist := Distance(a, b);
    for i := 0 to ID_BYTES
      invariant FirstBit(dist) == match FirstBit(dist[i..])
        case None => None
        case Some(j) => Some(8 * i + j)
    {
      if dist[i] != 0 {
        return Some(i * 8 + LeadingZeros(dist[i]));
      }
      assert dist[i..][1..] == dist[i + 1..];
    }
    return None;
  }

  lemma ZeroBits(b: bv8, k: nat)
    requires k < 8
    ensures b & Mask(k) != 0 ==> LeadingZeros(b) <= k
    ensures LeadingZeros(b) == k ==> b & Mask(k) != 0
    ensures b == 0 ==> b & Mask(k) == 0
    ensures LeadingZeros(b) <= 8 && (LeadingZeros(b) == 8 <==> b == 0)
  {
  }

  lemma BitOfRest(s: seq<bv8>, j: nat)
    requires s != [] && 8 <= j < 8 * |s|
    ensures Bit(s, j) == Bit(s[1..], j - 8)
  {
    assert j / 8 == (j - 8) / 8 + 1 && j % 8 == (j - 8) % 8;
  }

  /** The first set bit: it is set, and none before it is. */
  lemma {:induction false} FirstBitIff(s: seq<bv8>, i: nat)
    requires i < 8 * |s|
    ensures FirstBit(s) == Some(i) <==> Bit(s, i) && forall j :: 0 <= j < i ==> !Bit(s, j)
    decreases |s|
  {
    hide LeadingZeros, Mask;
    forall j | 0 <= j < 8
      ensures Bit(s, j) ==> LeadingZeros(s[0]) <= j
      ensures LeadingZeros(s[0]) == j ==> Bit(s, j)
      ensures s[0] == 0 ==> !Bit(s, j)
    {
      assert j / 8 == 0 && j % 8 == j;
      ZeroBits(s[0], j);
    }
    ZeroBits(s[0], 0);
    if s[0] != 0 {
      assert Bit(s, LeadingZeros(s[0]));
    } else if 8 <= i {
      FirstBitIff(s[1..], i - 8);
      forall j | 8 <= j <= i
        ensures Bit(s, j) == Bit(s[1..], j - 8)
      {
        BitOfRest(s, j);
      }
      assert forall j :: 0 <= j < i - 8 ==> Bit(s[1..], j) == Bit(s, j + 8);
    }
  }

  lemma XorMask(x: bv8, y: bv8, k: nat)
    requires k < 8
    ensures Picks(x ^ y, Mask(k)) <==> Picks(x, Mask(k)) != Picks(y, Mask(k))
  {
  }

  lemma XorBit(a: NodeId, b: NodeId, j: nat)
    requires j < 8 * ID_BYTES
    ensures Bit(Distance(a, b), j) <==> Bit(a, j) != Bit(b, j)
  {
    hide Mask, Picks;
    var i, m := j / 8, j % 8;
    assert Distance(a, b)[i] == a[i] ^ b[i];
    XorMask(a[i], b[i], m);
  }

  /** The bucket number of a peer is the length of the prefix its id shares with the owner's. */
  lemma SharedPrefix(a: NodeId, b: NodeId, i: nat)
    requires i < 8 * ID_BYTES
    ensures FirstBit(Distance(a, b)) == Some(i) <==>
      Bit(a, i) != Bit(b, i) && forall j :: 0 <= j < i ==> Bit(a, j) == Bit(b, j)
  {
    hide Bit, Distance, FirstBit;
    FirstBitIff(Distance(a, b), i);
    forall j | 0 <= j <= i
      ensures Bit(Distance(a, b), j) <==> Bit(a, j) != Bit(b, j)
    {
      XorBit(a, b, j);
    }
  }

  lemma {:induction false} FirstBitNone(s: seq<bv8>)
    ensures FirstBit(s) == None <==> forall i :: 0 <= i < |s| ==> s[i] == 0
    ensures FirstBit(s).Some? ==> FirstBit(s).value < 8 * |s|
  {
    if s != [] {
      FirstBitNone(s[1..]);
      ZeroBits(s[0], 0);
      assert forall i :: 1 <= i < |s| ==> s[i] == s[1..][i - 1];
    }
  }

  lemma ByteOrder(a: bv8, b: bv8)
    requires LeadingZeros(a) < LeadingZeros(b)
    ensures b < a
  {
  }

  /** A higher bucket is closer: buckets order peers by distance. */
  lemma {:induction false} BucketsOrderDistance(x: seq<bv8>, y: seq<bv8>)
    requires |x| == |y| && FirstBit(x).Some? && FirstBit(y).Some? && FirstBit(x).value < FirstBit(y).value
    ensures Less(y, x)
  {
    hide LeadingZeros;
    ZeroBits(x[0], 0);
    ZeroBits(y[0], 0);
    if x[0] == 0 && y[0] == 0 {
      BucketsOrderDistance(x[1..], y[1..]);
    } else if y[0] == 0 {
      assert x[0] > 0;
    } else {
      ByteOrder(x[0], y[0]);
    }
  }

  /** No peer is in its own table, and every other has one of 256 buckets. */
  lemma BucketExists(a: NodeId, b: NodeId)
    ensures FirstBit(Distance(a, b)) == None <==> a == b
    ensures FirstBit(Distance(a, b)).Some? ==> FirstBit(Distance(a, b)).value < 256
  {
    FirstBitNone(Distance(a, b));
    forall i | 0 <= i < ID_BYTES
      ensures Distance(a, b)[i] == 0 <==> a[i] == b[i]
    {
      XorCancels(a[i], b[i], 0);
    }
    if forall i :: 0 <= i < ID_BYTES ==> Distance(a, b)[i] == 0 {
      assert a == b;
    }
  }
}
