/** The stored form byte by byte: where every field of a block stands, in which byte order,
    and what the header of a snapshot says. */
module CodecLaws {
  import opened BlockCodec
  import opened BlockGraph
  import opened Blocks
  import opened ByteOrder
  import opened Snapshot
  import opened SortedIds
  import opened Words
  import opened Wrappers

  // ------------------------------------------------------------------- where bytes are

  ghost predicate PartAt(s: Bytes, at: nat, part: Bytes) {
    at + |part| <= |s| && s[at..at + |part|] == part
  }

  /** `n` in `len` bytes from `at`, the least significant first. */
  ghost predicate LEAt(s: Bytes, at: nat, len: nat, n: nat) {
    at + len <= |s| && forall i :: 0 <= i < len ==> s[at + i] as nat == Digit(n, i)
  }

  /** `n` in `len` bytes from `at`, the most significant first. */
  ghost predicate BEAt(s: Bytes, at: nat, len: nat, n: nat) {
    at + len <= |s| && forall i :: 0 <= i < len ==> s[at + (len - 1 - i)] as nat == Digit(n, i)
  }

  lemma PartIsLE(s: Bytes, at: nat, len: nat, n: nat)
    requires PartAt(s, at, ToLE(n, len))
    ensures LEAt(s, at, len, n)
  {
    forall i | 0 <= i < len
      ensures s[at + i] as nat == Digit(n, i)
    {
      LEDigit(n, len, i);
      assert s[at..at + len][i] == s[at + i];
    }
  }

  lemma PartIsBE(s: Bytes, at: nat, len: nat, n: nat)
    requires PartAt(s, at, ToBE(n, len))
    ensures BEAt(s, at, len, n)
  {
    forall i | 0 <= i < len
      ensures s[at + (len - 1 - i)] as nat == Digit(n, i)
    {
      BEDigit(n, len, i);
      assert s[at..at + len][len - 1 - i] == s[at + (len - 1 - i)];
    }
  }

  /** A part stands where what goes before it ends. */
  lemma MiddlePart(front: Bytes, part: Bytes, rest: Bytes)
    ensures PartAt(front + (part + rest), |front|, part) && front + (part + rest) == front + part + rest
  {
    assert (front + (part + rest))[|front|..|front| + |part|] == part;
  }

  lemma FirstPart(part: Bytes, rest: Bytes)
    ensures PartAt(part + rest, 0, part)
  {
    assert (part + rest)[0..|part|] == part;
  }

  /** Parts move along when something is put in front. */
  lemma LaterPart(front: Bytes, s: Bytes, at: nat, part: Bytes)
    requires PartAt(s, at, part)
    ensures PartAt(front + s, |front| + at, part)
  {
    assert (front + s)[|front| + at..|front| + at + |part|] == s[at..at + |part|];
  }

  lemma PartOfPart(s: Bytes, at: nat, whole: Bytes, inner: nat, part: Bytes)
    requires PartAt(s, at, whole) && PartAt(whole, inner, part)
    ensures PartAt(s, at + inner, part)
  {
    forall i | 0 <= i < |part|
      ensures s[at + inner..at + inner + |part|][i] == part[i]
    {
      assert s[at..at + |whole|][inner + i] == whole[inner + i] && whole[inner..inner + |part|][i] == part[i];
    }
  }

  // --------------------------------------------------------------------- one block

  /** A flag byte, 1 when there is something; what there is comes after it. The writer has
      0 for nothing, the reader takes any other byte for it. */
  ghost predicate OptionAt(s: Bytes, at: nat, o: Option<Bytes>, written: bool) {
    && at < |s| && (s[at] == 1 <==> o.Some?) && (written ==> s[at] <= 1)
    && (o.Some? ==> PartAt(s, at + 1, o.value))
  }

  ghost function OptionSize(o: Option<Bytes>): nat {
    1 + if o.Some? then |o.value| else 0
  }

  /** The key; with one, the proof and the output. */
  ghost predicate VrfAt(s: Bytes, at: nat, vrf: Vrf, written: bool) {
    && OptionAt(s, at, vrf.key, written)
    && (vrf.key.Some? ==>
      && OptionAt(s, at + OptionSize(vrf.key), vrf.proof, written)
      && OptionAt(s, at + OptionSize(vrf.key) + OptionSize(vrf.proof), vrf.output, written))
  }

  ghost function VrfSize(vrf: Vrf): nat {
    if vrf.key.None? then 1 else OptionSize(vrf.key) + OptionSize(vrf.proof) + OptionSize(vrf.output)
  }

  ghost predicate ParentsAt(s: Bytes, at: nat, parents: seq<BlockId>) {
    forall i :: 0 <= i < |parents| ==> BEAt(s, at + 32 * i, 32, parents[i] as nat)
  }

  ghost predicate NumbersAt(s: Bytes, at: nat, n: Numbers) {
    LEAt(s, at, 16, n.work as nat) && LEAt(s, at + 16, 8, n.timestampMs as nat) && LEAt(s, at + 24, 8, n.nonce as nat)
  }

  /** The id; how many parents, and each; work, time and nonce; the VRF fields; and the
      payload after its length. */
  ghost predicate LaidOut(s: Bytes, id: BlockId, f: Fields, written: bool) {
    var n := 40 + 32 * |f.parents|;
    var end := n + 32 + VrfSize(f.vrf);
    && BEAt(s, 0, 32, id as nat) && LEAt(s, 32, 8, |f.parents|) && ParentsAt(s, 40, f.parents)
    && NumbersAt(s, n, f.numbers) && VrfAt(s, n + 32, f.vrf, written)
    && LEAt(s, end, 8, |f.payload|) && PartAt(s, end + 8, f.payload)
  }

  /** All that is stored of a block. */
  ghost function AllFields(b: Block): Fields {
    Fields(
      b.parents, Numbers(b.work, b.timestampMs, b.nonce), Vrf(b.vrfPublicKey, b.vrfProof, b.vrfOutput),
      if b.payload.Some? then b.payload.value else [])
  }

  ghost function LaidOutSize(f: Fields): nat {
    40 + 32 * |f.parents| + 32 + VrfSize(f.vrf) + 8 + |f.payload|
  }

  lemma {:induction false} IdsLaidOut(ids: seq<BlockId>, i: nat)
    requires i < |ids|
    ensures PartAt(IdsBytes(ids), 32 * i, IdBytes(ids[i]))
  {
    hide IdBytes;
    if i == 0 {
      FirstPart(IdBytes(ids[0]), IdsBytes(ids[1..]));
    } else {
      IdsLaidOut(ids[1..], i - 1);
      LaterPart(IdBytes(ids[0]), IdsBytes(ids[1..]), 32 * (i - 1), IdBytes(ids[i]));
    }
  }

  lemma OptionLaidOut(s: Bytes, at: nat, o: Option<Bytes>)
    requires PartAt(s, at, OptionBytes(o))
    ensures OptionAt(s, at, o, true) && |OptionBytes(o)| == OptionSize(o)
  {
    var part := OptionBytes(o);
    assert s[at] == s[at..at + |part|][0];
    if o.Some? {
      assert part[1..] == o.value;
      assert s[at + 1..at + 1 + |o.value|] == s[at..at + |part|][1..];
    }
  }

  lemma VrfParts(vrf: Vrf, key: Bytes, proof: Bytes, output: Bytes)
    requires vrf.key.Some? && key == OptionBytes(vrf.key)
    requires proof == OptionBytes(vrf.proof) && output == OptionBytes(vrf.output)
    ensures var s := VrfBytes(vrf);
      && PartAt(s, 0, key) && PartAt(s, |key|, proof) && PartAt(s, |key| + |proof|, output)
      && |s| == |key| + |proof| + |output|
  {
    hide PartAt, OptionBytes;
    var s := VrfBytes(vrf);
    assert s == key + (proof + output) by {
      KeyOption(vrf, proof + output);
    }
    FirstPart(key, proof + output);
    MiddlePart(key, proof, output);
    MiddlePart(key + proof, output, []);
    assert output + [] == output;
  }

  lemma KeyOption(vrf: Vrf, rest: Bytes)
    requires vrf.key.Some?
    ensures [1] + (vrf.key.value + rest) == OptionBytes(vrf.key) + rest
  {
  }

  lemma NoKeyLaidOut(s: Bytes, at: nat, vrf: Vrf)
    requires PartAt(s, at, VrfBytes(vrf)) && vrf.key.None?
    ensures VrfAt(s, at, vrf, true) && |VrfBytes(vrf)| == VrfSize(vrf)
  {
    assert VrfBytes(vrf) == OptionBytes(None);
    OptionLaidOut(s, at, None);
  }

  lemma VrfLaidOut(s: Bytes, at: nat, vrf: Vrf)
    requires PartAt(s, at, VrfBytes(vrf))
    ensures VrfAt(s, at, vrf, true) && |VrfBytes(vrf)| == VrfSize(vrf)
  {
    hide PartAt, OptionAt, OptionSize, OptionBytes, VrfBytes;
    if vrf.key.Some? {
      var key, proof, output := OptionBytes(vrf.key), OptionBytes(vrf.proof), OptionBytes(vrf.output);
      VrfParts(vrf, key, proof, output);
      PartOfPart(s, at, VrfBytes(vrf), 0, key);
      PartOfPart(s, at, VrfBytes(vrf), |key|, proof);
      PartOfPart(s, at, VrfBytes(vrf), |key| + |proof|, output);
      OptionLaidOut(s, at, vrf.key);
      OptionLaidOut(s, at + |key|, vrf.proof);
      OptionLaidOut(s, at + |key| + |proof|, vrf.output);
    } else {
      NoKeyLaidOut(s, at, vrf);
    }
  }

  /** Six parts one after the other. */
  lemma PartsInRow(a: Bytes, b: Bytes, c: Bytes, d: Bytes, e: Bytes, f: Bytes)
    ensures var s := a + (b + (c + (d + (e + f))));
      && PartAt(s, 0, a) && PartAt(s, |a|, b) && PartAt(s, |a| + |b|, c) && PartAt(s, |a| + |b| + |c|, d)
      && PartAt(s, |a| + |b| + |c| + |d|, e) && PartAt(s, |a| + |b| + |c| + |d| + |e|, f)
      && |s| == |a| + |b| + |c| + |d| + |e| + |f|
  {
    hide PartAt;
    FirstPart(a, b + (c + (d + (e + f))));
    MiddlePart(a, b, c + (d + (e + f)));
    MiddlePart(a + b, c, d + (e + f));
    MiddlePart(a + b + c, d, e + f);
    MiddlePart(a + b + c + d, e, f);
    MiddlePart(a + b + c + d + e, f, []);
    assert f + [] == f;
  }

  lemma NumbersLaidOut(s: Bytes, at: nat, b: Block)
    requires PartAt(s, at, NumberBytes(b))
    ensures NumbersAt(s, at, Numbers(b.work, b.timestampMs, b.nonce))
  {
    hide PartAt, ToLE, LEAt;
    var work, time, nonce := ToLE(b.work as nat, 16), ToLE(b.timestampMs as nat, 8), ToLE(b.nonce as nat, 8);
    FirstPart(work, time + nonce);
    FirstPart(time, nonce);
    FirstPart(nonce, []);
    assert nonce + [] == nonce;
    LaterPart(time, nonce, 0, nonce);
    LaterPart(work, time + nonce, 0, time);
    LaterPart(work, time + nonce, 8, nonce);
    PartOfPart(s, at, NumberBytes(b), 0, work);
    PartOfPart(s, at, NumberBytes(b), 16, time);
    PartOfPart(s, at, NumberBytes(b), 24, nonce);
    PartIsLE(s, at, 16, b.work as nat);
    PartIsLE(s, at + 16, 8, b.timestampMs as nat);
    PartIsLE(s, at + 24, 8, b.nonce as nat);
  }

  lemma PayloadLaidOut(s: Bytes, at: nat, b: Block)
    requires PartAt(s, at, PayloadBytes(b))
    ensures LEAt(s, at, 8, |PayloadOf(b)|) && PartAt(s, at + 8, PayloadOf(b)) && |PayloadBytes(b)| == 8 + |PayloadOf(b)|
  {
    hide PartAt, ToLE, LEAt, PayloadOf;
    var len, payload := ToLE(|PayloadOf(b)|, 8), PayloadOf(b);
    FirstPart(len, payload);
    FirstPart(payload, []);
    assert payload + [] == payload;
    LaterPart(len, payload, 0, payload);
    PartOfPart(s, at, PayloadBytes(b), 0, len);
    PartOfPart(s, at, PayloadBytes(b), 8, payload);
    PartIsLE(s, at, 8, |payload|);
  }

  lemma ParentsLaidOut(s: Bytes, at: nat, ids: seq<BlockId>)
    requires PartAt(s, at, IdsBytes(ids))
    ensures ParentsAt(s, at, ids)
  {
    hide PartAt, BEAt, IdsBytes, ToBE;
    forall i | 0 <= i < |ids|
      ensures BEAt(s, at + 32 * i, 32, ids[i] as nat)
    {
      IdsLaidOut(ids, i);
      PartOfPart(s, at, IdsBytes(ids), 32 * i, IdBytes(ids[i]));
      PartIsBE(s, at + 32 * i, 32, ids[i] as nat);
    }
  }

  /** Every field of every block is written where the layout says. */
  lemma BlockLaidOut(b: Block)
    ensures LaidOut(Encoding(b), b.id, AllFields(b), true) && |Encoding(b)| == LaidOutSize(AllFields(b))
  {
    hide PartAt, LEAt, BEAt, VrfAt, IdsBytes, NumberBytes, VrfBytes, PayloadBytes, ToLE, ToBE, VrfSize, ParentsAt, NumbersAt;
    var s := Encoding(b);
    var count, ids, numbers := ToLE(|b.parents|, 8), IdsBytes(b.parents), NumberBytes(b);
    var vrf, payload := VrfBytes(VrfOf(b)), PayloadBytes(b);
    PartsInRow(IdBytes(b.id), count, ids, numbers, vrf, payload);
    assert s == IdBytes(b.id) + (count + (ids + (numbers + (vrf + payload))));
    PartIsBE(s, 0, 32, b.id as nat);
    PartIsLE(s, 32, 8, |b.parents|);
    ParentsLaidOut(s, 40, b.parents);
    NumbersLaidOut(s, 40 + |ids|, b);
    VrfLaidOut(s, 72 + |ids|, VrfOf(b));
    PayloadLaidOut(s, 72 + |ids| + |vrf|, b);
  }

  // ----------------------------------------------------------------- what is read

  lemma TakeAt(s: Bytes, at: nat, n: nat)
    requires at <= |s|
    ensures Take(s[at..], n) == if at + n <= |s| then Ok(Parsed(s[at..at + n], s[at + n..])) else Err(UnexpectedEof)
    ensures at + n <= |s| ==> PartAt(s, at, s[at..at + n])
  {
    if at + n <= |s| {
      assert s[at..][..n] == s[at..at + n] && s[at..][n..] == s[at + n..];
    }
  }

  lemma WordAt(s: Bytes, at: nat, len: nat)
    requires at + len <= |s|
    ensures LEAt(s, at, len, FromLE(s[at..at + len]))
  {
    LEWhole(s[at..at + len]);
    hide ToLE, FromLE;
    PartIsLE(s, at, len, FromLE(s[at..at + len]));
  }

  lemma CountAt(s: Bytes, at: nat, elementBytes: nat)
    requires at <= |s| && 0 < elementBytes && TakeCount(s[at..], elementBytes).Ok?
    ensures var p := TakeCount(s[at..], elementBytes).value;
      at + 8 <= |s| && LEAt(s, at, 8, p.value) && p.rest == s[at + 8..]
  {
    hide FromLE, LEAt;
    TakeAt(s, at, 8);
    WordAt(s, at, 8);
  }

  lemma IdAt(s: Bytes, at: nat)
    requires at <= |s| && TakeId(s[at..]).Ok?
    ensures var p := TakeId(s[at..]).value; at + 32 <= |s| && BEAt(s, at, 32, p.value as nat) && p.rest == s[at + 32..]
  {
    TakeAt(s, at, 32);
    BEWhole(s[at..at + 32]);
    hide FromBE, ToBE, BEAt;
    PartIsBE(s, at, 32, FromBE(s[at..at + 32]));
  }

  lemma {:induction false} IdsAt(s: Bytes, at: nat, n: nat)
    requires at <= |s| && TakeIds(s[at..], n).Ok?
    ensures var p := TakeIds(s[at..], n).value;
      |p.value| == n && at + 32 * n <= |s| && ParentsAt(s, at, p.value) && p.rest == s[at + 32 * n..]
    decreases n
  {
    hide TakeId, BEAt;
    if n > 0 {
      IdAt(s, at);
      IdsAt(s, at + 32, n - 1);
      var p := TakeIds(s[at..], n).value;
      var others := TakeIds(s[at + 32..], n - 1).value;
      forall i | 0 <= i < n
        ensures BEAt(s, at + 32 * i, 32, p.value[i] as nat)
      {
        if i > 0 {
          assert p.value[i] == others.value[i - 1];
          assert BEAt(s, at + 32 + 32 * (i - 1), 32, others.value[i - 1] as nat);
        }
      }
    }
  }

  lemma NumbersReadAt(s: Bytes, at: nat)
    requires at <= |s| && TakeNumbers(s[at..]).Ok?
    ensures var p := TakeNumbers(s[at..]).value;
      at + 32 <= |s| && NumbersAt(s, at, p.value) && p.rest == s[at + 32..]
  {
    hide FromLE, LEAt, Pow256;
    TakeAt(s, at, 16);
    TakeAt(s, at + 16, 8);
    TakeAt(s, at + 24, 8);
    WordAt(s, at, 16);
    WordAt(s, at + 16, 8);
    WordAt(s, at + 24, 8);
  }

  lemma OptionReadAt(s: Bytes, at: nat, n: nat)
    requires at <= |s| && TakeOption(s[at..], n).Ok?
    ensures var p := TakeOption(s[at..], n).value;
      && OptionAt(s, at, p.value, false) && at + OptionSize(p.value) <= |s| && p.rest == s[at + OptionSize(p.value)..]
      && (p.value.Some? ==> |p.value.value| == n)
  {
    TakeAt(s, at, 1);
    if s[at] == 1 {
      TakeAt(s, at + 1, n);
    }
  }

  lemma VrfReadAt(c: Crypto, s: Bytes, at: nat)
    requires at <= |s| && TakeVrf(c, s[at..]).Ok?
    ensures var p := TakeVrf(c, s[at..]).value;
      && VrfAt(s, at, p.value, false) && at + VrfSize(p.value) <= |s| && p.rest == s[at + VrfSize(p.value)..]
  {
    hide TakeOption, OptionAt;
    OptionReadAt(s, at, KEY_BYTES);
    var key := TakeOption(s[at..], KEY_BYTES).value;
    if key.value.Some? {
      OptionReadAt(s, at + OptionSize(key.value), PROOF_BYTES);
      var proof := TakeOption(key.rest, PROOF_BYTES).value;
      OptionReadAt(s, at + OptionSize(key.value) + OptionSize(proof.value), OUTPUT_BYTES);
    }
  }

  /** A block is read only from bytes that hold its fields where the writer puts them. */
  lemma BlockReadAt(c: Crypto, s: Bytes) returns (f: Fields)
    requires TakeBlock(c, s).Ok?
    ensures var p := TakeBlock(c, s).value;
      && LaidOutSize(f) <= |s| && p.rest == s[LaidOutSize(f)..]
      && LaidOut(s, p.value.id, f, false) && Assembled(c, p.value.id, f) == Ok(p.value)
  {
    hide PartAt, LEAt, BEAt, VrfAt, ParentsAt, NumbersAt, VrfSize;
    hide Take, TakeId, TakeIds, TakeNumbers, TakeVrf, TakeCount;
    assert s[0..] == s;
    IdAt(s, 0);
    CountAt(s, 32, 32);
    var count := TakeCount(s[32..], 32).value;
    IdsAt(s, 40, count.value);
    var n := 40 + 32 * count.value;
    NumbersReadAt(s, n);
    VrfReadAt(c, s, n + 32);
    var end := n + 32 + VrfSize(TakeVrf(c, s[n + 32..]).value.value);
    CountAt(s, end, 1);
    var len := TakeCount(s[end..], 1).value;
    TakeAt(s, end + 8, len.value);
    f := TakeFields(c, s[32..]).value.value;
    AssembledId(c, TakeId(s).value.value, f);
  }

  lemma AssembledId(c: Crypto, id: BlockId, f: Fields)
    ensures Assembled(c, id, f).Ok? ==> Assembled(c, id, f).value.id == id
  {
  }

  /** What the writer could have put there, of a key and a proof the curve accepts. */
  ghost predicate Readable(c: Crypto, f: Fields) {
    && |f.parents| <= U64_MAX as nat && |f.payload| <= U64_MAX as nat && TypedVrf(c, f.vrf) && Written(f.vrf) == f.vrf
  }

  lemma LEIsPart(s: Bytes, at: nat, len: nat, n: nat)
    requires LEAt(s, at, len, n) && n < Pow256(len)
    ensures at + len <= |s| && s[at..at + len] == ToLE(n, len) && FromLE(s[at..at + len]) == n
  {
    forall i | 0 <= i < len
      ensures s[at..at + len][i] == ToLE(n, len)[i]
    {
      LEDigit(n, len, i);
    }
    LERoundTrip(n, len);
  }

  lemma BEIsPart(s: Bytes, at: nat, len: nat, n: nat)
    requires BEAt(s, at, len, n) && n < Pow256(len)
    ensures at + len <= |s| && s[at..at + len] == ToBE(n, len) && FromBE(s[at..at + len]) == n
  {
    forall j | 0 <= j < len
      ensures s[at..at + len][j] == ToBE(n, len)[j]
    {
      var i := len - 1 - j;
      BEDigit(n, len, i);
      assert s[at + (len - 1 - i)] as nat == Digit(n, i);
    }
    BERoundTrip(n, len);
  }

  lemma CountReads(s: Bytes, at: nat, n: nat, elementBytes: nat)
    requires LEAt(s, at, 8, n) && 0 < elementBytes && n <= U64_MAX as nat && at + 8 + n * elementBytes <= |s|
    ensures TakeCount(s[at..], elementBytes) == Ok(Parsed(n, s[at + 8..]))
  {
    hide FromLE, LEAt, ToLE;
    WordWidths();
    LEIsPart(s, at, 8, n);
    TakeAt(s, at, 8);
    FitsByDivision(n, elementBytes, |s[at + 8..]|);
  }

  lemma IdReads(s: Bytes, at: nat, id: BlockId)
    requires BEAt(s, at, 32, id as nat)
    ensures TakeId(s[at..]) == Ok(Parsed(id, s[at + 32..]))
  {
    hide FromBE, BEAt, ToBE, Pow256;
    IdWidth();
    BEIsPart(s, at, 32, id as nat);
    TakeAt(s, at, 32);
  }

  lemma {:induction false} IdsRead(s: Bytes, at: nat, ids: seq<BlockId>)
    requires ParentsAt(s, at, ids) && at + 32 * |ids| <= |s|
    ensures TakeIds(s[at..], |ids|) == Ok(Parsed(ids, s[at + 32 * |ids|..]))
    decreases |ids|
  {
    hide TakeId, BEAt;
    if ids != [] {
      assert BEAt(s, at + 32 * 0, 32, ids[0] as nat);
      IdReads(s, at, ids[0]);
      forall i | 0 <= i < |ids| - 1
        ensures BEAt(s, at + 32 + 32 * i, 32, ids[1..][i] as nat)
      {
        assert BEAt(s, at + 32 * (i + 1), 32, ids[i + 1] as nat);
      }
      IdsRead(s, at + 32, ids[1..]);
      assert ids == [ids[0]] + ids[1..];
    }
  }

  lemma NumbersRead(s: Bytes, at: nat, n: Numbers)
    requires NumbersAt(s, at, n) && at + 32 <= |s|
    ensures TakeNumbers(s[at..]) == Ok(Parsed(n, s[at + 32..]))
  {
    hide FromLE, LEAt, Pow256, ToLE;
    WordWidths();
    LEIsPart(s, at, 16, n.work as nat);
    LEIsPart(s, at + 16, 8, n.timestampMs as nat);
    LEIsPart(s, at + 24, 8, n.nonce as nat);
    TakeAt(s, at, 16);
    TakeAt(s, at + 16, 8);
    TakeAt(s, at + 24, 8);
  }

  lemma OptionReads(s: Bytes, at: nat, o: Option<Bytes>, n: nat)
    requires OptionAt(s, at, o, false) && (o.Some? ==> |o.value| == n)
    ensures at + OptionSize(o) <= |s| && TakeOption(s[at..], n) == Ok(Parsed(o, s[at + OptionSize(o)..]))
  {
    TakeAt(s, at, 1);
    if o.Some? {
      TakeAt(s, at + 1, n);
    }
  }

  lemma VrfReads(c: Crypto, s: Bytes, at: nat, vrf: Vrf)
    requires VrfAt(s, at, vrf, false) && TypedVrf(c, vrf) && Written(vrf) == vrf
    ensures at + VrfSize(vrf) <= |s| && TakeVrf(c, s[at..]) == Ok(Parsed(vrf, s[at + VrfSize(vrf)..]))
  {
    hide TakeOption, OptionAt;
    OptionReads(s, at, vrf.key, KEY_BYTES);
    if vrf.key.Some? {
      OptionReads(s, at + OptionSize(vrf.key), vrf.proof, PROOF_BYTES);
      OptionReads(s, at + OptionSize(vrf.key) + OptionSize(vrf.proof), vrf.output, OUTPUT_BYTES);
    }
  }

  /** And from any bytes that do, the flags for nothing being whatever they like. */
  lemma BlockReads(c: Crypto, s: Bytes, id: BlockId, f: Fields)
    requires LaidOut(s, id, f, false) && Readable(c, f) && LaidOutSize(f) <= |s|
    ensures TakeBlock(c, s) ==
      match Assembled(c, id, f)
      case Err(e) => Err(e)
      case Ok(b) => Ok(Parsed(b, s[LaidOutSize(f)..]))
  {
    hide PartAt, LEAt, BEAt, VrfAt, ParentsAt, NumbersAt, VrfSize, TypedVrf, Written;
    hide Take, TakeId, TakeIds, TakeNumbers, TakeVrf, TakeCount, Assembled;
    assert s[0..] == s;
    var n := 40 + 32 * |f.parents|;
    var end := n + 32 + VrfSize(f.vrf);
    IdReads(s, 0, id);
    CountReads(s, 32, |f.parents|, 32);
    IdsRead(s, 40, f.parents);
    NumbersRead(s, n, f.numbers);
    VrfReads(c, s, n + 32, f.vrf);
    CountReads(s, end, |f.payload|, 1);
    PayloadReads(s, end + 8, f.payload);
  }

  lemma PayloadReads(s: Bytes, at: nat, payload: Bytes)
    requires PartAt(s, at, payload)
    ensures Take(s[at..], |payload|) == Ok(Parsed(payload, s[at + |payload|..]))
  {
    TakeAt(s, at, |payload|);
  }

  /** Reading fails on the fields only for want of bytes, or for a point the curve refuses. */
  lemma FieldsFailAlike(c: Crypto, s: Bytes)
    ensures TakeFields(c, s).Err? ==> TakeFields(c, s).error == UnexpectedEof
  {
    hide FromLE;
    var count := TakeCount(s, 32);
    if count.Ok? {
      IdsFailAlike(count.value.rest, count.value.value);
    }
  }

  lemma {:induction false} IdsFailAlike(s: Bytes, n: nat)
    ensures TakeIds(s, n).Err? ==> TakeIds(s, n).error == UnexpectedEof
    decreases n
  {
    hide FromBE;
    if n > 0 {
      var first := TakeId(s);
      if first.Ok? {
        IdsFailAlike(first.value.rest, n - 1);
      }
    }
  }

  /** What the fields come to: canonical parents, the other fields as they are, and the
      payload, when there is any, only under the id that all of it hashes to. */
  ghost predicate AssemblesTo(c: Crypto, id: BlockId, f: Fields, r: Result<Block, SnapshotError>) {
    var bare := Block(
      id, Canonical(f.parents), f.numbers.work, f.numbers.timestampMs, f.numbers.nonce, f.vrf.key, f.vrf.proof,
      f.vrf.output, None);
    if f.payload == [] then r == Ok(bare)
    else if f.vrf.key.Some? && !(f.vrf.proof.Some? && f.vrf.output.Some?) then r == Err(Panicked)
    else
      var full := bare.(payload := Some(f.payload));
      r == if c.hash(Preimage(full)) == id then Ok(full) else Err(TrailingBytes)
  }

  lemma AssembledIs(c: Crypto, id: BlockId, f: Fields)
    ensures AssemblesTo(c, id, f, Assembled(c, id, f))
  {
  }

  /** What reading one block answers. */
  lemma BlockAnswers(c: Crypto, s: Bytes)
    ensures if TakeId(s).Err? || TakeFields(c, TakeId(s).value.rest).Err? then TakeBlock(c, s) == Err(UnexpectedEof)
      else
        var id := TakeId(s).value; var p := TakeFields(c, id.rest).value;
        exists r :: AssemblesTo(c, id.value, p.value, r) && match r
          case Err(e) => TakeBlock(c, s) == Err(e)
          case Ok(b) => TakeBlock(c, s) == Ok(Parsed(b, p.rest))
  {
    hide TakeFields, FromBE, Assembled, AssemblesTo;
    if TakeId(s).Ok? {
      FieldsFailAlike(c, TakeId(s).value.rest);
      if TakeFields(c, TakeId(s).value.rest).Ok? {
        AssembledIs(c, TakeId(s).value.value, TakeFields(c, TakeId(s).value.rest).value.value);
      }
    }
  }

  // --------------------------------------------------------------------- a snapshot

  /** The bytes before the blocks: the letters KVDG in ASCII, version 6, `k`, how many blocks. */
  ghost predicate HeaderAt(s: Bytes, k: nat, count: nat) {
    && PartAt(s, 0, [0x4B, 0x56, 0x44, 0x47]) && LEAt(s, 4, 2, 6) && LEAt(s, 6, 2, k) && LEAt(s, 8, 8, count)
  }

  /** Where block `i` starts: after the header and all blocks before it. */
  ghost function StartOf(blocks: seq<Block>, i: nat): nat
    requires i <= |blocks|
  {
    if i == 0 then 16 else StartOf(blocks, i - 1) + |Encoding(blocks[i - 1])|
  }

  lemma HeaderLaidOut(k: nat, count: nat, rest: Bytes)
    ensures HeaderAt(Header(k, count) + rest, k, count) && |Header(k, count)| == 16
  {
    hide PartAt, LEAt, ToLE;
    var version, kBytes, countBytes := ToLE(VERSION, 2), ToLE(k, 2), ToLE(count, 8);
    var s := MAGIC + (version + (kBytes + (countBytes + (rest + []))));
    assert Header(k, count) + rest == s;
    PartsInRow(MAGIC, version, kBytes, countBytes, rest, []);
    PartIsLE(s, 4, 2, 6);
    PartIsLE(s, 6, 2, k);
    PartIsLE(s, 8, 8, count);
  }

  /** The header, and then the blocks one after the other. */
  lemma SnapshotLaidOut(k: nat, blocks: seq<Block>)
    ensures HeaderAt(Framed(k, blocks), k, |blocks|) && |Framed(k, blocks)| == StartOf(blocks, |blocks|)
    ensures forall i :: 0 <= i < |blocks| ==> PartAt(Framed(k, blocks), StartOf(blocks, i), Encoding(blocks[i]))
  {
    hide Encoding, Header, PartAt, HeaderAt;
    HeaderLaidOut(k, |blocks|, EncodedAll(blocks));
    BlocksInRow(blocks);
    forall i | 0 <= i < |blocks|
      ensures PartAt(Framed(k, blocks), StartOf(blocks, i), Encoding(blocks[i]))
    {
      assert RowAt(EncodedAll(blocks), blocks, i);
      LaterPart(Header(k, |blocks|), EncodedAll(blocks), StartOf(blocks, i) - 16, Encoding(blocks[i]));
    }
  }

  lemma {:induction false} StartAfter(first: Block, rest: seq<Block>, i: nat)
    requires i <= |rest|
    ensures StartOf([first] + rest, i + 1) == |Encoding(first)| + StartOf(rest, i)
  {
    hide Encoding;
    if i > 0 {
      StartAfter(first, rest, i - 1);
    }
  }

  lemma OneBlockLater(first: Block, rest: seq<Block>, i: nat)
    requires i < |rest| && 16 <= StartOf(rest, i) && PartAt(EncodedAll(rest), StartOf(rest, i) - 16, Encoding(rest[i]))
    ensures var start := StartOf([first] + rest, i + 1);
      16 <= start && PartAt(Encoding(first) + EncodedAll(rest), start - 16, Encoding(rest[i]))
  {
    hide Encoding, PartAt, EncodedAll;
    StartAfter(first, rest, i);
    LaterPart(Encoding(first), EncodedAll(rest), StartOf(rest, i) - 16, Encoding(rest[i]));
  }

  ghost predicate RowAt(s: Bytes, blocks: seq<Block>, i: nat)
    requires i < |blocks|
  {
    16 <= StartOf(blocks, i) && PartAt(s, StartOf(blocks, i) - 16, Encoding(blocks[i]))
  }

  lemma RowLater(first: Block, rest: seq<Block>)
    requires forall i :: 0 <= i < |rest| ==> RowAt(EncodedAll(rest), rest, i)
    ensures forall i :: 0 <= i < |rest| + 1 ==> RowAt(Encoding(first) + EncodedAll(rest), [first] + rest, i)
  {
    hide Encoding, PartAt, EncodedAll;
    forall i | 0 <= i < |rest| + 1
      ensures RowAt(Encoding(first) + EncodedAll(rest), [first] + rest, i)
    {
      if i == 0 {
        FirstPart(Encoding(first), EncodedAll(rest));
      } else {
        assert RowAt(EncodedAll(rest), rest, i - 1);
        OneBlockLater(first, rest, i - 1);
      }
    }
  }

  lemma {:induction false} BlocksInRow(blocks: seq<Block>)
    ensures |EncodedAll(blocks)| + 16 == StartOf(blocks, |blocks|)
    ensures forall i :: 0 <= i < |blocks| ==> RowAt(EncodedAll(blocks), blocks, i)
  {
    hide Encoding, RowAt;
    if blocks != [] {
      BlocksInRow(blocks[1..]);
      RowLater(blocks[0], blocks[1..]);
      StartAfter(blocks[0], blocks[1..], |blocks| - 1);
      assert blocks == [blocks[0]] + blocks[1..];
    }
  }

  /** What reading a snapshot yields, going by its bytes. */
  ghost predicate Reads(c: Crypto, s: Bytes, r: Result<Log, SnapshotError>) {
    if |s| < 4 then r == Err(UnexpectedEof)
    else if s[..4] != [0x4B, 0x56, 0x44, 0x47] then r == Err(BadMagic)
    else if |s| < 6 then r == Err(UnexpectedEof)
    else
      var version := s[4] as nat + 256 * s[5] as nat;
      if version > 6 then r == Err(UnsupportedVersion(version))
      else if version < 6 then r == Err(NotModelled)
      else if |s| < 16 then r == Err(UnexpectedEof)
      else exists count :: LEAt(s, 8, 8, count) && ReadsBlocks(c, s, count, r)
  }

  /** So many blocks, of at least 80 bytes each, and nothing after them. */
  ghost predicate ReadsBlocks(c: Crypto, s: Bytes, count: nat, r: Result<Log, SnapshotError>)
    requires 16 <= |s|
  {
    if 80 * count > |s| - 16 then r == Err(UnexpectedEof)
    else match TakeBlocks(c, s[16..], count)
      case Err(e) => r == Err(e)
      case Ok(p) =>
        r == if p.rest == [] then Ok(Log(s[6] as nat + 256 * s[7] as nat, p.value)) else Err(TrailingBytes)
  }

  lemma TwoBytes(s: Bytes)
    requires |s| == 2
    ensures FromLE(s) == s[0] as nat + 256 * s[1] as nat
  {
    assert s[1..][1..] == [] && FromLE([]) == 0;
  }

  lemma DecodedReads(c: Crypto, s: Bytes)
    ensures Reads(c, s, Decoded(c, s))
  {
    hide TakeBlocks, FromLE, LEAt;
    assert s[0..] == s;
    TakeAt(s, 0, 4);
    if 4 <= |s| {
      TakeAt(s, 4, 2);
      if 6 <= |s| {
        TwoBytes(s[4..6]);
        TakeAt(s, 6, 2);
        if 8 <= |s| {
          TwoBytes(s[6..8]);
          TakeAt(s, 8, 8);
          if 16 <= |s| {
            WordAt(s, 8, 8);
            DivisionDecides(FromLE(s[8..16]), |s| - 16);
          }
        }
      }
    }
  }

  lemma DivisionDecides(count: nat, size: nat)
    ensures count > size / 80 <==> 80 * count > size
  {
  }
}
