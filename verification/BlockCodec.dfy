/** The stored form of a block: what is written, what is read back, and exactly which
    blocks survive the trip. Parsing is specified on the bytes still unread. */
module BlockCodec {
  import opened BlockGraph
  import opened Blocks
  import opened ByteOrder
  import opened Consensus
  import opened SortedIds
  import opened Words
  import opened Wrappers
  import Difficulty

  /** What the codec takes as given: the id hash, and which bytes are valid curve points. */
  datatype Crypto = Crypto(hash: Bytes -> BlockId, keyOk: Bytes -> bool, proofOk: Bytes -> bool)

  /** The last two stand for a failed unwrap, and for input the model does not cover. */
  datatype SnapshotError =
    | BadMagic
    | UnsupportedVersion(version: nat)
    | UnexpectedEof
    | TrailingBytes
    | Rebuild(error: DagError)
    | Panicked
    | NotModelled

  const KEY_BYTES: nat := 32
  const PROOF_BYTES: nat := 96
  const OUTPUT_BYTES: nat := 32

  // --------------------------------------------------------------------- writing

  function IdBytes(id: BlockId): (s: Bytes)
    ensures |s| == 32
  {
    ToBE(id as nat, 32)
  }

  function IdsBytes(ids: seq<BlockId>): (s: Bytes)
    ensures |s| == 32 * |ids|
  {
    if ids == [] then [] else IdBytes(ids[0]) + IdsBytes(ids[1..])
  }

  function OptionBytes(o: Option<Bytes>): Bytes {
    if o.Some? then [1] + o.value else [0]
  }

  function VrfBytes(vrf: Vrf): Bytes {
    if vrf.key.Some? then [1] + (vrf.key.value + (OptionBytes(vrf.proof) + OptionBytes(vrf.output))) else [0]
  }

  datatype Vrf = Vrf(key: Option<Bytes>, proof: Option<Bytes>, output: Option<Bytes>)

  function VrfOf(b: Block): Vrf {
    Vrf(b.vrfPublicKey, b.vrfProof, b.vrfOutput)
  }

  function PayloadOf(b: Block): Bytes {
    if b.payload.Some? then b.payload.value else []
  }

  function PayloadBytes(b: Block): Bytes {
    ToLE(|PayloadOf(b)|, 8) + PayloadOf(b)
  }

  function NumberBytes(b: Block): (s: Bytes)
    ensures |s| == 32
  {
    ToLE(b.work as nat, 16) + (ToLE(b.timestampMs as nat, 8) + ToLE(b.nonce as nat, 8))
  }

  /** What the id commits to. */
  function Preimage(b: Block): Bytes {
    ToLE(|b.parents|, 8) + (IdsBytes(b.parents) + (NumberBytes(b) + (VrfBytes(VrfOf(b)) + PayloadBytes(b))))
  }

  function Encoding(b: Block): Bytes {
    IdBytes(b.id) + Preimage(b)
  }

  // --------------------------------------------------------------------- reading

  datatype Parsed<+T> = Parsed(value: T, rest: Bytes)

  type Parse<+T> = Result<Parsed<T>, SnapshotError>

  function Take(s: Bytes, n: nat): Parse<Bytes> {
    if |s| < n then Err(UnexpectedEof) else Ok(Parsed(s[..n], s[n..]))
  }

  function TakeWord(s: Bytes, n: nat): Parse<nat> {
    var p :- Take(s, n);
    Ok(Parsed(FromLE(p.value), p.rest))
  }

  /** A length prefix, refused when that many elements could not fit. */
  function TakeCount(s: Bytes, elementBytes: nat): Parse<nat>
    requires 0 < elementBytes
  {
    var p :- TakeWord(s, 8);
    if p.value > |p.rest| / elementBytes then Err(UnexpectedEof) else Ok(p)
  }

  lemma IdWidth()
    ensures Pow256(32) == ID_SPACE
  {
    WordWidths();
    Pow256Adds(16, 16);
  }

  function TakeId(s: Bytes): Parse<BlockId> {
    var p :- Take(s, 32);
    BEBound(p.value);
    IdWidth();
    Ok(Parsed(FromBE(p.value) as BlockId, p.rest))
  }

  function TakeIds(s: Bytes, n: nat): Parse<seq<BlockId>>
    decreases n
  {
    if n == 0 then Ok(Parsed([], s))
    else
      var first :- TakeId(s);
      var others :- TakeIds(first.rest, n - 1);
      Ok(Parsed([first.value] + others.value, others.rest))
  }

  function TakeOption(s: Bytes, n: nat): Parse<Option<Bytes>> {
    var flag :- Take(s, 1);
    if flag.value[0] == 1 then
      var p :- Take(flag.rest, n);
      Ok(Parsed(Some(p.value), p.rest))
    else Ok(Parsed(None, flag.rest))
  }

  function TakeVrf(c: Crypto, s: Bytes): Parse<Vrf> {
    var key :- TakeOption(s, KEY_BYTES);
    if key.value.None? then Ok(Parsed(Vrf(None, None, None), key.rest))
    else if !c.keyOk(key.value.value) then Err(UnexpectedEof)
    else
      var proof :- TakeOption(key.rest, PROOF_BYTES);
      if proof.value.Some? && !c.proofOk(proof.value.value) then Err(UnexpectedEof)
      else
        var output :- TakeOption(proof.rest, OUTPUT_BYTES);
        Ok(Parsed(Vrf(key.value, proof.value, output.value), output.rest))
  }

  datatype Numbers = Numbers(work: u128, timestampMs: u64, nonce: u64)

  function TakeNumbers(s: Bytes): Parse<Numbers> {
    var work :- Take(s, 16);
    var time :- Take(work.rest, 8);
    var nonce :- Take(time.rest, 8);
    WordWidths();
    LEBound(work.value);
    LEBound(time.value);
    LEBound(nonce.value);
    Ok(Parsed(
      Numbers(FromLE(work.value) as u128, FromLE(time.value) as u64, FromLE(nonce.value) as u64), nonce.rest))
  }

  /** The fields of a block the id commits to. */
  datatype Fields = Fields(parents: seq<BlockId>, numbers: Numbers, vrf: Vrf, payload: Bytes)

  /** The block the decoded fields stand for. An empty payload reads as pruned, and is
      trusted to have the stored id; any other payload must hash to it. */
  function Assembled(c: Crypto, id: BlockId, f: Fields): Result<Block, SnapshotError> {
    var n := f.numbers;
    var b := Block(
      id, Canonical(f.parents), n.work, n.timestampMs, n.nonce, f.vrf.key, f.vrf.proof, f.vrf.output, None);
    if f.payload == [] then Ok(b)
    else if f.vrf.key.Some? && (f.vrf.proof.None? || f.vrf.output.None?) then Err(Panicked)
    else
      var full := b.(payload := Some(f.payload));
      if c.hash(Preimage(full)) != id then Err(TrailingBytes) else Ok(full)
  }

  function TakeFields(c: Crypto, s: Bytes): Parse<Fields> {
    var count :- TakeCount(s, 32);
    var parents :- TakeIds(count.rest, count.value);
    var numbers :- TakeNumbers(parents.rest);
    var vrf :- TakeVrf(c, numbers.rest);
    var len :- TakeCount(vrf.rest, 1);
    var payload :- Take(len.rest, len.value);
    Ok(Parsed(Fields(parents.value, numbers.value, vrf.value, payload.value), payload.rest))
  }

  function TakeBody(c: Crypto, id: BlockId, s: Bytes): Parse<Block> {
    var f :- TakeFields(c, s);
    var b :- Assembled(c, id, f.value);
    Ok(Parsed(b, f.rest))
  }

  function TakeBlock(c: Crypto, s: Bytes): Parse<Block> {
    var id :- TakeId(s);
    TakeBody(c, id.value, id.rest)
  }

  // ------------------------------------------------------------------- round trips

  lemma TakeFront(a: Bytes, tail: Bytes)
    ensures Take(a + tail, |a|) == Ok(Parsed(a, tail))
  {
    assert (a + tail)[..|a|] == a && (a + tail)[|a|..] == tail;
  }

  lemma WordBack(n: nat, len: nat, tail: Bytes)
    requires n < Pow256(len)
    ensures TakeWord(ToLE(n, len) + tail, len) == Ok(Parsed(n, tail))
  {
    TakeFront(ToLE(n, len), tail);
    LERoundTrip(n, len);
  }

  lemma CountBack(n: nat, elementBytes: nat, tail: Bytes)
    requires n <= U64_MAX as nat && 0 < elementBytes && n * elementBytes <= |tail|
    ensures TakeCount(ToLE(n, 8) + tail, elementBytes) == Ok(Parsed(n, tail))
  {
    WordWidths();
    WordBack(n, 8, tail);
    FitsByDivision(n, elementBytes, |tail|);
    hide TakeWord, ToLE, Pow256;
  }

  lemma FitsByDivision(n: nat, m: nat, size: nat)
    requires 0 < m && n * m <= size
    ensures n <= size / m
  {
    var q := size / m;
    assert n * m < (q + 1) * m;
    Difficulty.LessByFactor(n, q + 1, m);
  }

  lemma IdBack(id: BlockId, tail: Bytes)
    ensures TakeId(IdBytes(id) + tail) == Ok(Parsed(id, tail))
  {
    TakeFront(IdBytes(id), tail);
    IdWidth();
    BERoundTrip(id as nat, 32);
    hide FromBE, ToBE, Pow256;
  }

  lemma {:induction false} IdsBack(ids: seq<BlockId>, tail: Bytes)
    ensures TakeIds(IdsBytes(ids) + tail, |ids|) == Ok(Parsed(ids, tail))
  {
    hide TakeId, IdBytes;
    if ids == [] {
      assert IdsBytes(ids) + tail == tail;
    } else {
      assert IdsBytes(ids) + tail == IdBytes(ids[0]) + (IdsBytes(ids[1..]) + tail);
      IdBack(ids[0], IdsBytes(ids[1..]) + tail);
      IdsBack(ids[1..], tail);
      assert ids == [ids[0]] + ids[1..];
    }
  }

  lemma OptionBack(o: Option<Bytes>, n: nat, tail: Bytes)
    requires o.Some? ==> |o.value| == n
    ensures TakeOption(OptionBytes(o) + tail, n) == Ok(Parsed(o, tail))
  {
    if o.Some? {
      assert OptionBytes(o) + tail == [1] + (o.value + tail);
      TakeFront([1], o.value + tail);
      TakeFront(o.value, tail);
    } else {
      TakeFront([0], tail);
    }
  }

  /** The widths the field types fix, and points the curve accepts. */
  predicate Typed(c: Crypto, b: Block) {
    && |b.parents| <= U64_MAX as nat && |PayloadOf(b)| <= U64_MAX as nat && TypedVrf(c, VrfOf(b))
  }

  predicate TypedVrf(c: Crypto, vrf: Vrf) {
    && (vrf.key.Some? ==> |vrf.key.value| == KEY_BYTES && c.keyOk(vrf.key.value))
    && (vrf.proof.Some? ==> |vrf.proof.value| == PROOF_BYTES && c.proofOk(vrf.proof.value))
    && (vrf.output.Some? ==> |vrf.output.value| == OUTPUT_BYTES)
  }

  /** A proof or an output without a key is not written. */
  function Written(vrf: Vrf): Vrf {
    if vrf.key.Some? then vrf else Vrf(None, None, None)
  }

  lemma VrfBack(c: Crypto, vrf: Vrf, tail: Bytes)
    requires TypedVrf(c, vrf)
    ensures TakeVrf(c, VrfBytes(vrf) + tail) == Ok(Parsed(Written(vrf), tail))
  {
    hide TakeOption;
    if vrf.key.Some? {
      var outputOn := OptionBytes(vrf.output) + tail;
      var proofOn := OptionBytes(vrf.proof) + outputOn;
      assert VrfBytes(vrf) + tail == OptionBytes(vrf.key) + proofOn;
      OptionBack(vrf.key, KEY_BYTES, proofOn);
      OptionBack(vrf.proof, PROOF_BYTES, outputOn);
      OptionBack(vrf.output, OUTPUT_BYTES, tail);
    } else {
      OptionBack(None, KEY_BYTES, tail);
    }
  }

  lemma NumbersBack(b: Block, tail: Bytes)
    ensures TakeNumbers(NumberBytes(b) + tail) == Ok(Parsed(Numbers(b.work, b.timestampMs, b.nonce), tail))
  {
    hide Pow256, FromLE, ToLE;
    var nonceOn := ToLE(b.nonce as nat, 8) + tail;
    var timeOn := ToLE(b.timestampMs as nat, 8) + nonceOn;
    assert NumberBytes(b) + tail == ToLE(b.work as nat, 16) + timeOn;
    TakeFront(ToLE(b.work as nat, 16), timeOn);
    TakeFront(ToLE(b.timestampMs as nat, 8), nonceOn);
    TakeFront(ToLE(b.nonce as nat, 8), tail);
    WordWidths();
    LERoundTrip(b.work as nat, 16);
    LERoundTrip(b.timestampMs as nat, 8);
    LERoundTrip(b.nonce as nat, 8);
  }

  lemma PayloadBack(b: Block, tail: Bytes)
    requires |PayloadOf(b)| <= U64_MAX as nat
    ensures var s := PayloadBytes(b) + tail;
      && TakeCount(s, 1) == Ok(Parsed(|PayloadOf(b)|, PayloadOf(b) + tail))
      && Take(PayloadOf(b) + tail, |PayloadOf(b)|) == Ok(Parsed(PayloadOf(b), tail))
  {
    hide TakeCount;
    assert PayloadBytes(b) + tail == ToLE(|PayloadOf(b)|, 8) + (PayloadOf(b) + tail);
    CountBack(|PayloadOf(b)|, 1, PayloadOf(b) + tail);
    TakeFront(PayloadOf(b), tail);
  }

  lemma PreimageNested(b: Block, tail: Bytes)
    ensures Preimage(b) + tail ==
      ToLE(|b.parents|, 8) +
      (IdsBytes(b.parents) + (NumberBytes(b) + (VrfBytes(VrfOf(b)) + (PayloadBytes(b) + tail))))
  {
    hide IdsBytes, NumberBytes, VrfBytes, PayloadBytes, ToLE;
  }

  function FieldsOf(b: Block): Fields {
    Fields(b.parents, Numbers(b.work, b.timestampMs, b.nonce), Written(VrfOf(b)), PayloadOf(b))
  }

  /** Reading what was written yields exactly the written fields. */
  lemma FieldsBack(c: Crypto, b: Block, tail: Bytes)
    requires Typed(c, b)
    ensures TakeFields(c, Preimage(b) + tail) == Ok(Parsed(FieldsOf(b), tail))
  {
    hide IdsBytes, NumberBytes, VrfBytes, PayloadBytes, ToLE, TakeCount, TakeIds, TakeNumbers, TakeVrf, Take;
    hide Preimage, Written;
    var payloadOn := PayloadBytes(b) + tail;
    var vrfOn := VrfBytes(VrfOf(b)) + payloadOn;
    var numbersOn := NumberBytes(b) + vrfOn;
    var idsOn := IdsBytes(b.parents) + numbersOn;
    PreimageNested(b, tail);
    CountBack(|b.parents|, 32, idsOn);
    IdsBack(b.parents, numbersOn);
    NumbersBack(b, vrfOn);
    VrfBack(c, VrfOf(b), payloadOn);
    PayloadBack(b, tail);
  }

  /** And, for a whole block, exactly the assembly of them. */
  lemma BlockBack(c: Crypto, b: Block, tail: Bytes)
    requires Typed(c, b)
    ensures TakeBlock(c, Encoding(b) + tail) ==
      match Assembled(c, b.id, FieldsOf(b))
      case Err(e) => Err(e)
      case Ok(back) => Ok(Parsed(back, tail))
  {
    hide TakeId, IdBytes, TakeFields, Assembled, Preimage, FieldsOf;
    assert Encoding(b) + tail == IdBytes(b.id) + (Preimage(b) + tail);
    IdBack(b.id, Preimage(b) + tail);
    FieldsBack(c, b, tail);
  }

  /** An empty payload reads back as pruned. */
  function Stored(b: Block): Block {
    if PayloadOf(b) == [] then b.Pruned() else b
  }

  /** What must hold of a block for the codec to give it back: canonical parents, no
      stray VRF field, and, with a payload, whole VRF fields and a truthful id. */
  predicate Faithful(c: Crypto, b: Block) {
    && Canonical(b.parents) == b.parents
    && (b.vrfPublicKey.None? ==> b.vrfProof.None? && b.vrfOutput.None?)
    && (PayloadOf(b) != [] ==>
      && (b.vrfPublicKey.Some? ==> b.vrfProof.Some? && b.vrfOutput.Some?)
      && b.id == c.hash(Preimage(b)))
  }

  /** A block survives the trip if and only if it is faithful. */
  lemma BlockRoundTripIff(c: Crypto, b: Block, tail: Bytes)
    requires Typed(c, b)
    ensures TakeBlock(c, Encoding(b) + tail) == Ok(Parsed(Stored(b), tail)) <==> Faithful(c, b)
  {
    hide TakeBlock, Encoding, Canonical, Preimage;
    BlockBack(c, b, tail);
    AssembledIff(c, b);
  }

  lemma AssembledIff(c: Crypto, b: Block)
    ensures Assembled(c, b.id, FieldsOf(b)) == Ok(Stored(b)) <==> Faithful(c, b)
  {
    hide Canonical, Preimage;
    if PayloadOf(b) != [] && Canonical(b.parents) == b.parents && Written(VrfOf(b)) == VrfOf(b) {
      assert b == Block(
        b.id, b.parents, b.work, b.timestampMs, b.nonce, b.vrfPublicKey, b.vrfProof, b.vrfOutput,
        Some(PayloadOf(b)));
    }
  }

  /** A key with a payload but without both proof and output. */
  predicate HalfVrf(b: Block) {
    b.vrfPublicKey.Some? && (b.vrfProof.None? || b.vrfOutput.None?) && PayloadOf(b) != []
  }

  /** The reader fails an unwrap on a written block if and only if its VRF fields are
      halved and it has a payload. */
  lemma ReaderPanicsIff(c: Crypto, b: Block, tail: Bytes)
    requires Typed(c, b)
    ensures TakeBlock(c, Encoding(b) + tail) == Err(Panicked) <==> HalfVrf(b)
  {
    hide TakeBlock, Encoding, Canonical, Preimage;
    BlockBack(c, b, tail);
  }

  const ZERO_KEY: Bytes := seq(KEY_BYTES, _ => 0)

  /** One such block: a key, a one-byte payload, nothing else, under any id. */
  lemma KeyOnlyBlockPanics(c: Crypto, id: BlockId, tail: Bytes)
    requires c.keyOk(ZERO_KEY)
    ensures TakeBlock(c, Encoding(Block(id, [], 1, 0, 0, Some(ZERO_KEY), None, None, Some([7]))) + tail) == Err(Panicked)
  {
    hide TakeBlock, Encoding;
    ReaderPanicsIff(c, Block(id, [], 1, 0, 0, Some(ZERO_KEY), None, None, Some([7])), tail);
  }

  /** What the constructors of a block with a payload build is faithful, and pruning keeps it so. */
  lemma PrunedStaysFaithful(c: Crypto, b: Block)
    requires Faithful(c, b)
    ensures Faithful(c, b.Pruned()) && Faithful(c, Stored(b)) && Stored(Stored(b)) == Stored(b)
    ensures Encoding(Stored(b)) == Encoding(b)
  {
    hide Canonical;
    assert VrfOf(Stored(b)) == VrfOf(b) && PayloadOf(Stored(b)) == PayloadOf(b);
    assert NumberBytes(Stored(b)) == NumberBytes(b) && PayloadBytes(Stored(b)) == PayloadBytes(b);
  }

  /** The hashed bytes and the committed fields determine each other: whatever their ids,
      two blocks hash the same bytes exactly when they agree on every written field. */
  lemma PreimageInjective(c: Crypto, a: Block, b: Block)
    requires Typed(c, a) && Typed(c, b)
    ensures Preimage(a) == Preimage(b) <==> FieldsOf(a) == FieldsOf(b)
  {
    SameFieldsSameBytes(a, b);
    hide Preimage, FieldsOf, Typed, TakeFields;
    FieldsBack(c, a, []);
    FieldsBack(c, b, []);
  }

  lemma SameFieldsSameBytes(a: Block, b: Block)
    ensures FieldsOf(a) == FieldsOf(b) ==> Preimage(a) == Preimage(b)
  {
    assert VrfBytes(VrfOf(a)) == VrfBytes(Written(VrfOf(a))) && VrfBytes(VrfOf(b)) == VrfBytes(Written(VrfOf(b)));
  }

  // ----------------------------------------------------------------------- lengths

  /** The length the block reports for its stored form. */
  function EncodedLen(b: Block): nat {
    var vrf := if b.vrfPublicKey.None? then 0 else
      32 + 1 + (if b.vrfProof.Some? then 96 else 0) + 1 + (if b.vrfOutput.Some? then 32 else 0);
    32 + 8 + |b.parents| * 32 + 16 + 8 + 8 + 1 + vrf + 8 + |PayloadOf(b)|
  }

  lemma EncodedLenIsLength(c: Crypto, b: Block)
    requires Typed(c, b)
    ensures |Encoding(b)| == EncodedLen(b) && 81 <= |Encoding(b)|
  {
    hide ToLE, IdBytes, IdsBytes;
  }
}
