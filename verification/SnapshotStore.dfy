/** Writing a snapshot to a byte buffer, and reading one with a cursor that advances
    only over bytes that are there. */
module SnapshotStore {
  import opened BlockCodec
  import opened BlockGraph
  import opened Blocks
  import opened ByteOrder
  import opened Consensus
  import opened Enforcement
  import opened Ghostdag
  import opened Ordering
  import opened Snapshot
  import opened Words
  import opened Wrappers
  import Dags = Dag
  import IntervalTree

  /** Bytes appended so far. */
  class Buffer {
    var bytes: Bytes

    constructor ()
      ensures bytes == []
    {
      bytes := [];
    }

    method Extend(more: Bytes)
      modifies this
      ensures bytes == old(bytes) + more
    {
      bytes := bytes + more;
    }

    method EncodeOption(o: Option<Bytes>)
      modifies this
      ensures bytes == old(bytes) + OptionBytes(o)
    {
      if o.Some? {
        Extend([1]);
        Extend(o.value);
      } else {
        Extend([0]);
      }
    }

    method EncodeVrf(b: Block)
      modifies this
      ensures bytes == old(bytes) + VrfBytes(VrfOf(b))
    {
      hide OptionBytes;
      ghost var start := bytes;
      if b.vrfPublicKey.Some? {
        Extend([1]);
        Extend(b.vrfPublicKey.value);
        EncodeOption(b.vrfProof);
        EncodeOption(b.vrfOutput);
        Nested(start, [1], b.vrfPublicKey.value, OptionBytes(b.vrfProof), OptionBytes(b.vrfOutput));
      } else {
        Extend([0]);
      }
    }

    method EncodeIds(ids: seq<BlockId>)
      modifies this
      ensures bytes == old(bytes) + IdsBytes(ids)
    {
      hide IdBytes;
      ghost var start := bytes;
      for i := 0 to |ids|
        invariant bytes == start + IdsBytes(ids[..i])
      {
        IdsBytesNext(ids, i);
        Extend(IdBytes(ids[i]));
      }
      assert ids[..|ids|] == ids;
    }

    /** Append the stored form of a block. */
    method EncodeBlock(b: Block)
      modifies this
      ensures bytes == old(bytes) + Encoding(b)
    {
      hide IdBytes, IdsBytes, VrfBytes, ToLE;
      Extend(IdBytes(b.id));
      Extend(ToLE(|b.parents|, 8));
      EncodeIds(b.parents);
      Extend(ToLE(b.work as nat, 16));
      Extend(ToLE(b.timestampMs as nat, 8));
      Extend(ToLE(b.nonce as nat, 8));
      EncodeVrf(b);
      Extend(ToLE(|PayloadOf(b)|, 8));
      Extend(PayloadOf(b));
    }
  }

  lemma Nested(s: Bytes, a: Bytes, b: Bytes, c: Bytes, d: Bytes)
    ensures s + a + b + c + d == s + (a + (b + (c + d)))
  {
  }

  lemma {:induction false} IdsBytesNext(ids: seq<BlockId>, i: nat)
    requires i < |ids|
    ensures IdsBytes(ids[..i + 1]) == IdsBytes(ids[..i]) + IdBytes(ids[i])
    decreases i
  {
    hide IdBytes;
    if i > 0 {
      IdsBytesNext(ids[1..], i - 1);
      assert ids[..i + 1][1..] == ids[1..][..i] && ids[..i][1..] == ids[1..][..i - 1];
    } else {
      assert ids[..1][1..] == [];
    }
  }

  lemma {:induction false} EncodedAllNext(blocks: seq<Block>, i: nat)
    requires i < |blocks|
    ensures EncodedAll(blocks[..i + 1]) == EncodedAll(blocks[..i]) + Encoding(blocks[i])
    decreases i
  {
    hide Encoding;
    if i > 0 {
      EncodedAllNext(blocks[1..], i - 1);
      assert blocks[..i + 1][1..] == blocks[1..][..i] && blocks[..i][1..] == blocks[1..][..i - 1];
    } else {
      assert blocks[..1][1..] == [];
    }
  }

  /** Serialise the DAG. */
  method WriteSnapshot(dag: Dags.Dag) returns (bytes: Bytes)
    requires dag.Valid()
    ensures bytes == SnapshotOf(dag.StateOf())
  {
    hide *;
    ghost var s := dag.StateOf();
    StateParts(dag);
    SnapshotParts(s);
    var order := dag.Linearize();
    var buf := new Buffer();
    buf.Extend(MAGIC);
    buf.Extend(ToLE(VERSION, 2));
    buf.Extend(ToLE(dag.k, 2));
    buf.Extend(ToLE(|order|, 8));
    EncodeAll(buf, dag.nodes, order);
    bytes := buf.bytes;
    assert [] + MAGIC == MAGIC;
  }

  lemma StateParts(dag: Dags.Dag)
    requires dag.Valid()
    ensures Inv(dag.StateOf()) && dag.StateOf().nodes == dag.nodes && dag.StateOf().k == dag.k
  {
    hide Inv;
  }

  lemma SnapshotParts(s: State)
    requires Inv(s)
    ensures forall d :: d in TotalOrder(s) ==> d in s.nodes
    ensures SnapshotOf(s) ==
      MAGIC + ToLE(VERSION, 2) + ToLE(s.k, 2) + ToLE(|TotalOrder(s)|, 8) + EncodedAll(BlocksAt(s.nodes, TotalOrder(s)))
  {
    hide Inv, TotalOrder, TopoList, EncodedAll, BlocksAt, ToLE, GraphOf, Header;
    OrderIsTotal(s);
    HeaderNested(s.k, |TotalOrder(s)|);
  }

  lemma HeaderNested(k: nat, n: nat)
    ensures Header(k, n) == MAGIC + ToLE(VERSION, 2) + ToLE(k, 2) + ToLE(n, 8)
  {
    hide ToLE;
  }

  /** Append the listed blocks, one after another. */
  method EncodeAll(buf: Buffer, nodes: Nodes, order: seq<BlockId>)
    requires forall d :: d in order ==> d in nodes
    modifies buf
    ensures buf.bytes == old(buf.bytes) + EncodedAll(BlocksAt(nodes, order))
  {
    hide Encoding, EncodedAll, BlocksAt;
    ghost var blocks := BlocksAt(nodes, order);
    ghost var start := buf.bytes;
    NothingEncoded(blocks);
    for i := 0 to |order|
      invariant buf.bytes == start + EncodedAll(blocks[..i])
    {
      assert order[i] in order && blocks[i] == nodes[order[i]].block;
      EncodedAllNext(blocks, i);
      buf.EncodeBlock(nodes[order[i]].block);
    }
    assert blocks[..|blocks|] == blocks;
  }

  lemma NothingEncoded(blocks: seq<Block>)
    ensures EncodedAll(blocks[..0]) == []
  {
  }

  /** A bounds-checked cursor over snapshot bytes. */
  class Reader {
    const buf: Bytes
    var pos: nat

    ghost predicate Valid()
      reads this
    {
      pos <= |buf|
    }

    function Unread(): Bytes
      requires Valid()
      reads this
    {
      buf[pos..]
    }

    constructor (bytes: Bytes)
      ensures Valid() && Unread() == bytes && buf == bytes
    {
      buf := bytes;
      pos := 0;
    }

    /** The read followed the parse: same value, and the cursor at its rest. */
    ghost predicate Follows<T>(p: Parse<T>, r: Result<T, SnapshotError>)
      reads this
    {
      Valid() && match p
        case Err(e) => r == Err(e)
        case Ok(parsed) => r == Ok(parsed.value) && Unread() == parsed.rest
    }

    method ReadBytes(n: nat) returns (r: Result<Bytes, SnapshotError>)
      requires Valid()
      modifies this
      ensures Follows(Take(old(Unread()), n), r)
    {
      if |buf| - pos < n {
        return Err(UnexpectedEof);
      }
      r := Ok(buf[pos..pos + n]);
      pos := pos + n;
      assert old(Unread())[..n] == buf[old(pos)..pos] && old(Unread())[n..] == Unread();
    }

    method ReadWord(n: nat) returns (r: Result<nat, SnapshotError>)
      requires Valid()
      modifies this
      ensures Follows(TakeWord(old(Unread()), n), r)
    {
      var s :- ReadBytes(n);
      return Ok(FromLE(s));
    }

    method ReadCount(elementBytes: nat) returns (r: Result<nat, SnapshotError>)
      requires Valid() && 0 < elementBytes
      modifies this
      ensures Follows(TakeCount(old(Unread()), elementBytes), r)
    {
      hide TakeWord;
      var n :- ReadWord(8);
      if n > (|buf| - pos) / elementBytes {
        return Err(UnexpectedEof);
      }
      return Ok(n);
    }

    method ReadId() returns (r: Result<BlockId, SnapshotError>)
      requires Valid()
      modifies this
      ensures Follows(TakeId(old(Unread())), r)
    {
      var s :- ReadBytes(32);
      BEBound(s);
      IdWidth();
      return Ok(FromBE(s) as BlockId);
    }

    method ReadIds(n: nat) returns (r: Result<seq<BlockId>, SnapshotError>)
      requires Valid()
      modifies this
      ensures Follows(TakeIds(old(Unread()), n), r)
    {
      hide TakeId;
      ghost var start := Unread();
      var ids: seq<BlockId> := [];
      PrependNothing(TakeIds(start, n));
      for i := 0 to n
        invariant Valid() && |ids| == i
        invariant TakeIds(start, n) == Prepended(ids, TakeIds(Unread(), n - i))
      {
        var id :- ReadId();
        PrependNext(ids, id, TakeIds(Unread(), n - i - 1));
        ids := ids + [id];
      }
      assert ids + [] == ids;
      return Ok(ids);
    }

    method ReadOption(n: nat) returns (r: Result<Option<Bytes>, SnapshotError>)
      requires Valid()
      modifies this
      ensures Follows(TakeOption(old(Unread()), n), r)
    {
      var flag :- ReadBytes(1);
      if flag[0] == 1 {
        var s :- ReadBytes(n);
        return Ok(Some(s));
      }
      return Ok(None);
    }

    method ReadVrf(c: Crypto) returns (r: Result<Vrf, SnapshotError>)
      requires Valid()
      modifies this
      ensures Follows(TakeVrf(c, old(Unread())), r)
    {
      hide TakeOption;
      var key :- ReadOption(KEY_BYTES);
      if key.None? {
        return Ok(Vrf(None, None, None));
      }
      if !c.keyOk(key.value) {
        return Err(UnexpectedEof);
      }
      var proof :- ReadOption(PROOF_BYTES);
      if proof.Some? && !c.proofOk(proof.value) {
        return Err(UnexpectedEof);
      }
      var output :- ReadOption(OUTPUT_BYTES);
      return Ok(Vrf(key, proof, output));
    }

    method ReadNumbers() returns (r: Result<Numbers, SnapshotError>)
      requires Valid()
      modifies this
      ensures Follows(TakeNumbers(old(Unread())), r)
    {
      hide Take, FromLE, Pow256;
      var work :- ReadBytes(16);
      var time :- ReadBytes(8);
      var nonce :- ReadBytes(8);
      TakenLengths(old(Unread()));
      WordWidths();
      LEBound(work);
      LEBound(time);
      LEBound(nonce);
      return Ok(Numbers(FromLE(work) as u128, FromLE(time) as u64, FromLE(nonce) as u64));
    }

    /** Read one block. */
    method ReadBlock(c: Crypto) returns (r: Result<Block, SnapshotError>)
      requires Valid()
      modifies this
      ensures Follows(TakeBlock(c, old(Unread())), r)
    {
      hide TakeId, TakeCount, TakeIds, TakeNumbers, TakeVrf, Take, Assembled;
      var id :- ReadId();
      var count :- ReadCount(32);
      var parents :- ReadIds(count);
      var numbers :- ReadNumbers();
      var vrf :- ReadVrf(c);
      var len :- ReadCount(1);
      var payload :- ReadBytes(len);
      r := Assembled(c, id, Fields(parents, numbers, vrf, payload));
    }

    method ReadHeader() returns (r: Result<nat, SnapshotError>)
      requires Valid()
      modifies this
      ensures Follows(TakeHeader(old(Unread())), r)
    {
      hide Take, TakeWord;
      var magic :- ReadBytes(4);
      if magic != MAGIC {
        return Err(BadMagic);
      }
      var version :- ReadWord(2);
      if version > VERSION {
        return Err(UnsupportedVersion(version));
      }
      if version < VERSION {
        return Err(NotModelled);
      }
      r := ReadWord(2);
    }

    /** Decode the framing and every block. */
    method ReadLog(c: Crypto) returns (r: Result<Log, SnapshotError>)
      requires Valid()
      modifies this
      ensures r == Decoded(c, old(Unread()))
    {
      hide TakeHeader, TakeCount, TakeBlocks;
      var k :- ReadHeader();
      var count :- ReadCount(MIN_BLOCK_BYTES);
      var blocks :- ReadBlocks(c, count);
      if pos != |buf| {
        return Err(TrailingBytes);
      }
      return Ok(Log(k, blocks));
    }

    method ReadBlocks(c: Crypto, n: nat) returns (r: Result<seq<Block>, SnapshotError>)
      requires Valid()
      modifies this
      ensures Follows(TakeBlocks(c, old(Unread()), n), r)
    {
      hide TakeBlock;
      ghost var start := Unread();
      var blocks: seq<Block> := [];
      PrependNothing(TakeBlocks(c, start, n));
      for i := 0 to n
        invariant Valid() && |blocks| == i
        invariant TakeBlocks(c, start, n) == Prepended(blocks, TakeBlocks(c, Unread(), n - i))
      {
        var b :- ReadBlock(c);
        PrependNext(blocks, b, TakeBlocks(c, Unread(), n - i - 1));
        blocks := blocks + [b];
      }
      assert blocks + [] == blocks;
      return Ok(blocks);
    }
  }

  lemma TakenLengths(s: Bytes)
    ensures forall n: nat, t: Bytes :: Take(t, n).Ok? ==> |Take(t, n).value.value| == n
  {
  }

  ghost function Prepended<T>(front: seq<T>, p: Parse<seq<T>>): Parse<seq<T>> {
    match p
    case Err(e) => Err(e)
    case Ok(parsed) => Ok(Parsed(front + parsed.value, parsed.rest))
  }

  lemma PrependNothing<T>(p: Parse<seq<T>>)
    ensures Prepended([], p) == p
  {
    if p.Ok? {
      assert [] + p.value.value == p.value.value;
    }
  }

  lemma PrependNext<T>(front: seq<T>, x: T, p: Parse<seq<T>>)
    ensures Prepended(front, Prepended([x], p)) == Prepended(front + [x], p)
  {
    if p.Ok? {
      assert front + ([x] + p.value.value) == (front + [x]) + p.value.value;
    }
  }

  lemma {:induction false} ReplayFails(s: State, blocks: seq<Block>, i: nat)
    requires i <= |blocks| && Replay(s, blocks[..i]).Err?
    ensures Replay(s, blocks) == Replay(s, blocks[..i])
    decreases |blocks|
  {
    hide Replayed;
    if i < |blocks| {
      var front := blocks[..|blocks| - 1];
      assert front[..i] == blocks[..i];
      ReplayFails(s, front, i);
    } else {
      assert blocks[..i] == blocks;
    }
  }

  lemma ReplayNext(s: State, blocks: seq<Block>, i: nat)
    requires i < |blocks| && Replay(s, blocks[..i]).Ok?
    ensures Replay(s, blocks[..i + 1]) == Replayed(Replay(s, blocks[..i]).value, blocks[i])
  {
    hide Replayed;
    assert blocks[..i + 1][..i] == blocks[..i];
  }

  lemma NothingReplayed(s: State, blocks: seq<Block>)
    ensures Replay(s, blocks[..0]) == Ok(s) && blocks[..|blocks|] == blocks
  {
  }

  lemma MissingReplayed(s: State, b: Block)
    requires FirstMissing(s.nodes, b.parents).Some?
    ensures Replayed(s, b) == Err(NotModelled)
  {
    hide Refusal;
  }

  /** An insert without policies is a replayed step. */
  lemma InsertReplays(s: State, b: Block, r: Result<BlockId, DagError>, t: State)
    requires Inserts(s, NO_POLICY, U64_MAX, b.id, b, r, t) && FirstMissing(s.nodes, b.parents).None?
    ensures Replayed(s, b) == if r.Ok? then Ok(t) else Err(Rebuild(r.error))
    ensures |t.nodes| <= |s.nodes| + 1
  {
    hide Inv, Refusal, Inserted, HasData, PrunedNodes, FirstMissing;
    AcceptedIff(s, NO_POLICY, b.id, b);
    if r.Ok? {
      InsertKeepsInv(s, b.id, b);
      Dags.NothingPruned(Inserted(s, b.id, b));
      InsertedFacts(s, b.id, b);
      KeysGrow(s.nodes, Inserted(s, b.id, b).nodes, b.id);
    }
  }

  lemma DagParts(dag: Dags.Dag)
    requires dag.Valid()
    ensures dag.StateOf().nodes == dag.nodes
    ensures dag.PolicyOf() == NO_POLICY && |dag.nodes| < IntervalTree.ROOT_CAPACITY as nat ==> dag.MayInsert()
    ensures forall b: Block :: Dags.Dag.IdFor(b, Some(b.id)) == b.id
  {
    hide Inv, Dags.Dag.OracleFits;
  }

  /** Insert the blocks in order, stopping at the first refusal. */
  method ReplayAll(dag: Dags.Dag, blocks: seq<Block>) returns (r: Result<(), SnapshotError>)
    requires dag.Valid() && dag.PolicyOf() == NO_POLICY && dag.payloadPruningDepth == U64_MAX
    requires |dag.nodes| + |blocks| <= IntervalTree.ROOT_CAPACITY as nat
    modifies dag`nodes, dag`tips, dag.reach
    ensures dag.Valid()
    ensures Replay(old(dag.StateOf()), blocks) == if r.Ok? then Ok(dag.StateOf()) else Err(r.error)
  {
    hide *;
    ghost var s0 := dag.StateOf();
    NothingReplayed(s0, blocks);
    DagParts(dag);
    for i := 0 to |blocks|
      invariant dag.Valid() && dag.PolicyOf() == NO_POLICY && dag.payloadPruningDepth == U64_MAX
      invariant Replay(s0, blocks[..i]) == Ok(dag.StateOf())
      invariant |dag.nodes| + (|blocks| - i) <= IntervalTree.ROOT_CAPACITY as nat
      invariant dag.reach == old(dag.reach)
    {
      var b := blocks[i];
      ghost var s := dag.StateOf();
      DagParts(dag);
      ReplayNext(s0, blocks, i);
      var missing := FirstMissing(dag.nodes, b.parents);
      if missing.Some? {
        MissingReplayed(s, b);
        ReplayFails(s0, blocks, i + 1);
        return Err(NotModelled);
      }
      var inserted := dag.Insert(b, Some(b.id));
      DagParts(dag);
      InsertReplays(s, b, inserted, dag.StateOf());
      if inserted.Err? {
        ReplayFails(s0, blocks, i + 1);
        return Err(Rebuild(inserted.error));
      }
    }
    return Ok(());
  }

  /** Rebuild a DAG by replaying the blocks of a snapshot. */
  method ReadSnapshot(c: Crypto, bytes: Bytes) returns (r: Result<Dags.Dag, SnapshotError>)
    requires |bytes| <= U64_MAX as nat
    ensures r.Err? ==> Restored(c, bytes) == Err(r.error)
    ensures r.Ok? ==> fresh(r.value) && fresh(r.value.reach) && r.value.Valid()
    ensures r.Ok? ==> Restored(c, bytes) == Ok(r.value.StateOf()) && r.value.PolicyOf() == NO_POLICY
  {
    hide *;
    RestoredParts(c, bytes);
    var reader := new Reader(bytes);
    var decoded := reader.ReadLog(c);
    if decoded.Err? {
      return Err(decoded.error);
    }
    LogFits(c, bytes);
    var log := decoded.value;
    if log.blocks == [] {
      return Err(UnexpectedEof);
    }
    if log.blocks[0].parents != [] {
      return Err(NotModelled);
    }
    var dag := new Dags.Dag(log.k, log.blocks[0]);
    GenesisCount(log.k, log.blocks[0]);
    DagParts(dag);
    var done := ReplayAll(dag, log.blocks[1..]);
    r := if done.Ok? then Ok(dag) else Err(done.error);
  }

  lemma GenesisCount(k: nat, b: Block)
    ensures |Genesis(k, b).nodes| == 1 && NO_POLICY == Policy(None, false)
    ensures 0x400_0000_0000_0000 < IntervalTree.ROOT_CAPACITY as nat && MIN_BLOCK_BYTES == 80
    ensures U64_MAX as nat == 0xFFFF_FFFF_FFFF_FFFF
  {
  }

  lemma RestoredParts(c: Crypto, s: Bytes)
    ensures Decoded(c, s).Err? ==> Restored(c, s) == Err(Decoded(c, s).error)
    ensures Decoded(c, s).Ok? ==>
      var log := Decoded(c, s).value;
      Restored(c, s) ==
      if log.blocks == [] then Err(UnexpectedEof)
      else if log.blocks[0].parents != [] then Err(NotModelled)
      else Replay(Genesis(log.k, log.blocks[0]), log.blocks[1..])
  {
    hide Decoded, Replay;
  }

  lemma CountFits(s: Bytes)
    requires TakeCount(s, MIN_BLOCK_BYTES).Ok?
    ensures var p := TakeCount(s, MIN_BLOCK_BYTES).value;
      p.value * MIN_BLOCK_BYTES <= |p.rest| <= |s|
  {
  }

  lemma {:induction false} BlocksCounted(c: Crypto, s: Bytes, n: nat)
    requires TakeBlocks(c, s, n).Ok?
    ensures |TakeBlocks(c, s, n).value.value| == n
    decreases n
  {
    hide TakeBlock;
    if n > 0 {
      BlocksCounted(c, TakeBlock(c, s).value.rest, n - 1);
    }
  }

  /** The declared count never exceeds what the bytes can hold. */
  lemma DecodedFits(c: Crypto, s: Bytes)
    requires Decoded(c, s).Ok?
    ensures |Decoded(c, s).value.blocks| * MIN_BLOCK_BYTES <= |s|
  {
    hide TakeHeader, TakeCount, TakeBlocks;
    var k := TakeHeader(s).value;
    HeaderShrinks(s);
    CountFits(k.rest);
    var count := TakeCount(k.rest, MIN_BLOCK_BYTES).value;
    BlocksCounted(c, count.rest, count.value);
  }

  lemma HeaderShrinks(s: Bytes)
    requires TakeHeader(s).Ok?
    ensures |TakeHeader(s).value.rest| <= |s|
  {
  }

  lemma LogFits(c: Crypto, s: Bytes)
    ensures Decoded(c, s).Ok? ==> |Decoded(c, s).value.blocks| * MIN_BLOCK_BYTES <= |s|
  {
    hide Decoded;
    if Decoded(c, s).Ok? {
      DecodedFits(c, s);
    }
  }
}
