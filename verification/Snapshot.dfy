/** Snapshots: the replay log of a DAG, written in its total order and read back by
    inserting every block again. */
module Snapshot {
  import opened BlockCodec
  import opened BlockGraph
  import opened Blocks
  import opened ByteOrder
  import opened Consensus
  import opened Enforcement
  import opened Ghostdag
  import opened Ordering
  import opened Runs
  import opened Words
  import opened Wrappers

  const MAGIC: Bytes := [0x4B, 0x56, 0x44, 0x47]
  const VERSION: nat := 6
  const MIN_BLOCK_BYTES: nat := 80

  // --------------------------------------------------------------------- writing

  function EncodedAll(blocks: seq<Block>): Bytes {
    if blocks == [] then [] else Encoding(blocks[0]) + EncodedAll(blocks[1..])
  }

  function Header(k: nat, count: nat): Bytes {
    MAGIC + (ToLE(VERSION, 2) + (ToLE(k, 2) + ToLE(count, 8)))
  }

  function Framed(k: nat, blocks: seq<Block>): Bytes {
    Header(k, |blocks|) + EncodedAll(blocks)
  }

  function BlocksAt(nodes: Nodes, ids: seq<BlockId>): (r: seq<Block>)
    requires forall d :: d in ids ==> d in nodes
    ensures |r| == |ids| && forall i :: 0 <= i < |ids| ==> ids[i] in nodes && r[i] == nodes[ids[i]].block
  {
    if ids == [] then [] else [nodes[ids[0]].block] + BlocksAt(nodes, ids[1..])
  }

  /** The blocks of a state, in its total order. */
  ghost function SnapshotOf(s: State): Bytes
    requires Inv(s)
  {
    OrderIsTotal(s);
    Framed(s.k, BlocksAt(s.nodes, TotalOrder(s)))
  }

  // --------------------------------------------------------------------- reading

  function TakeBlocks(c: Crypto, s: Bytes, n: nat): Parse<seq<Block>>
    decreases n
  {
    if n == 0 then Ok(Parsed([], s))
    else
      var first :- TakeBlock(c, s);
      var others :- TakeBlocks(c, first.rest, n - 1);
      Ok(Parsed([first.value] + others.value, others.rest))
  }

  datatype Log = Log(k: nat, blocks: seq<Block>)

  /** The magic, a version this build reads, and `k`. */
  function TakeHeader(s: Bytes): Parse<nat> {
    var magic :- Take(s, 4);
    if magic.value != MAGIC then Err(BadMagic)
    else
      var version :- TakeWord(magic.rest, 2);
      if version.value > VERSION then Err(UnsupportedVersion(version.value))
      else if version.value < VERSION then Err(NotModelled)
      else TakeWord(version.rest, 2)
  }

  function Decoded(c: Crypto, s: Bytes): Result<Log, SnapshotError> {
    var k :- TakeHeader(s);
    var count :- TakeCount(k.rest, MIN_BLOCK_BYTES);
    var blocks :- TakeBlocks(c, count.rest, count.value);
    if blocks.rest != [] then Err(TrailingBytes) else Ok(Log(k.value, blocks.value))
  }

  const NO_POLICY: Policy := Policy(None, false)

  /** Insert one decoded block, without policies. A missing parent would be an evicted one. */
  ghost function Replayed(s: State, b: Block): Result<State, SnapshotError> {
    if FirstMissing(s.nodes, b.parents).Some? then Err(NotModelled)
    else
      var refusal := Refusal(s.nodes, NO_POLICY, b.id, b);
      AcceptedIff(s, NO_POLICY, b.id, b);
      if refusal.Some? then Err(Rebuild(refusal.value)) else Ok(Inserted(s, b.id, b))
  }

  ghost function Replay(s: State, blocks: seq<Block>): Result<State, SnapshotError> {
    if blocks == [] then Ok(s)
    else
      var front :- Replay(s, blocks[..|blocks| - 1]);
      Replayed(front, blocks[|blocks| - 1])
  }

  /** What reading a snapshot yields. */
  ghost function Restored(c: Crypto, s: Bytes): Result<State, SnapshotError> {
    var log :- Decoded(c, s);
    if log.blocks == [] then Err(UnexpectedEof)
    else if log.blocks[0].parents != [] then Err(NotModelled)
    else Replay(Genesis(log.k, log.blocks[0]), log.blocks[1..])
  }

  // ------------------------------------------------------------- framing round trip

  lemma {:induction false} BlocksBack(c: Crypto, blocks: seq<Block>, tail: Bytes)
    requires forall b :: b in blocks ==> Typed(c, b) && Faithful(c, b)
    ensures TakeBlocks(c, EncodedAll(blocks) + tail, |blocks|) == Ok(Parsed(StoredAll(blocks), tail))
  {
    hide TakeBlock, Encoding, Typed, Faithful, Stored;
    if blocks == [] {
      assert EncodedAll(blocks) + tail == tail;
    } else {
      assert blocks[0] in blocks && forall b :: b in blocks[1..] ==> b in blocks;
      assert EncodedAll(blocks) + tail == Encoding(blocks[0]) + (EncodedAll(blocks[1..]) + tail);
      BlockRoundTripIff(c, blocks[0], EncodedAll(blocks[1..]) + tail);
      BlocksBack(c, blocks[1..], tail);
    }
  }

  function StoredAll(blocks: seq<Block>): (r: seq<Block>)
    ensures |r| == |blocks| && forall i :: 0 <= i < |r| ==> r[i] == Stored(blocks[i])
  {
    if blocks == [] then [] else [Stored(blocks[0])] + StoredAll(blocks[1..])
  }

  lemma {:induction false} EncodedAllLength(c: Crypto, blocks: seq<Block>)
    requires forall b :: b in blocks ==> Typed(c, b)
    ensures |blocks| * MIN_BLOCK_BYTES <= |EncodedAll(blocks)|
  {
    if blocks != [] {
      assert blocks[0] in blocks && forall b :: b in blocks[1..] ==> b in blocks;
      EncodedLenIsLength(c, blocks[0]);
      EncodedAllLength(c, blocks[1..]);
    }
  }

  lemma FramedNested(k: nat, blocks: seq<Block>)
    ensures Framed(k, blocks) ==
      MAGIC + (ToLE(VERSION, 2) + (ToLE(k, 2) + (ToLE(|blocks|, 8) + (EncodedAll(blocks) + []))))
  {
    hide ToLE, EncodedAll;
  }

  /** The framing read back: what is left is reading the blocks. */
  lemma FramingBack(c: Crypto, k: nat, blocks: seq<Block>)
    requires k <= 0xFFFF && |blocks| <= U64_MAX as nat && forall b :: b in blocks ==> Typed(c, b)
    ensures var blocksOn := EncodedAll(blocks) + [];
      && TakeHeader(Framed(k, blocks)) == Ok(Parsed(k, ToLE(|blocks|, 8) + blocksOn))
      && TakeCount(ToLE(|blocks|, 8) + blocksOn, MIN_BLOCK_BYTES) == Ok(Parsed(|blocks|, blocksOn))
  {
    hide ToLE, Pow256, EncodedAll, Take, TakeWord, TakeCount, Framed, Typed;
    var blocksOn := EncodedAll(blocks) + [];
    var countOn := ToLE(|blocks|, 8) + blocksOn;
    var kOn := ToLE(k, 2) + countOn;
    var versionOn := ToLE(VERSION, 2) + kOn;
    FramedNested(k, blocks);
    SmallWords(k);
    TakeFront(MAGIC, versionOn);
    WordBack(VERSION, 2, kOn);
    WordBack(k, 2, countOn);
    EncodedAllLength(c, blocks);
    CountBack(|blocks|, MIN_BLOCK_BYTES, blocksOn);
  }

  /** A framed list of faithful blocks decodes to itself. */
  lemma LogRoundTrip(c: Crypto, k: nat, blocks: seq<Block>)
    requires k <= 0xFFFF && |blocks| <= U64_MAX as nat
    requires forall b :: b in blocks ==> Typed(c, b) && Faithful(c, b)
    ensures Decoded(c, Framed(k, blocks)) == Ok(Log(k, StoredAll(blocks)))
  {
    hide ToLE, EncodedAll, TakeHeader, TakeBlocks, TakeCount, Framed, Typed, Faithful, StoredAll;
    FramingBack(c, k, blocks);
    BlocksBack(c, blocks, []);
  }

  /** The first block the reader stops at is one it panics on. */
  ghost predicate PanicsAt(c: Crypto, blocks: seq<Block>, i: nat) {
    && i < |blocks| && HalfVrf(blocks[i])
    && forall j :: 0 <= j < i ==> Assembled(c, blocks[j].id, FieldsOf(blocks[j])).Ok?
  }

  lemma {:induction false} BlocksPanicIff(c: Crypto, blocks: seq<Block>, tail: Bytes)
    requires forall b :: b in blocks ==> Typed(c, b)
    ensures TakeBlocks(c, EncodedAll(blocks) + tail, |blocks|) == Err(Panicked) <==> exists i :: PanicsAt(c, blocks, i)
  {
    hide TakeBlock, Encoding, Typed, HalfVrf, Assembled, FieldsOf;
    if blocks != [] {
      var first, others := blocks[0], blocks[1..];
      assert first in blocks && forall b :: b in others ==> b in blocks;
      assert EncodedAll(blocks) + tail == Encoding(first) + (EncodedAll(others) + tail);
      hide EncodedAll, PanicsAt;
      BlockBack(c, first, EncodedAll(others) + tail);
      ReaderPanicsIff(c, first, EncodedAll(others) + tail);
      BlocksPanicIff(c, others, tail);
      PanicsLater(c, blocks);
    }
  }

  lemma PanicsLater(c: Crypto, blocks: seq<Block>)
    requires blocks != []
    ensures (exists i :: PanicsAt(c, blocks, i)) <==>
      HalfVrf(blocks[0]) ||
      (Assembled(c, blocks[0].id, FieldsOf(blocks[0])).Ok? && exists i :: PanicsAt(c, blocks[1..], i))
  {
    hide HalfVrf, Assembled, FieldsOf;
    assert HalfVrf(blocks[0]) ==> PanicsAt(c, blocks, 0);
    forall i: nat | PanicsAt(c, blocks, i) && i > 0
      ensures PanicsAt(c, blocks[1..], i - 1)
    {
      assert forall j :: 0 <= j < |blocks| - 1 ==> blocks[1..][j] == blocks[j + 1];
    }
    forall i: nat | PanicsAt(c, blocks[1..], i) && Assembled(c, blocks[0].id, FieldsOf(blocks[0])).Ok?
      ensures PanicsAt(c, blocks, i + 1)
    {
      assert forall j :: 0 < j < |blocks| ==> blocks[j] == blocks[1..][j - 1];
    }
  }

  /** Reading a written list of blocks panics if and only if, among those reached, one has
      a payload and halved VRF fields. */
  lemma SnapshotPanicsIff(c: Crypto, k: nat, blocks: seq<Block>)
    requires k <= 0xFFFF && |blocks| <= U64_MAX as nat && forall b :: b in blocks ==> Typed(c, b)
    ensures Decoded(c, Framed(k, blocks)) == Err(Panicked) <==> exists i :: PanicsAt(c, blocks, i)
  {
    hide ToLE, EncodedAll, TakeHeader, TakeBlocks, TakeCount, Framed, Typed, PanicsAt;
    FramingBack(c, k, blocks);
    BlocksPanicIff(c, blocks, []);
  }

  lemma SmallWords(k: nat)
    requires k <= 0xFFFF
    ensures k < Pow256(2) && VERSION < Pow256(2)
  {
    assert Pow256(2) == 256 * (256 * Pow256(0));
  }

  // -------------------------------------------------------------- replay round trip

  /** The total order lists every block once, after all its ancestors. */
  lemma OrderIsTotal(s: State)
    requires Inv(s)
    ensures TopoList(GraphOf(s.nodes), s.nodes.Keys, TotalOrder(s)) && |TotalOrder(s)| == |s.nodes|
    ensures forall d :: d in TotalOrder(s) <==> d in s.nodes
  {
    InvParts(s);
    MapDomains(s.nodes);
    TipStored(s);
    hide Inv, Solves, NodeAt, Linearized, IsSelectedTip, GraphOf, DataMapOf, TipsOf, WellFormed, Past, TopoList;
    LinearizationIsTotal(GraphOf(s.nodes), s.genesis, s.k, DataMapOf(s.nodes), SelectedTip(s));
    assert |GraphOf(s.nodes)| == |GraphOf(s.nodes).Keys| && |s.nodes| == |s.nodes.Keys|;
    TopoMembers(GraphOf(s.nodes), s.nodes.Keys, TotalOrder(s));
  }

  lemma TopoMembers(g: Graph, all: set<BlockId>, r: seq<BlockId>)
    requires TopoList(g, all, r)
    ensures forall d :: d in r <==> d in all
  {
  }

  lemma TipStored(s: State)
    requires Inv(s)
    ensures SelectedTip(s) in s.nodes
  {
  }

  /** Genesis comes first in the total order. */
  lemma GenesisFirst(s: State)
    requires Inv(s)
    ensures TotalOrder(s) != [] && TotalOrder(s)[0] == s.genesis
  {
    OrderIsTotal(s);
    InvParts(s);
    MapDomains(s.nodes);
    hide Inv, TotalOrder, Solves, NodeAt;
    var order := TotalOrder(s);
    assert s.genesis in order;
    var i :| 0 <= i < |order| && order[i] == s.genesis;
    assert i == 0 || order[i] !in Past(GraphOf(s.nodes), order[0]);
    if order[0] != s.genesis {
      GenesisIsInEveryPast(GraphOf(s.nodes), s.genesis, order[0]);
    }
  }

  /** Every block is stored under its own id, and survives the codec. */
  predicate Storable(c: Crypto, s: State) {
    && s.k <= 0xFFFF && |s.nodes| <= U64_MAX as nat
    && forall d :: d in s.nodes ==> StorableAt(c, s.nodes, d)
  }

  predicate StorableAt(c: Crypto, nodes: Nodes, d: BlockId)
    requires d in nodes
  {
    nodes[d].block.id == d && Typed(c, nodes[d].block) && Faithful(c, nodes[d].block)
  }

  /** The state with every empty payload read back as pruned. */
  function Reread(s: State): State {
    s.(nodes := map d | d in s.nodes :: s.nodes[d].(block := Stored(s.nodes[d].block)))
  }

  lemma RereadGraph(s: State)
    ensures GraphOf(Reread(s).nodes) == GraphOf(s.nodes) && DataMapOf(Reread(s).nodes) == DataMapOf(s.nodes)
  {
  }

  lemma RereadNodeAt(g: Graph, s: State, d: BlockId)
    requires NodeAt(g, s.nodes, d)
    ensures NodeAt(g, Reread(s).nodes, d)
  {
  }

  /** Everything but the payloads reads back the same. */
  lemma RereadFacts(s: State)
    requires Inv(s)
    ensures Inv(Reread(s)) && GraphOf(Reread(s).nodes) == GraphOf(s.nodes)
    ensures DataMapOf(Reread(s).nodes) == DataMapOf(s.nodes)
    ensures Reread(s).tips == s.tips && TotalOrder(Reread(s)) == TotalOrder(s)
  {
    hide Inv, Solves, TipsOf, GraphOf, DataMapOf, WellFormed, Stored, NodeAt, Linearized, IsSelectedTip;
    var t := Reread(s);
    RereadGraph(s);
    InvParts(s);
    forall d | d in t.nodes
      ensures NodeAt(GraphOf(s.nodes), t.nodes, d)
    {
      RereadNodeAt(GraphOf(s.nodes), s, d);
    }
    PrunedInv(s, t.nodes);
    SameTip(s, t);
  }

  lemma SameTip(s: State, t: State)
    requires Inv(s) && Inv(t) && s.tips == t.tips && s.nodes.Keys == t.nodes.Keys
    requires DataMapOf(s.nodes) == DataMapOf(t.nodes)
    ensures SelectedTip(t) == SelectedTip(s)
  {
    hide Inv;
    SelectedTipUnique(t, SelectedTip(s));
  }

  /** The decoded blocks as a run of inserts. */
  function EntriesOf(blocks: seq<Block>): (r: seq<Entry>)
    ensures |r| == |blocks| && forall i :: 0 <= i < |r| ==> r[i] == Entry(blocks[i].id, blocks[i])
  {
    if blocks == [] then [] else EntriesOf(blocks[..|blocks| - 1]) + [Entry(blocks[|blocks| - 1].id, blocks[|blocks| - 1])]
  }

  /** A replay is a run: it succeeds together with it, in the same state. */
  lemma {:induction false} ReplayIsRun(s: State, blocks: seq<Block>)
    ensures Run(s, EntriesOf(blocks)).Some? <==> Replay(s, blocks).Ok?
    ensures Replay(s, blocks).Ok? ==> Run(s, EntriesOf(blocks)) == Some(Replay(s, blocks).value)
  {
    hide Inserted, Refusal, Accepts;
    if blocks != [] {
      var front, last := blocks[..|blocks| - 1], blocks[|blocks| - 1];
      var entries := EntriesOf(blocks);
      assert entries[..|entries| - 1] == EntriesOf(front);
      ReplayIsRun(s, front);
      if Replay(s, front).Ok? {
        ReplayStep(Replay(s, front).value, last);
      }
    }
  }

  lemma ReplayStep(t: State, b: Block)
    ensures Accepts(t, b.id, b) ==> Replayed(t, b) == Ok(Inserted(t, b.id, b))
    ensures Replayed(t, b).Ok? <==> Accepts(t, b.id, b)
  {
    hide Inserted, HasData;
    NoneMissing(t.nodes, b.parents);
    AcceptedIff(t, NO_POLICY, b.id, b);
    hide Refusal;
  }

  // ----------------------------------------------------------------- the round trip

  /** The total order as a list of entries that can be inserted one after another. */
  lemma OrderPlace(s: State, order: seq<BlockId>, i: nat, p: BlockId) returns (j: nat)
    requires Inv(s) && TopoList(GraphOf(s.nodes), s.nodes.Keys, order) && i < |order| && order[i] in s.nodes
    requires p in s.nodes[order[i]].block.parents
    ensures j < i && order[j] == p
  {
    var g := GraphOf(s.nodes);
    InvParts(s);
    hide Inv, Solves, NodeAt;
    assert g[order[i]].parents == s.nodes[order[i]].block.parents && KnownParents(g, g[order[i]].parents);
    ParentInPast(g, p, order[i]);
    AncestorHasSmallerPast(g, s.genesis, p, order[i]);
    assert p in order;
    j :| 0 <= j < |order| && order[j] == p;
  }

  ghost predicate Listing(s: State, order: seq<BlockId>, stored: seq<Block>) {
    && TopoList(GraphOf(s.nodes), s.nodes.Keys, order) && |stored| == |order| && order != [] && order[0] == s.genesis
    && forall i :: 0 <= i < |order| ==>
      order[i] in s.nodes && stored[i] == Stored(s.nodes[order[i]].block) && stored[i].id == order[i]
  }

  lemma StoredKeeps(b: Block)
    ensures Stored(b).id == b.id && Stored(b).parents == b.parents
  {
  }

  lemma ListingEntryOk(s: State, k: nat, order: seq<BlockId>, stored: seq<Block>, i: nat)
    requires Inv(s) && Listing(s, order, stored) && i < |order| - 1 && s.genesis in s.nodes
    ensures EntryOk(Genesis(k, stored[0]), EntriesOf(stored[1..]), i)
  {
    hide Stored, StoredAll, Inv, EntriesOf;
    var entries, b := EntriesOf(stored[1..]), s.nodes[order[i + 1]].block;
    StoredKeeps(b);
    assert entries[i] == Entry(order[i + 1], stored[i + 1]) && stored[i + 1].parents == b.parents;
    assert forall j :: 0 <= j < |entries| ==> entries[j].id == order[j + 1];
    HasParents(s, order[i + 1]);
    forall p | p in b.parents
      ensures p in Genesis(k, stored[0]).nodes || ListedBefore(entries, i, p)
    {
      var j := OrderPlace(s, order, i + 1, p);
      assert j > 0 ==> entries[j - 1].id == p;
    }
  }

  lemma HasParents(s: State, d: BlockId)
    requires Inv(s) && d in s.nodes && d != s.genesis
    ensures s.nodes[d].block.parents != []
  {
    InvParts(s);
    assert GraphOf(s.nodes)[d].parents == s.nodes[d].block.parents;
  }

  lemma ListingEntries(s: State, order: seq<BlockId>, stored: seq<Block>, e: Entry)
    requires Listing(s, order, stored)
    ensures e == Entry(stored[0].id, stored[0]) || e in EntriesOf(stored[1..]) <==> Holds(BlocksOf(Reread(s).nodes), e)
  {
    hide Stored, EntriesOf;
    var entries := EntriesOf(stored[1..]);
    if e in entries {
      var i :| 0 <= i < |entries| && entries[i] == e;
      assert stored[1..][i] == stored[i + 1] && order[i + 1] in s.nodes;
    }
    if Holds(BlocksOf(Reread(s).nodes), e) {
      assert e.id in order;
      var i :| 0 <= i < |order| && order[i] == e.id;
      assert e == Entry(stored[i].id, stored[i]);
      assert i > 0 ==> stored[1..][i - 1] == stored[i] && entries[i - 1] == e;
    }
  }

  /** Replaying a listing of a state gives the state back. */
  lemma ListingReplays(s: State, order: seq<BlockId>, stored: seq<Block>)
    requires Inv(s) && Listing(s, order, stored) && stored[0].parents == [] && s.genesis in s.nodes
    ensures Replay(Genesis(s.k, stored[0]), stored[1..]) == Ok(Reread(s))
  {
    hide Inv, Listing, Run, Replay, EntriesOf, EntryOk, Reread, Genesis, BlocksOf, Holds;
    ListingLength(s, order, stored);
    var s0, entries := Genesis(s.k, stored[0]), EntriesOf(stored[1..]);
    forall i | 0 <= i < |entries|
      ensures EntryOk(s0, entries, i)
    {
      ListingEntryOk(s, s.k, order, stored, i);
    }
    RunSucceedsIff(s0, entries);
    ReplayIsRun(s0, stored[1..]);
    GenesisInv(s.k, stored[0]);
    RunKeepsInv(s0, entries);
    var t := Run(s0, entries).value;
    RereadFacts(s);
    GenesisBlocks(s.k, stored[0]);
    RereadKeeps(s);
    forall e
      ensures Holds(BlocksOf(t.nodes), e) <==> Holds(BlocksOf(Reread(s).nodes), e)
    {
      RunBlocks(s0, entries, e);
      ListingEntries(s, order, stored, e);
    }
    SameBlocks(BlocksOf(t.nodes), BlocksOf(Reread(s).nodes));
    StateDetermined(t, Reread(s));
  }

  lemma ListingLength(s: State, order: seq<BlockId>, stored: seq<Block>)
    requires Listing(s, order, stored)
    ensures stored != [] && |stored| == |order| && |EntriesOf(stored[1..])| == |order| - 1
    ensures stored[0].id == s.genesis
  {
  }

  lemma GenesisBlocks(k: nat, b: Block)
    ensures Genesis(k, b).k == k && Genesis(k, b).genesis == b.id
    ensures forall e :: Holds(BlocksOf(Genesis(k, b).nodes), e) <==> e == Entry(b.id, b)
  {
  }

  lemma RereadKeeps(s: State)
    ensures Reread(s).k == s.k && Reread(s).genesis == s.genesis
  {
  }

  lemma SameBlocks(a: map<BlockId, Block>, b: map<BlockId, Block>)
    requires forall e :: Holds(a, e) <==> Holds(b, e)
    ensures a == b
  {
    forall d | d in a || d in b
      ensures d in a && d in b && a[d] == b[d]
    {
      var e := Entry(d, if d in a then a[d] else b[d]);
      assert Holds(a, e) <==> Holds(b, e);
    }
  }

  /** Reading a snapshot back restores the whole consensus state: every block, its
      GHOSTDAG data, the tips and the total order. Only a pruned payload stays pruned,
      and an empty one reads back as pruned. */
  lemma SnapshotRoundTrip(c: Crypto, s: State)
    requires Inv(s) && Storable(c, s)
    ensures Restored(c, SnapshotOf(s)) == Ok(Reread(s))
    ensures Inv(Reread(s)) && TotalOrder(Reread(s)) == TotalOrder(s)
    ensures DataMapOf(Reread(s).nodes) == DataMapOf(s.nodes) && Reread(s).tips == s.tips && Reread(s).k == s.k
  {
    hide Inv, Decoded, Framed, Replay, Reread, TotalOrder, TopoList, BlocksAt, StoredAll, Listing, GraphOf, DataMapOf;
    hide Typed, Faithful, StorableAt;
    RereadFacts(s);
    RereadKeeps(s);
    OrderIsTotal(s);
    GenesisFirst(s);
    var order := TotalOrder(s);
    var blocks := BlocksAt(s.nodes, order);
    StorableBlocks(c, s, order, blocks);
    LogRoundTrip(c, s.k, blocks);
    StorableListing(c, s, order, blocks);
    ListingReplays(s, order, StoredAll(blocks));
  }

  lemma StorableBlocks(c: Crypto, s: State, order: seq<BlockId>, blocks: seq<Block>)
    requires Storable(c, s) && (forall d :: d in order ==> d in s.nodes) && blocks == BlocksAt(s.nodes, order)
    ensures forall b :: b in blocks ==> Typed(c, b) && Faithful(c, b)
  {
    hide Typed, Faithful, BlocksAt;
    forall b | b in blocks
      ensures Typed(c, b) && Faithful(c, b)
    {
      var i :| 0 <= i < |blocks| && blocks[i] == b;
      assert order[i] in order && StorableAt(c, s.nodes, order[i]);
    }
  }

  lemma StorableListing(c: Crypto, s: State, order: seq<BlockId>, blocks: seq<Block>)
    requires Inv(s) && Storable(c, s) && TopoList(GraphOf(s.nodes), s.nodes.Keys, order)
    requires order != [] && order[0] == s.genesis && forall d :: d in order <==> d in s.nodes
    requires blocks == BlocksAt(s.nodes, order)
    ensures Listing(s, order, StoredAll(blocks))
    ensures StoredAll(blocks) != [] && StoredAll(blocks)[0].parents == [] && s.genesis in s.nodes
  {
    hide Typed, Faithful, BlocksAt, StoredAll, Stored, Inv, TopoList;
    GenesisStored(s);
    StoredKeeps(s.nodes[s.genesis].block);
    forall i | 0 <= i < |order|
      ensures order[i] in s.nodes && StoredAll(blocks)[i] == Stored(s.nodes[order[i]].block)
      ensures StoredAll(blocks)[i].id == order[i]
    {
      assert order[i] in order && StorableAt(c, s.nodes, order[i]);
      StoredKeeps(s.nodes[order[i]].block);
    }
  }

  lemma GenesisStored(s: State)
    requires Inv(s)
    ensures s.genesis in s.nodes && s.nodes[s.genesis].block.parents == []
  {
    InvParts(s);
    hide Inv, Solves, NodeAt;
    assert GraphOf(s.nodes)[s.genesis].parents == s.nodes[s.genesis].block.parents;
  }

  // ----------------------------------------------------- which states are storable

  lemma GenesisStorable(c: Crypto, k: nat, block: Block)
    requires k <= 0xFFFF && Typed(c, block) && Faithful(c, block)
    ensures Storable(c, Genesis(k, block))
  {
    hide Typed, Faithful;
  }

  /** Inserting a faithful block under its own id, payload pruning included, keeps a
      state storable, so every state of a run of such inserts can be saved. */
  lemma InsertStaysStorable(c: Crypto, s: State, policy: Policy, depth: u64, block: Block)
    requires Inv(s) && Usable(policy) && Storable(c, s) && Typed(c, block) && Faithful(c, block)
    requires |s.nodes| < U64_MAX as nat
    ensures Storable(c, Outcome(s, policy, depth, block.id, block).1)
  {
    hide Inv, Refusal, Inserted, Typed, Faithful, StorableAt, PruningScore, PrunedNodes, HasData;
    AcceptedIff(s, policy, block.id, block);
    if Refusal(s.nodes, policy, block.id, block).None? {
      InsertKeepsInv(s, block.id, block);
      InsertedStorable(c, s, block);
      var t := Inserted(s, block.id, block);
      PrunedStorable(c, t, PruningScore(t, depth));
    }
  }

  lemma OutcomeSize(s: State, policy: Policy, depth: u64, block: Block)
    requires Inv(s) && Usable(policy)
    ensures |Outcome(s, policy, depth, block.id, block).1.nodes| <= |s.nodes| + 1
  {
    hide Inv, Refusal, Inserted, PruningScore, HasData, Accepts;
    AcceptedIff(s, policy, block.id, block);
    if Refusal(s.nodes, policy, block.id, block).None? {
      InsertKeepsInv(s, block.id, block);
      InsertedFacts(s, block.id, block);
      var t := Inserted(s, block.id, block);
      KeysGrow(s.nodes, t.nodes, block.id);
      PrunedSize(t.nodes, PruningScore(t, depth));
    }
  }

  lemma PrunedSize(nodes: Nodes, threshold: nat)
    ensures |PrunedNodes(nodes, threshold)| == |nodes|
  {
    assert PrunedNodes(nodes, threshold).Keys == nodes.Keys;
    hide PrunedNodes;
    assert |PrunedNodes(nodes, threshold)| == |PrunedNodes(nodes, threshold).Keys| && |nodes| == |nodes.Keys|;
  }

  lemma {:induction false} RunIsStorable(
      c: Crypto, k: nat, genesis: Block, policy: Policy, depth: u64, blocks: seq<Block>)
    requires k <= 0xFFFF && genesis.parents == [] && Usable(policy) && |blocks| < U64_MAX as nat
    requires Typed(c, genesis) && Faithful(c, genesis) && forall b :: b in blocks ==> Typed(c, b) && Faithful(c, b)
    ensures Inv(Genesis(k, genesis))
    ensures var t := StateAfter(Genesis(k, genesis), policy, depth, EntriesOf(blocks));
      Storable(c, t) && |t.nodes| <= |blocks| + 1
    decreases |blocks|
  {
    GenesisInv(k, genesis);
    var s := Genesis(k, genesis);
    if blocks == [] {
      hide Storable, Inv;
      GenesisStorable(c, k, genesis);
      assert EntriesOf(blocks) == [] && |s.nodes| == 1;
      assert StateAfter(s, policy, depth, []) == s;
    } else {
      hide Inv, Storable, Outcome, Genesis, Typed, Faithful, EntriesOf;
      var front, last := blocks[..|blocks| - 1], blocks[|blocks| - 1];
      assert last in blocks && forall b :: b in front ==> b in blocks;
      RunIsStorable(c, k, genesis, policy, depth, front);
      EntriesLast(blocks);
      var t := StateAfter(s, policy, depth, EntriesOf(front));
      OutcomeSize(t, policy, depth, last);
      InsertStaysStorable(c, t, policy, depth, last);
    }
  }

  lemma EntriesLast(blocks: seq<Block>)
    requires blocks != []
    ensures var entries, last := EntriesOf(blocks), blocks[|blocks| - 1];
      entries != [] && entries[..|entries| - 1] == EntriesOf(blocks[..|blocks| - 1]) &&
      entries[|entries| - 1] == Entry(last.id, last)
  {
  }

  /** So every DAG grown from genesis by offering well-made blocks, under any policies and
      with payloads pruned or not, can be saved, and reading it back restores it. */
  lemma EveryRunRestores(c: Crypto, k: nat, genesis: Block, policy: Policy, depth: u64, blocks: seq<Block>)
    requires k <= 0xFFFF && genesis.parents == [] && Usable(policy) && |blocks| < U64_MAX as nat
    requires Typed(c, genesis) && Faithful(c, genesis) && forall b :: b in blocks ==> Typed(c, b) && Faithful(c, b)
    ensures Inv(Genesis(k, genesis))
    ensures var t := StateAfter(Genesis(k, genesis), policy, depth, EntriesOf(blocks));
      && Restored(c, SnapshotOf(t)) == Ok(Reread(t)) && Inv(Reread(t))
      && TotalOrder(Reread(t)) == TotalOrder(t) && DataMapOf(Reread(t).nodes) == DataMapOf(t.nodes)
      && Reread(t).tips == t.tips
  {
    hide Inv, Storable, StateAfter, Genesis, Typed, Faithful, Restored, SnapshotOf, Reread, TotalOrder, DataMapOf;
    RunIsStorable(c, k, genesis, policy, depth, blocks);
    SnapshotRoundTrip(c, StateAfter(Genesis(k, genesis), policy, depth, EntriesOf(blocks)));
  }

  lemma InsertedStorable(c: Crypto, s: State, block: Block)
    requires Accepts(s, block.id, block) && Storable(c, s) && Typed(c, block) && Faithful(c, block)
    requires |s.nodes| < U64_MAX as nat
    ensures Storable(c, Inserted(s, block.id, block))
  {
    hide Inserted, Accepts, StorableAt;
    InsertedFacts(s, block.id, block);
    var t := Inserted(s, block.id, block);
    KeysGrow(s.nodes, t.nodes, block.id);
    forall d | d in t.nodes
      ensures StorableAt(c, t.nodes, d)
    {
      StorableKept(c, s, block, d);
    }
  }

  lemma StorableKept(c: Crypto, s: State, block: Block, d: BlockId)
    requires Accepts(s, block.id, block) && Typed(c, block) && Faithful(c, block)
    requires if d == block.id then true else d in s.nodes && StorableAt(c, s.nodes, d)
    ensures d in Inserted(s, block.id, block).nodes && StorableAt(c, Inserted(s, block.id, block).nodes, d)
  {
    hide Inserted, Typed, Faithful, Accepts;
    OldBlocksKept(s, block.id, block);
  }

  lemma KeysGrow(a: Nodes, b: Nodes, id: BlockId)
    requires b.Keys == a.Keys + {id} && id !in a
    ensures |b| == |a| + 1
  {
    assert |b| == |b.Keys| && |a| == |a.Keys|;
  }

  lemma PrunedStorable(c: Crypto, s: State, threshold: nat)
    requires Storable(c, s)
    ensures Storable(c, s.(nodes := PrunedNodes(s.nodes, threshold)))
  {
    hide Typed, Faithful;
    var nodes' := PrunedNodes(s.nodes, threshold);
    assert nodes'.Keys == s.nodes.Keys && |nodes'| == |nodes'.Keys| && |s.nodes| == |s.nodes.Keys|;
    forall d | d in nodes'
      ensures StorableAt(c, nodes', d)
    {
      assert StorableAt(c, s.nodes, d);
      PrunedStaysFaithful(c, s.nodes[d].block);
      PrunedStaysTyped(c, s.nodes[d].block);
    }
  }

  lemma PrunedStaysTyped(c: Crypto, b: Block)
    requires Typed(c, b)
    ensures Typed(c, b.Pruned())
  {
  }
}
