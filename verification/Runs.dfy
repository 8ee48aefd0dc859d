/** Whole runs of inserts: which runs succeed, what the final state depends on, and
    what enforced difficulty guarantees along them. */
module Runs {
  import opened BlockGraph
  import opened Blocks
  import opened Consensus
  import opened Ghostdag
  import opened Wrappers

  datatype Entry = Entry(id: BlockId, block: Block)

  /** Insert the entries in order; `None` as soon as one is refused. */
  ghost function Run(s: State, entries: seq<Entry>): Option<State> {
    if entries == [] then Some(s)
    else
      var last := entries[|entries| - 1];
      match Run(s, entries[..|entries| - 1])
      case None => None
      case Some(t) => if Accepts(t, last.id, last.block) then Some(Inserted(t, last.id, last.block)) else None
  }

  lemma RunStep(s: State, front: seq<Entry>, last: Entry)
    requires Run(s, front + [last]).Some?
    ensures Run(s, front).Some? && Accepts(Run(s, front).value, last.id, last.block)
    ensures Run(s, front + [last]).value == Inserted(Run(s, front).value, last.id, last.block)
  {
    hide Accepts, Inserted;
    assert (front + [last])[..|front|] == front;
  }

  lemma SplitLast(entries: seq<Entry>) returns (front: seq<Entry>, last: Entry)
    requires entries != []
    ensures entries == front + [last] && |front| == |entries| - 1
  {
    front, last := entries[..|entries| - 1], entries[|entries| - 1];
  }

  ghost function BlocksOf(nodes: Nodes): map<BlockId, Block> {
    map d | d in nodes :: nodes[d].block
  }

  lemma InsertedBlocks(s: State, id: BlockId, block: Block)
    requires Accepts(s, id, block)
    ensures BlocksOf(Inserted(s, id, block).nodes) == BlocksOf(s.nodes)[id := block]
  {
    hide NewData, PastOf;
    assert BlocksOf(WithChild(s.nodes, block.parents, id)) == BlocksOf(s.nodes);
  }

  /** Every state of a run satisfies the invariant. */
  lemma {:induction false} RunKeepsInv(s: State, entries: seq<Entry>)
    requires Inv(s) && Run(s, entries).Some?
    ensures var t := Run(s, entries).value; Inv(t) && t.k == s.k && t.genesis == s.genesis
  {
    hide Inv, Inserted, Accepts;
    if entries != [] {
      var last, front := entries[|entries| - 1], entries[..|entries| - 1];
      RunKeepsInv(s, front);
      var t := Run(s, front).value;
      InsertKeepsInv(t, last.id, last.block);
      InsertedFacts(t, last.id, last.block);
    }
  }

  // --------------------------------------------------------- order independence

  /** A state is determined by its parameter, its genesis and its blocks. */
  lemma StateDetermined(s: State, s': State)
    requires Inv(s) && Inv(s') && s.k == s'.k && s.genesis == s'.genesis
    requires BlocksOf(s.nodes) == BlocksOf(s'.nodes)
    ensures s == s'
  {
    hide Inv, Solves, GraphOf, WellFormed, BlocksOf, NodeAt, TipsOf, DataMapOf;
    InvParts(s);
    InvParts(s');
    SameGraph(s, s');
    var g := GraphOf(s.nodes);
    MapDomains(s.nodes);
    MapDomains(s'.nodes);
    forall d | d in s.nodes
      ensures d in s'.nodes && s.nodes[d] == s'.nodes[d]
    {
      SolutionUnique(g, s.genesis, s.k, DataMapOf(s.nodes), DataMapOf(s'.nodes), d);
      SameNode(g, s.nodes, s'.nodes, d);
    }
  }

  lemma SameGraph(s: State, s': State)
    requires BlocksOf(s.nodes) == BlocksOf(s'.nodes)
    ensures GraphOf(s.nodes) == GraphOf(s'.nodes) && s.nodes.Keys == s'.nodes.Keys
  {
    assert s.nodes.Keys == BlocksOf(s.nodes).Keys && s'.nodes.Keys == BlocksOf(s'.nodes).Keys;
    forall d | d in s.nodes
      ensures s.nodes[d].block == s'.nodes[d].block
    {
      assert BlocksOf(s.nodes)[d] == BlocksOf(s'.nodes)[d];
    }
  }

  lemma SameNode(g: Graph, nodes: Nodes, nodes': Nodes, d: BlockId)
    requires d in nodes && d in nodes' && BlocksOf(nodes) == BlocksOf(nodes')
    requires NodeAt(g, nodes, d) && NodeAt(g, nodes', d) && DataMapOf(nodes)[d] == DataMapOf(nodes')[d]
    ensures nodes[d] == nodes'[d]
  {
    assert BlocksOf(nodes)[d] == BlocksOf(nodes')[d];
  }

  ghost predicate Holds(blocks: map<BlockId, Block>, e: Entry) {
    e.id in blocks && blocks[e.id] == e.block
  }

  lemma HoldsMore(blocks: map<BlockId, Block>, last: Entry, e: Entry)
    requires last.id !in blocks
    ensures Holds(blocks[last.id := last.block], e) <==> Holds(blocks, e) || e == last
  {
  }

  lemma ListedMore(front: seq<Entry>, last: Entry, e: Entry)
    ensures e in front + [last] <==> e in front || e == last
  {
  }

  /** The blocks of a finished run are the starting blocks and the entries. */
  lemma {:induction false} RunBlocks(s: State, entries: seq<Entry>, e: Entry)
    requires Run(s, entries).Some?
    ensures Holds(BlocksOf(Run(s, entries).value.nodes), e) <==> Holds(BlocksOf(s.nodes), e) || e in entries
    decreases |entries|
  {
    if entries == [] {
      assert Run(s, entries) == Some(s);
    } else {
      hide Run, Accepts, Inserted, BlocksOf, Holds;
      var front, last := SplitLast(entries);
      RunStep(s, front, last);
      RunBlocks(s, front, e);
      var t := Run(s, front).value;
      InsertedBlocks(t, last.id, last.block);
      FreshEntry(t, last);
      HoldsMore(BlocksOf(t.nodes), last, e);
      ListedMore(front, last, e);
    }
  }

  lemma FreshEntry(t: State, e: Entry)
    requires Accepts(t, e.id, e.block)
    ensures e.id !in BlocksOf(t.nodes)
  {
  }

  /** Consensus is order-independent: any two successful runs over the same blocks
      end in the same state, hence the same data, tips and total order. */
  lemma OrderIndependence(k: nat, genesis: Block, e1: seq<Entry>, e2: seq<Entry>)
    requires genesis.parents == []
    requires Run(Genesis(k, genesis), e1).Some? && Run(Genesis(k, genesis), e2).Some?
    requires forall e :: e in e1 <==> e in e2
    ensures Run(Genesis(k, genesis), e1) == Run(Genesis(k, genesis), e2)
    ensures Inv(Run(Genesis(k, genesis), e1).value)
    ensures TotalOrder(Run(Genesis(k, genesis), e1).value) == TotalOrder(Run(Genesis(k, genesis), e2).value)
  {
    hide Inv, Run, Inserted, Accepts, TotalOrder, SelectedTip, Genesis;
    var s := Genesis(k, genesis);
    GenesisInv(k, genesis);
    RunKeepsInv(s, e1);
    RunKeepsInv(s, e2);
    var b1, b2 := BlocksOf(Run(s, e1).value.nodes), BlocksOf(Run(s, e2).value.nodes);
    forall id | id in b1 || id in b2
      ensures id in b1 && id in b2 && b1[id] == b2[id]
    {
      var e := Entry(id, if id in b1 then b1[id] else b2[id]);
      RunBlocks(s, e1, e);
      RunBlocks(s, e2, e);
    }
    assert b1 == b2;
    StateDetermined(Run(s, e1).value, Run(s, e2).value);
  }

  /** The block at `i` is new, and its parents came before it. */
  ghost predicate EntryOk(s: State, entries: seq<Entry>, i: nat)
    requires i < |entries|
  {
    && entries[i].id !in s.nodes && (forall j :: 0 <= j < i ==> entries[j].id != entries[i].id)
    && entries[i].block.parents != []
    && forall p :: p in entries[i].block.parents ==> p in s.nodes || ListedBefore(entries, i, p)
  }

  ghost predicate ListedBefore(entries: seq<Entry>, i: nat, p: BlockId)
    requires i <= |entries|
  {
    exists j :: 0 <= j < i && entries[j].id == p
  }

  lemma ListedLast(front: seq<Entry>, last: Entry, p: BlockId)
    ensures ListedBefore(front + [last], |front| + 1, p) <==> ListedBefore(front, |front|, p) || p == last.id
    ensures ListedBefore(front + [last], |front|, p) <==> ListedBefore(front, |front|, p)
  {
    assert (front + [last])[|front|] == last;
    assert forall j :: 0 <= j < |front| ==> (front + [last])[j] == front[j];
  }

  lemma {:induction false} RunNodes(s: State, entries: seq<Entry>, p: BlockId)
    requires Run(s, entries).Some?
    ensures p in Run(s, entries).value.nodes <==> p in s.nodes || ListedBefore(entries, |entries|, p)
    decreases |entries|
  {
    if entries == [] {
      assert Run(s, entries) == Some(s);
    } else {
      hide Run, Accepts, Inserted, ListedBefore;
      var front, last := SplitLast(entries);
      RunStep(s, front, last);
      RunNodes(s, front, p);
      InsertedFacts(Run(s, front).value, last.id, last.block);
      ListedLast(front, last, p);
    }
  }

  lemma LastEntryOk(s: State, entries: seq<Entry>, t: State)
    requires entries != [] && Run(s, entries[..|entries| - 1]) == Some(t)
    ensures Accepts(t, entries[|entries| - 1].id, entries[|entries| - 1].block) <==> EntryOk(s, entries, |entries| - 1)
  {
    hide Run;
    var front, last := SplitLast(entries);
    assert entries[..|entries| - 1] == front;
    forall p
      ensures p in t.nodes <==> p in s.nodes || ListedBefore(entries, |front|, p)
    {
      RunNodes(s, front, p);
      ListedLast(front, last, p);
    }
    assert last.id in t.nodes <==> last.id in s.nodes || ListedBefore(entries, |front|, last.id);
  }

  lemma FrontEntryOk(s: State, entries: seq<Entry>, i: nat)
    requires i < |entries| - 1
    ensures EntryOk(s, entries[..|entries| - 1], i) <==> EntryOk(s, entries, i)
  {
    var front := entries[..|entries| - 1];
    assert forall j :: 0 <= j < |front| ==> entries[j] == front[j];
    assert forall p :: ListedBefore(front, i, p) <==> ListedBefore(entries, i, p);
  }

  /** A run succeeds exactly when every block is new and follows its parents. */
  lemma {:induction false} RunSucceedsIff(s: State, entries: seq<Entry>)
    ensures Run(s, entries).Some? <==> forall i :: 0 <= i < |entries| ==> EntryOk(s, entries, i)
  {
    hide EntryOk, Accepts, Inserted;
    if entries != [] {
      var front := entries[..|entries| - 1];
      RunSucceedsIff(s, front);
      forall i | 0 <= i < |front|
        ensures EntryOk(s, front, i) <==> EntryOk(s, entries, i)
      {
        FrontEntryOk(s, entries, i);
      }
      if Run(s, front).Some? {
        LastEntryOk(s, entries, Run(s, front).value);
      }
    }
  }
}
