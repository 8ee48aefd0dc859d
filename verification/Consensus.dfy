/** The DAG as an abstract state machine: what inserting one block does, what every
    state keeps, and why the order of insertion does not matter. */
module Consensus {
  import opened BlockGraph
  import opened Blocks
  import opened Ghostdag
  import opened KCluster
  import opened Ordering
  import opened TopoOrder
  import opened Words
  import opened Wrappers

  datatype Node = Node(block: Block, pastSize: nat, children: set<BlockId>, ghostdag: GhostdagData)

  type Nodes = map<BlockId, Node>

  datatype State = State(k: nat, genesis: BlockId, nodes: Nodes, tips: set<BlockId>)

  datatype DagError =
    | DuplicateBlock(id: BlockId)
    | MissingParent(parent: BlockId)
    | NoParents(id: BlockId)
    | DifficultyMismatch(id: BlockId, expected: u128, actual: u128)
    | NonMonotonicTimestamp(id: BlockId, timestampMs: u64, parentTimestampMs: u64)
    | InsufficientProofOfWork(id: BlockId, work: u128)

  function GraphOf(nodes: Nodes): Graph {
    map d | d in nodes :: nodes[d].block.ToVertex()
  }

  function DataMapOf(nodes: Nodes): DataMap {
    map d | d in nodes :: nodes[d].ghostdag
  }

  function ChildrenIn(g: Graph, d: BlockId): set<BlockId> {
    set c | c in g && d in g[c].parents
  }

  // ------------------------------------------------------------------- invariant

  /** Every stored number and set is the true one. */
  ghost predicate NodeAt(g: Graph, nodes: Nodes, d: BlockId) {
    d in nodes && nodes[d].pastSize == |Past(g, d)| && nodes[d].children == ChildrenIn(g, d)
  }

  ghost predicate Inv(s: State) {
    && Solves(GraphOf(s.nodes), s.genesis, s.k, DataMapOf(s.nodes))
    && (forall d :: d in s.nodes ==> NodeAt(GraphOf(s.nodes), s.nodes, d))
    && s.tips == TipsOf(GraphOf(s.nodes))
  }

  function TipsOf(g: Graph): set<BlockId> {
    set d | d in g && ChildrenIn(g, d) == {}
  }

  lemma InvParts(s: State)
    requires Inv(s)
    ensures Solves(GraphOf(s.nodes), s.genesis, s.k, DataMapOf(s.nodes))
    ensures WellFormed(GraphOf(s.nodes), s.genesis)
    ensures forall d :: d in s.nodes ==> NodeAt(GraphOf(s.nodes), s.nodes, d)
    ensures s.tips == TipsOf(GraphOf(s.nodes)) && s.tips <= s.nodes.Keys && s.genesis in s.nodes
  {
  }

  lemma MapDomains(nodes: Nodes)
    ensures GraphOf(nodes).Keys == nodes.Keys && DataMapOf(nodes).Keys == nodes.Keys
  {
  }

  // ------------------------------------------------------------------- one insert

  function Genesis(k: nat, block: Block): State {
    State(k, block.id, map[block.id := Node(block, 0, {}, GENESIS_DATA)], {block.id})
  }

  /** The structural checks, in the order they are made. */
  ghost predicate Accepts(s: State, id: BlockId, block: Block) {
    id !in s.nodes && block.parents != [] && forall p :: p in block.parents ==> p in s.nodes
  }

  ghost function NewData(s: State, block: Block): GhostdagData
    requires HasData(DataMapOf(s.nodes), block.parents)
  {
    DataOf(GraphOf(s.nodes), s.k, DataMapOf(s.nodes), block.parents)
  }

  ghost function Inserted(s: State, id: BlockId, block: Block): State
    requires Accepts(s, id, block)
  {
    var data := NewData(s, block);
    var size := |PastOf(GraphOf(s.nodes), block.parents)|;
    State(
      s.k, s.genesis,
      WithChild(s.nodes, block.parents, id)[id := Node(block, size, {}, data)],
      s.tips - SetOf(block.parents) + {id})
  }

  /** `id` joins the children of each listed block. */
  ghost function WithChild(nodes: Nodes, parents: seq<BlockId>, id: BlockId): Nodes {
    map d | d in nodes ::
      if d in parents then nodes[d].(children := nodes[d].children + {id}) else nodes[d]
  }

  lemma WithChildGraph(nodes: Nodes, parents: seq<BlockId>, id: BlockId)
    ensures GraphOf(WithChild(nodes, parents, id)) == GraphOf(nodes)
    ensures DataMapOf(WithChild(nodes, parents, id)) == DataMapOf(nodes)
  {
  }

  lemma AddedGraph(nodes: Nodes, id: BlockId, node: Node)
    ensures GraphOf(nodes[id := node]) == GraphOf(nodes)[id := node.block.ToVertex()]
    ensures DataMapOf(nodes[id := node]) == DataMapOf(nodes)[id := node.ghostdag]
  {
  }

  lemma InsertedGraph(s: State, id: BlockId, block: Block)
    requires Accepts(s, id, block)
    ensures var g' := GraphOf(Inserted(s, id, block).nodes);
      g' == GraphOf(s.nodes)[id := block.ToVertex()] && Grows(GraphOf(s.nodes), id, block.ToVertex(), g')
    ensures DataMapOf(Inserted(s, id, block).nodes) == DataMapOf(s.nodes)[id := NewData(s, block)]
  {
    WithChildGraph(s.nodes, block.parents, id);
    AddedGraph(
      WithChild(s.nodes, block.parents, id), id,
      Node(block, |PastOf(GraphOf(s.nodes), block.parents)|, {}, NewData(s, block)));
    assert GraphOf(s.nodes).Keys == s.nodes.Keys;
    hide WithChild, GraphOf, DataMapOf, NewData;
  }

  lemma InsertedFacts(s: State, id: BlockId, block: Block)
    requires Accepts(s, id, block)
    ensures var s' := Inserted(s, id, block);
      && s'.k == s.k && s'.genesis == s.genesis && s'.nodes.Keys == s.nodes.Keys + {id}
      && s'.tips == s.tips - SetOf(block.parents) + {id} && id !in SetOf(block.parents) && id !in s.nodes
    ensures block.parents != [] && block.ToVertex().parents == block.parents
    ensures HasData(DataMapOf(s.nodes), block.parents)
  {
  }

  lemma OldDataKept(s: State, id: BlockId, block: Block)
    requires Accepts(s, id, block)
    ensures forall b :: b in DataMapOf(s.nodes) ==>
      b in DataMapOf(Inserted(s, id, block).nodes) && DataMapOf(Inserted(s, id, block).nodes)[b] == DataMapOf(s.nodes)[b]
  {
    InsertedGraph(s, id, block);
    MapDomains(s.nodes);
    hide Inserted, GraphOf, DataMapOf, NewData;
  }

  // ---------------------------------------------- growth keeps the local equation

  lemma MergesetKept(g: Graph, genesis: BlockId, id: BlockId, v: Vertex, g': Graph, sp: BlockId, parents: seq<BlockId>)
    requires WellFormed(g, genesis) && Grows(g, id, v, g') && KnownParents(g, parents) && sp in g
    ensures Mergeset(g', sp, parents) == Mergeset(g, sp, parents)
    ensures forall c :: c in Mergeset(g, sp, parents) ==> c in g
  {
    PastOfKeptByGrowth(g, genesis, id, v, g', parents);
    PastKeptByGrowth(g, genesis, id, v, g', sp);
    var merged := MergedSet(g, sp, parents);
    forall b | b in merged
      ensures |Past(g, b)| == |Past(g', b)|
    {
      PastKeptByGrowth(g, genesis, id, v, g', b);
    }
    OrderUnique(g, g', merged, TopoSorted(g, merged), TopoSorted(g', merged));
  }

  lemma AnticoneKept(g: Graph, genesis: BlockId, id: BlockId, v: Vertex, g': Graph)
    requires WellFormed(g, genesis) && Grows(g, id, v, g')
    ensures forall a, b :: a in g && b in g ==> (Anticone(g, a, b) <==> Anticone(g', a, b))
  {
    forall a, b | a in g && b in g
      ensures Anticone(g, a, b) <==> Anticone(g', a, b)
    {
      PastKeptByGrowth(g, genesis, id, v, g', a);
      PastKeptByGrowth(g, genesis, id, v, g', b);
    }
  }

  lemma ColouredKept(
      g: Graph, genesis: BlockId, k: nat, gd: DataMap, id: BlockId, v: Vertex, g': Graph, parents: seq<BlockId>)
    requires Solves(g, genesis, k, gd) && Grows(g, id, v, g') && HasData(gd, parents)
    ensures Coloured(g', k, gd, parents) == Coloured(g, k, gd, parents)
    ensures SumWork(g', Coloured(g, k, gd, parents).blues) == SumWork(g, Coloured(g, k, gd, parents).blues)
  {
    var sp := Heaviest(gd, parents);
    assert sp in g && KnownParents(g, parents);
    MergesetKept(g, genesis, id, v, g', sp, parents);
    AnticoneKept(g, genesis, id, v, g');
    EveryBlockIsCluster(g, genesis, k, gd, sp);
    var st, ms := Start(gd, sp), Mergeset(g, sp, parents);
    hide Solves, Heaviest, Mergeset, Past, Anticone, Colour;
    ColourAgrees(g, g', k, st, ms, g.Keys);
    ColourBluesListed(g, k, st, ms);
    SumWorkAgrees(g, g', Colour(g, k, st, ms).blues);
  }

  lemma DataOfKept(
      g: Graph, genesis: BlockId, k: nat, gd: DataMap, id: BlockId, v: Vertex, g': Graph, gd': DataMap,
      parents: seq<BlockId>)
    requires Solves(g, genesis, k, gd) && Grows(g, id, v, g')
    requires HasData(gd, parents) && HasData(gd', parents) && forall p :: p in parents ==> gd'[p] == gd[p]
    ensures DataOf(g', k, gd', parents) == DataOf(g, k, gd, parents)
  {
    hide Coloured, Heaviest, Solves, Grows, SumWork;
    VertexKept(g, genesis, k, gd, id, v, g', Heaviest(gd, parents));
    ColouredKept(g, genesis, k, gd, id, v, g', parents);
    DataOfAgrees(g', k, gd', gd, parents);
  }

  lemma VertexKept(
      g: Graph, genesis: BlockId, k: nat, gd: DataMap, id: BlockId, v: Vertex, g': Graph, d: BlockId)
    requires Solves(g, genesis, k, gd) && Grows(g, id, v, g') && d in gd
    ensures d in g && d in g' && g'[d] == g[d]
  {
  }

  lemma {:induction false} ColourBluesListed(g: Graph, k: nat, st: Colouring, ms: seq<BlockId>)
    requires st.blues == []
    ensures forall b :: b in Colour(g, k, st, ms).blues ==> b in ms
  {
    if ms != [] {
      var front := ms[..|ms| - 1];
      ColourBluesListed(g, k, st, front);
      assert forall b :: b in front ==> b in ms;
      assert ms[|ms| - 1] in ms;
    }
  }

  lemma GrowthSolves(
      g: Graph, genesis: BlockId, k: nat, gd: DataMap, id: BlockId, v: Vertex, g': Graph, gd': DataMap)
    requires Solves(g, genesis, k, gd) && Grows(g, id, v, g') && v.parents != []
    requires HasData(gd, v.parents) && gd' == gd[id := DataOf(g, k, gd, v.parents)]
    ensures Solves(g', genesis, k, gd')
  {
    GrowthKeepsWellFormed(g, genesis, id, v, g');
    forall d | d in g'
      ensures DataAt(g', genesis, k, gd', d)
    {
      if d == id {
        DataOfKept(g, genesis, k, gd, id, v, g', gd', v.parents);
      } else {
        assert DataAt(g, genesis, k, gd, d) && KnownParents(g, g[d].parents);
        if d != genesis {
          DataOfKept(g, genesis, k, gd, id, v, g', gd', g[d].parents);
        }
      }
    }
  }

  lemma ChildrenGrow(g: Graph, id: BlockId, v: Vertex, g': Graph, d: BlockId)
    requires Grows(g, id, v, g') && d in g
    ensures ChildrenIn(g', d) == if d in v.parents then ChildrenIn(g, d) + {id} else ChildrenIn(g, d)
  {
  }

  lemma NewBlockIsChildless(g: Graph, genesis: BlockId, id: BlockId, v: Vertex, g': Graph)
    requires WellFormed(g, genesis) && Grows(g, id, v, g')
    ensures ChildrenIn(g', id) == {}
  {
    assert forall c :: c in g ==> KnownParents(g, g[c].parents);
  }

  lemma NodeGrows(s: State, id: BlockId, block: Block, g: Graph, g': Graph, d: BlockId)
    requires Accepts(s, id, block) && Grows(g, id, block.ToVertex(), g') && d in s.nodes && d in g
    requires NodeAt(g, s.nodes, d) && Past(g', d) == Past(g, d)
    ensures NodeAt(g', Inserted(s, id, block).nodes, d)
    ensures d in SetOf(block.parents) ==> ChildrenIn(g', d) != {}
    ensures d !in SetOf(block.parents) ==> ChildrenIn(g', d) == ChildrenIn(g, d)
  {
    hide NewData, PastOf, Past;
    ChildrenGrow(g, id, block.ToVertex(), g', d);
  }

  lemma NewNodeAt(s: State, id: BlockId, block: Block, g: Graph, g': Graph)
    requires Accepts(s, id, block) && WellFormed(g, s.genesis) && Grows(g, id, block.ToVertex(), g')
    requires g == GraphOf(s.nodes)
    ensures NodeAt(g', Inserted(s, id, block).nodes, id) && ChildrenIn(g', id) == {}
  {
    GrowthKeepsWellFormed(g, s.genesis, id, block.ToVertex(), g');
    NewBlockIsChildless(g, s.genesis, id, block.ToVertex(), g');
    hide WellFormed, ChildrenIn, NewData, GraphOf;
  }

  lemma NodesGrow(s: State, id: BlockId, block: Block, g: Graph, g': Graph)
    requires Accepts(s, id, block) && WellFormed(g, s.genesis) && Grows(g, id, block.ToVertex(), g')
    requires g == GraphOf(s.nodes) && forall d :: d in s.nodes ==> NodeAt(g, s.nodes, d)
    ensures forall d :: d in g' ==> NodeAt(g', Inserted(s, id, block).nodes, d)
    ensures forall d :: d in g && d in SetOf(block.parents) ==> ChildrenIn(g', d) != {}
    ensures forall d :: d in g && d !in SetOf(block.parents) ==> ChildrenIn(g', d) == ChildrenIn(g, d)
    ensures ChildrenIn(g', id) == {}
  {
    hide WellFormed, Past, PastOf, NewData, NodeAt, Inserted, ChildrenIn, SetOf;
    GrowthKeepsWellFormed(g, s.genesis, id, block.ToVertex(), g');
    NewNodeAt(s, id, block, g, g');
    MapDomains(s.nodes);
    forall d | d in g
      ensures NodeAt(g', Inserted(s, id, block).nodes, d)
      ensures d in SetOf(block.parents) ==> ChildrenIn(g', d) != {}
      ensures d !in SetOf(block.parents) ==> ChildrenIn(g', d) == ChildrenIn(g, d)
    {
      NodeGrows(s, id, block, g, g', d);
    }
  }

  lemma TipsGrow(g: Graph, g': Graph, tips: set<BlockId>, parents: set<BlockId>, id: BlockId)
    requires tips == TipsOf(g) && g'.Keys == g.Keys + {id} && id !in g && ChildrenIn(g', id) == {}
    requires forall d :: d in g && d in parents ==> ChildrenIn(g', d) != {}
    requires forall d :: d in g && d !in parents ==> ChildrenIn(g', d) == ChildrenIn(g, d)
    requires id !in parents
    ensures tips - parents + {id} == TipsOf(g')
  {
    hide ChildrenIn;
  }

  /** Inserting an acceptable block keeps the invariant. */
  lemma InsertKeepsInv(s: State, id: BlockId, block: Block)
    requires Inv(s) && Accepts(s, id, block)
    ensures Inv(Inserted(s, id, block))
  {
    InvParts(s);
    InsertedFacts(s, id, block);
    InsertedGraph(s, id, block);
    hide Solves, NodeAt, TipsOf, ChildrenIn, NewData, GraphOf, DataMapOf, WellFormed, Inserted, SetOf, Accepts, Grows;
    hide HasData;
    var g, gd, v := GraphOf(s.nodes), DataMapOf(s.nodes), block.ToVertex();
    var s' := Inserted(s, id, block);
    var g', gd' := GraphOf(s'.nodes), DataMapOf(s'.nodes);
    MapDomains(s.nodes);
    MapDomains(s'.nodes);
    GrowthSolves(g, s.genesis, s.k, gd, id, v, g', gd');
    NodesGrow(s, id, block, g, g');
    TipsGrow(g, g', s.tips, SetOf(block.parents), id);
  }

  lemma GenesisInv(k: nat, block: Block)
    requires block.parents == []
    ensures Inv(Genesis(k, block))
  {
    var s := Genesis(k, block);
    var g, id := GraphOf(s.nodes), block.id;
    assert g == map[id := block.ToVertex()];
    forall a, d, n: nat
      ensures !ReachesIn(g, a, d, n)
    {
    }
    assert Past(g, id) == {};
    assert DataAt(g, id, k, DataMapOf(s.nodes), id);
  }

  // ----------------------------------------------------------- tips and the order

  ghost predicate IsSelectedTip(s: State, t: BlockId) {
    && t in s.tips && t in s.nodes
    && forall u :: u in s.tips && u in s.nodes && u != t ==> Lighter(DataMapOf(s.nodes), u, t)
  }

  /** The selected tip outweighs every other block of the DAG. */
  lemma TipOutweighsAll(s: State, t: BlockId, d: BlockId)
    requires Inv(s) && IsSelectedTip(s, t) && d in s.nodes
    ensures d == t || Lighter(DataMapOf(s.nodes), d, t)
    decreases |GraphOf(s.nodes)| - |Past(GraphOf(s.nodes), d)|
  {
    hide Inv, Lighter, GraphOf, DataMapOf;
    MapDomains(s.nodes);
    if d !in s.tips {
      var c := ChildOutweighs(s, d);
      TipOutweighsAll(s, t, c);
      if c != t {
        LighterTransitive(DataMapOf(s.nodes), d, c, t);
      }
    }
  }

  /** A block that is no tip has a heavier child, further up. */
  lemma ChildOutweighs(s: State, d: BlockId) returns (c: BlockId)
    requires Inv(s) && d in s.nodes && d !in s.tips
    ensures c in s.nodes && d in DataMapOf(s.nodes) && c in DataMapOf(s.nodes) && Lighter(DataMapOf(s.nodes), d, c)
    ensures |Past(GraphOf(s.nodes), d)| < |Past(GraphOf(s.nodes), c)| <= |GraphOf(s.nodes)|
  {
    hide Inv, Lighter, GraphOf, DataMapOf, Solves, NodeAt, WellFormed, Past;
    InvParts(s);
    MapDomains(s.nodes);
    var g := GraphOf(s.nodes);
    c :| c in ChildrenIn(g, d);
    ParentIsLighter(g, s.genesis, s.k, DataMapOf(s.nodes), d, c);
    ParentInPast(g, d, c);
    AncestorHasSmallerPast(g, s.genesis, d, c);
    PastInGraph(g, c);
    SubsetSize(Past(g, c), g.Keys);
    assert |g| == |g.Keys|;
  }

  lemma PastInGraph(g: Graph, d: BlockId)
    ensures Past(g, d) <= g.Keys
  {
  }

  ghost predicate HeaviestIn(gd: DataMap, s: set<BlockId>, t: BlockId)
    requires forall b :: b in s ==> b in gd
  {
    t in s && forall u :: u in s && u != t ==> Lighter(gd, u, t)
  }

  lemma LighterTransitive(gd: DataMap, a: BlockId, b: BlockId, c: BlockId)
    requires a in gd && b in gd && c in gd && Lighter(gd, a, b) && Lighter(gd, b, c)
    ensures Lighter(gd, a, c)
  {
  }

  lemma LighterTotal(gd: DataMap, a: BlockId, b: BlockId)
    requires a in gd && b in gd && a != b
    ensures Lighter(gd, a, b) || Lighter(gd, b, a)
  {
  }

  lemma {:induction false} HeaviestOfSet(gd: DataMap, s: set<BlockId>) returns (t: BlockId)
    requires s != {} && forall b :: b in s ==> b in gd
    ensures HeaviestIn(gd, s, t)
  {
    var x :| x in s;
    hide Lighter;
    if s == {x} {
      t := x;
    } else {
      var h := HeaviestOfSet(gd, s - {x});
      LighterTotal(gd, h, x);
      t := if Lighter(gd, h, x) then x else h;
      forall u | u in s && u != t
        ensures Lighter(gd, u, t)
      {
        if u != x && u != h {
          assert u in s - {x};
          if t == x {
            LighterTransitive(gd, u, h, x);
          }
        }
      }
    }
  }

  /** A finite acyclic graph has a tip. */
  lemma {:induction false} SomeTip(s: State, d: BlockId) returns (t: BlockId)
    requires Inv(s) && d in s.nodes
    ensures t in s.tips && t in s.nodes
    decreases |GraphOf(s.nodes)| - |Past(GraphOf(s.nodes), d)|
  {
    var g := GraphOf(s.nodes);
    if d in s.tips {
      t := d;
    } else {
      var c :| c in ChildrenIn(g, d);
      ParentInPast(g, d, c);
      AncestorHasSmallerPast(g, s.genesis, d, c);
      SubsetSize(Past(g, c), g.Keys);
      assert |g| == |g.Keys|;
      t := SomeTip(s, c);
    }
  }

  lemma SelectedTipExists(s: State)
    requires Inv(s)
    ensures exists t :: IsSelectedTip(s, t)
  {
    var t0 := SomeTip(s, s.genesis);
    var t := HeaviestOfSet(DataMapOf(s.nodes), s.tips);
    assert IsSelectedTip(s, t);
  }

  ghost function SelectedTip(s: State): (t: BlockId)
    requires Inv(s)
    ensures IsSelectedTip(s, t)
  {
    SelectedTipExists(s);
    var t :| IsSelectedTip(s, t);
    t
  }

  lemma SelectedTipUnique(s: State, t: BlockId)
    requires Inv(s) && IsSelectedTip(s, t)
    ensures t == SelectedTip(s)
  {
  }

  /** The total order of a state. */
  ghost function TotalOrder(s: State): seq<BlockId>
    requires Inv(s)
  {
    Linearized(GraphOf(s.nodes), DataMapOf(s.nodes), SelectedTip(s))
  }

  lemma {:induction false} OrderKept(
      g: Graph, genesis: BlockId, k: nat, gd: DataMap, id: BlockId, v: Vertex, g': Graph, gd': DataMap, d: BlockId)
    requires Solves(g, genesis, k, gd) && Grows(g, id, v, g') && d in g
    requires forall b :: b in gd ==> b in gd' && gd'[b] == gd[b]
    ensures OrderOf(g', gd', d) == OrderOf(g, gd, d)
    decreases |Past(g, d)|
  {
    ParentGuard(g, genesis, k, gd, d);
    PastKeptByGrowth(g, genesis, id, v, g', d);
    if d != genesis {
      var sp, ms := Unfold(g, genesis, k, gd, d);
      PastKeptByGrowth(g, genesis, id, v, g', sp);
      assert KnownParents(g, g[d].parents);
      MergesetKept(g, genesis, id, v, g', sp, g[d].parents);
      OrderKept(g, genesis, k, gd, id, v, g', gd', sp);
    }
  }

  lemma ChildOfTipSelectsIt(s: State, block: Block, t: BlockId)
    requires Inv(s) && IsSelectedTip(s, t) && t in block.parents && forall p :: p in block.parents ==> p in s.nodes
    ensures Heaviest(DataMapOf(s.nodes), block.parents) == t
  {
    hide Inv, Lighter, DataMapOf, Heaviest;
    MapDomains(s.nodes);
    forall p | p in block.parents
      ensures p == t || Lighter(DataMapOf(s.nodes), p, t)
    {
      TipOutweighsAll(s, t, p);
    }
    var h := Heaviest(DataMapOf(s.nodes), block.parents);
    if h != t {
      LighterAsymmetric(DataMapOf(s.nodes), h, t);
    }
  }

  lemma LighterAsymmetric(gd: DataMap, a: BlockId, b: BlockId)
    requires a in gd && b in gd && Lighter(gd, a, b)
    ensures !Lighter(gd, b, a)
  {
  }

  lemma OldTipIsLighter(s: State, id: BlockId, block: Block, t: BlockId, u: BlockId)
    requires Inv(s) && Accepts(s, id, block) && IsSelectedTip(s, t) && u in s.nodes
    requires id in DataMapOf(Inserted(s, id, block).nodes) && Lighter(DataMapOf(Inserted(s, id, block).nodes), t, id)
    ensures Lighter(DataMapOf(Inserted(s, id, block).nodes), u, id)
  {
    var gd, gd' := DataMapOf(s.nodes), DataMapOf(Inserted(s, id, block).nodes);
    InsertedGraph(s, id, block);
    TipOutweighsAll(s, t, u);
    hide Lighter, Inv, NewData, Inserted;
    LighterAgrees(gd, gd', u, t);
    if u != t {
      LighterTransitive(gd', u, t, id);
    }
  }

  lemma NewTip(s: State, id: BlockId, block: Block, t: BlockId)
    requires Inv(s) && Accepts(s, id, block) && IsSelectedTip(s, t) && t in block.parents
    ensures IsSelectedTip(Inserted(s, id, block), id)
  {
    hide Lighter, Inv, Inserted, Solves, GraphOf, DataMapOf, NodeAt, TipsOf, WellFormed, SetOf, NewData;
    var s' := Inserted(s, id, block);
    InsertKeepsInv(s, id, block);
    InsertedFacts(s, id, block);
    InsertedGraph(s, id, block);
    InvParts(s');
    MapDomains(s'.nodes);
    ParentIsLighter(GraphOf(s'.nodes), s.genesis, s.k, DataMapOf(s'.nodes), t, id);
    forall u | u in s'.tips && u in s'.nodes && u != id
      ensures Lighter(DataMapOf(s'.nodes), u, id)
    {
      OldTipIsLighter(s, id, block, t, u);
    }
  }

  lemma LighterAgrees(gd: DataMap, gd': DataMap, a: BlockId, b: BlockId)
    requires a in gd && b in gd && a in gd' && b in gd' && gd[a] == gd'[a] && gd[b] == gd'[b]
    ensures Lighter(gd, a, b) == Lighter(gd', a, b)
  {
  }

  /** A block built on the selected tip becomes the selected tip, and the new total
      order begins with the whole order of the old tip. */
  lemma BuildingOnTip(s: State, id: BlockId, block: Block)
    requires Inv(s) && Accepts(s, id, block) && SelectedTip(s) in block.parents
    ensures Inv(Inserted(s, id, block)) && SelectedTip(Inserted(s, id, block)) == id
    ensures OrderOf(GraphOf(s.nodes), DataMapOf(s.nodes), SelectedTip(s)) <= TotalOrder(Inserted(s, id, block))
  {
    hide OrderOf, Inv, Inserted, HasParent, Solves, GraphOf, DataMapOf, NodeAt, TipsOf, WellFormed, NewData, Lighter;
    var s', t := Inserted(s, id, block), SelectedTip(s);
    var g, gd, g', gd' := GraphOf(s.nodes), DataMapOf(s.nodes), GraphOf(s'.nodes), DataMapOf(s'.nodes);
    InsertKeepsInv(s, id, block);
    InvParts(s);
    InsertedGraph(s, id, block);
    OldDataKept(s, id, block);
    MapDomains(s.nodes);
    assert t in g;
    NewTip(s, id, block, t);
    SelectedTipUnique(s', id);
    NewTipParent(s, id, block, t);
    OrderKept(g, s.genesis, s.k, gd, id, block.ToVertex(), g', gd', t);
    OrderExtends(g', gd', id);
  }

  lemma NewTipParent(s: State, id: BlockId, block: Block, t: BlockId)
    requires Inv(s) && Accepts(s, id, block) && IsSelectedTip(s, t) && t in block.parents
    ensures var s' := Inserted(s, id, block);
      HasParent(GraphOf(s'.nodes), DataMapOf(s'.nodes), id) && DataMapOf(s'.nodes)[id].selectedParent == Some(t)
  {
    var s' := Inserted(s, id, block);
    InsertKeepsInv(s, id, block);
    InsertedGraph(s, id, block);
    ChildOfTipSelectsIt(s, block, t);
    assert id != s.genesis && DataMapOf(s'.nodes)[id].selectedParent == Some(t);
    ParentGuard(GraphOf(s'.nodes), s.genesis, s.k, DataMapOf(s'.nodes), id);
  }
}
