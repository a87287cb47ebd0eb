/** The landing page's demo canvas: a palette of three blocks, a drop that appends a node for a
    palette block, and ReactFlow's own change handlers on local node and edge lists. */
module LandingPageSimulator {
  import opened Wrappers
  import opened Graph
  import opened FlowChanges
  import opened Text
  import Seqs
  import IdCounter
  import FunnelEditor

  /** A palette entry; the icon is given by its name. */
  datatype MiniBlock = MiniBlock(kind: string, title: string, icon: string, color: string)

  /** `miniBlockTypes`. */
  const MiniBlockTypes: seq<MiniBlock> := [
    MiniBlock("landing-page", "Página de Captura", "FileText", "text-emerald-500"),
    MiniBlock("vsl", "VSL", "PlaySquare", "text-red-500"),
    MiniBlock("sales-page", "Página de Vendas", "ShoppingCart", "text-green-500")
  ]

  /** The simulator's ids are `lp-node_0`, `lp-node_1`, … */
  const IdPrefix: string := "lp-node_"
  const FirstId: nat := 0

  /** The first id the simulator hands out. */
  lemma FirstSimulatorId()
    ensures IdPrefix + NatToString(FirstId) == "lp-node_0"
  {
  }

  /** `miniBlockTypes.find(b => b.type === type)`. */
  function FindMiniBlock(kind: string): (r: Option<MiniBlock>)
    ensures r.Some? ==> r.value in MiniBlockTypes && r.value.kind == kind
  {
    Seqs.FindFirst(MiniBlockTypes, (b: MiniBlock) => b.kind == kind)
  }

  /** A drop goes ahead with the wrapper and instance mounted and a payload naming a palette block. */
  predicate DropAccepted(hasWrapper: bool, hasInstance: bool, kind: string)
  {
    hasWrapper && hasInstance && kind != "" && FindMiniBlock(kind).Some?
  }

  /** Exactly the three palette kinds can be dropped. */
  lemma DropAcceptedIffPaletteKind(kind: string)
    ensures DropAccepted(true, true, kind) <==> kind in ["landing-page", "vsl", "sales-page"]
  {
    if kind in ["landing-page", "vsl", "sales-page"] {
      var i := if kind == "landing-page" then 0 else if kind == "vsl" then 1 else 2;
      assert MiniBlockTypes[i].kind == kind;
    }
  }

  /** The node a drop creates: the block's label, icon and color, and no block kind. */
  function NewMiniNode(id: string, b: MiniBlock, position: Position): (n: Node)
    ensures n.id == id && n.renderer == "custom" && n.position == position && !n.selected
    ensures n.data.Keys == {"label", "icon", "color"}
    ensures n.data["label"] == b.title && n.data["icon"] == b.icon && n.data["color"] == b.color
  {
    Node(id, "custom", position, None, false, map["label" := b.title, "icon" := b.icon, "color" := b.color])
  }

  /** `onDragStart` of a palette entry: the payload carries its kind. */
  function PaletteDragPayload(b: MiniBlock): (payload: map<string, string>)
    ensures payload.Keys == {FunnelEditor.PayloadKey} && payload[FunnelEditor.PayloadKey] == b.kind
  {
    map[FunnelEditor.PayloadKey := b.kind]
  }

  /** Dragging any palette entry onto a mounted canvas is accepted and finds that entry again. */
  lemma PaletteDragIsAccepted(i: nat)
    requires i < |MiniBlockTypes|
    ensures var kind := Field(PaletteDragPayload(MiniBlockTypes[i]), FunnelEditor.PayloadKey);
            DropAccepted(true, true, kind) && FindMiniBlock(kind) == Some(MiniBlockTypes[i])
  {
    var b := MiniBlockTypes[i];
    assert forall j :: 0 <= j < |MiniBlockTypes| && j != i ==> MiniBlockTypes[j].kind != b.kind;
  }

  /** The simulator's local `nodes` and `edges` state. */
  class Simulator {
    var nodes: seq<Node>
    var edges: seq<Edge>

    constructor ()
      ensures nodes == [] && edges == []
    {
      nodes, edges := [], [];
    }

    method OnNodesChange(changes: seq<NodeChange>)
      modifies this
      ensures nodes == ApplyNodeChanges(changes, old(nodes)) && edges == old(edges)
    {
      nodes := ApplyNodeChanges(changes, nodes);
    }

    method OnEdgesChange(changes: seq<EdgeChange>)
      modifies this
      ensures edges == ApplyEdgeChanges(changes, old(edges)) && nodes == old(nodes)
    {
      edges := ApplyEdgeChanges(changes, edges);
    }

    method OnConnect(c: Connection)
      modifies this
      ensures edges == AddEdge(c, old(edges)) && nodes == old(nodes)
    {
      edges := AddEdge(c, edges);
    }

    /** `onDrop`: appends one node for a palette block; anything else changes nothing. */
    method OnDrop(ids: IdCounter.Counter, hasWrapper: bool, hasInstance: bool, kind: string,
                  position: Position) returns (added: Option<Node>)
      requires ids.Valid() && ids.prefix == IdPrefix
      modifies this, ids
      ensures ids.Valid() && edges == old(edges)
      ensures !DropAccepted(hasWrapper, hasInstance, kind) ==>
                added == None && nodes == old(nodes) && ids.next == old(ids.next) && ids.issued == old(ids.issued)
      ensures DropAccepted(hasWrapper, hasInstance, kind) ==>
                && added == Some(NewMiniNode(IdPrefix + NatToString(old(ids.next)), FindMiniBlock(kind).value, position))
                && nodes == old(nodes) + [added.value]
                && added.value.id !in old(ids.issued)
                && ids.next == old(ids.next) + 1
                && ids.issued == old(ids.issued) + {added.value.id}
    {
      added := None;
      if !hasWrapper || !hasInstance {
        return;
      }
      if kind == "" {
        return;
      }
      var block := FindMiniBlock(kind);
      if block.None? {
        return;
      }
      var id := ids.GetId();
      var node := NewMiniNode(id, block.value, position);
      nodes := nodes + [node];
      added := Some(node);
    }
  }
}
