/** The editor store: one mutable record whose operations rewrite its fields. Each operation is
    proved to leave the record in the state `StoreSpec` gives for it. */
module EditorStore {
  import opened Wrappers
  import opened Graph
  import opened FlowChanges
  import opened StoreSpec

  class Store {
    var nodes: seq<Node>
    var edges: seq<Edge>
    var selectedNode: Option<Node>
    var previewContent: Option<Preview>
    var funnelId: Option<string>
    var history: seq<Snapshot>

    ghost predicate Valid()
      reads this
    {
      |history| <= HistoryLimit
    }

    /** The record as a value. */
    function State(): State
      reads this
    {
      StoreSpec.State(nodes, edges, selectedNode, previewContent, funnelId, history)
    }

    constructor ()
      ensures Valid() && State() == Initial
    {
      nodes, edges, selectedNode, previewContent, funnelId, history := [], [], None, None, None, [];
    }

    /** Records the current nodes and edges on the history. */
    method PushSnapshot()
      requires Valid()
      modifies this
      ensures Valid() && history == Record(old(State()))
      ensures nodes == old(nodes) && edges == old(edges) && selectedNode == old(selectedNode)
      ensures previewContent == old(previewContent) && funnelId == old(funnelId)
    {
      history := PushHistory(history, Snapshot(nodes, edges));
    }

    method OnNodesChange(changes: seq<NodeChange>)
      requires Valid()
      modifies this
      ensures Valid() && State() == StoreSpec.OnNodesChange(old(State()), changes)
    {
      if IsUndoableBatch(changes) {
        PushSnapshot();
      }
      nodes := ApplyNodeChanges(changes, nodes);
      match FirstSelectId(changes) {
        case Some(id) =>
          match FindNode(nodes, id) {
            case Some(n) => selectedNode := Some(n);
            case None =>
          }
        case None =>
          if HasDeselect(changes) && !AnySelected(nodes) {
            selectedNode := None;
          }
      }
    }

    method OnEdgesChange(changes: seq<EdgeChange>)
      requires Valid()
      modifies this
      ensures Valid() && State() == StoreSpec.OnEdgesChange(old(State()), changes)
    {
      PushSnapshot();
      edges := ApplyEdgeChanges(changes, edges);
    }

    method AddNode(node: Node)
      requires Valid()
      modifies this
      ensures Valid() && State() == StoreSpec.AddNode(old(State()), node)
    {
      PushSnapshot();
      nodes := nodes + [node];
    }

    method SetNodes(ns: seq<Node>)
      requires Valid()
      modifies this
      ensures Valid() && State() == StoreSpec.SetNodes(old(State()), ns)
    {
      nodes := ns;
    }

    method SetEdges(es: seq<Edge>)
      requires Valid()
      modifies this
      ensures Valid() && State() == StoreSpec.SetEdges(old(State()), es)
    {
      edges := es;
    }

    method UpdateNodeData(nodeId: string, patch: Data)
      requires Valid()
      modifies this
      ensures Valid() && State() == StoreSpec.UpdateNodeData(old(State()), nodeId, patch)
    {
      PushSnapshot();
      nodes := MergeInto(nodes, nodeId, patch);
      if selectedNode.Some? && selectedNode.value.id == nodeId {
        selectedNode := Some(selectedNode.value.(data := Merge(selectedNode.value.data, patch)));
      }
    }

    method UnselectNode()
      requires Valid()
      modifies this
      ensures Valid() && State() == StoreSpec.UnselectNode(old(State()))
    {
      nodes := ClearSelection(nodes);
      selectedNode := None;
    }

    method DeleteNode(nodeId: string)
      requires Valid()
      modifies this
      ensures Valid() && State() == StoreSpec.DeleteNode(old(State()), nodeId)
    {
      ghost var before := State();
      var remainingNodes, remainingEdges := RemainingNodes(nodes, nodeId), RemainingEdges(edges, nodeId);
      var selected := if selectedNode.Some? && selectedNode.value.id == nodeId then None else selectedNode;
      PushSnapshot();
      nodes, edges, selectedNode := remainingNodes, remainingEdges, selected;
      assert State() == before.(nodes := remainingNodes, edges := remainingEdges, history := Record(before),
                                selectedNode := selected);
    }

    method SetPreviewContent(content: Option<Preview>)
      requires Valid()
      modifies this
      ensures Valid() && State() == StoreSpec.SetPreviewContent(old(State()), content)
    {
      previewContent := content;
    }

    method UndoLastAction()
      requires Valid()
      modifies this
      ensures Valid() && State() == StoreSpec.Undo(old(State()))
    {
      if |history| == 0 {
        return;
      }
      var last := history[|history| - 1];
      nodes, edges, history := last.nodes, last.edges, history[..|history| - 1];
    }

    method SetFunnelId(id: string)
      requires Valid()
      modifies this
      ensures Valid() && State() == StoreSpec.SetFunnelId(old(State()), id)
    {
      if funnelId != Some(id) {
        Reset();
        funnelId := Some(id);
      }
    }

    method Reset()
      modifies this
      ensures Valid() && State() == Initial
    {
      nodes, edges, selectedNode, previewContent, funnelId, history := [], [], None, None, None, [];
    }
  }
}
