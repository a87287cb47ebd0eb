/** What the editor store's transitions promise, over one call and over several. */
module StoreProperties {
  import opened Wrappers
  import opened Graph
  import opened FlowChanges
  import opened StoreSpec
  import Seqs

  /** Every transition keeps the history within its limit. */
  lemma TransitionsKeepHistoryBounded(s: State, n: Node, ns: seq<Node>, es: seq<Edge>,
                                      ncs: seq<NodeChange>, ecs: seq<EdgeChange>, id: string,
                                      patch: Data, c: Option<Preview>)
    requires Valid(s)
    ensures Valid(OnNodesChange(s, ncs)) && Valid(OnEdgesChange(s, ecs)) && Valid(AddNode(s, n))
    ensures Valid(SetNodes(s, ns)) && Valid(SetEdges(s, es)) && Valid(UpdateNodeData(s, id, patch))
    ensures Valid(UnselectNode(s)) && Valid(DeleteNode(s, id)) && Valid(SetPreviewContent(s, c))
    ensures Valid(Undo(s)) && Valid(SetFunnelId(s, id))
  {
  }

  /** Undo right after a recorded mutation restores the nodes and edges recorded, drops the entry
      and leaves selection, preview and funnel as the mutation left them. The history is what it was
      before, less its oldest entry if the push overflowed. */
  lemma {:induction false} UndoAfterRecord(s: State, t: State)
    requires Valid(s) && t.history == Record(s)
    ensures Undo(t).nodes == s.nodes && Undo(t).edges == s.edges
    ensures Undo(t).history == if |s.history| < HistoryLimit then s.history else s.history[1..]
    ensures Undo(t).selectedNode == t.selectedNode && Undo(t).previewContent == t.previewContent
    ensures Undo(t).funnelId == t.funnelId
  {
    var h := t.history;
    assert h[|h| - 1] == Snapshot(s.nodes, s.edges);
    assert h[..|h| - 1] == s.history[|s.history| - (|h| - 1)..];
  }

  /** Each recorded edit (add, delete, edge batch, a node batch holding a drop) is undone by one
      undo: the undo restores the graph from just before that call. */
  lemma UndoRevertsContentEdits(s: State, n: Node, id: string, ecs: seq<EdgeChange>,
                                ncs: seq<NodeChange>)
    requires Valid(s) && |s.history| < HistoryLimit
    requires IsUndoableBatch(ncs)
    ensures var u := Undo(AddNode(s, n)); u.nodes == s.nodes && u.edges == s.edges && u.history == s.history
    ensures var u := Undo(DeleteNode(s, id)); u.nodes == s.nodes && u.edges == s.edges && u.history == s.history
    ensures var u := Undo(OnEdgesChange(s, ecs)); u.nodes == s.nodes && u.edges == s.edges && u.history == s.history
    ensures var u := Undo(OnNodesChange(s, ncs)); u.nodes == s.nodes && u.edges == s.edges && u.history == s.history
  {
    UndoAfterRecord(s, AddNode(s, n));
    UndoAfterRecord(s, DeleteNode(s, id));
    UndoAfterRecord(s, OnEdgesChange(s, ecs));
    UndoAfterRecord(s, OnNodesChange(s, ncs));
  }

  /** With value semantics, undo also reverts a data edit. */
  lemma UndoRevertsUpdateNodeData(s: State, id: string, patch: Data)
    requires Valid(s) && |s.history| < HistoryLimit
    ensures var u := Undo(UpdateNodeData(s, id, patch));
            u.nodes == s.nodes && u.edges == s.edges && u.history == s.history
  {
    UndoAfterRecord(s, UpdateNodeData(s, id, patch));
  }

  /** As written, undo after a data edit gives back the edited nodes: the edit is not reverted. */
  lemma UndoKeepsAliasedEdit(s: State, id: string, patch: Data)
    requires Valid(s)
    ensures Undo(UpdateNodeDataAsWritten(s, id, patch)).nodes == MergeInto(s.nodes, id, patch)
  {
    var t := UpdateNodeDataAsWritten(s, id, patch);
    assert t.history[|t.history| - 1].nodes == MergeInto(s.nodes, id, patch);
  }

  /** A concrete state where the as-written edit survives the undo that should revert it. */
  lemma AliasedEditCounterexample()
    ensures var n := Node("dnd-node_1", "custom", Position(0, 0), None, false, map["type" := "checkout"]);
            var s := Initial.(nodes := [n]);
            var u := Undo(UpdateNodeDataAsWritten(s, "dnd-node_1", map["label" := "Oferta"]));
            u.nodes != s.nodes && Field(u.nodes[0].data, "label") == "Oferta"
  {
    var n := Node("dnd-node_1", "custom", Position(0, 0), None, false, map["type" := "checkout"]);
    var s := Initial.(nodes := [n]);
    var patch := map["label" := "Oferta"];
    UndoKeepsAliasedEdit(s, "dnd-node_1", patch);
    var m := MergeInto(s.nodes, "dnd-node_1", patch);
    assert m[0].data == Merge(n.data, patch);
    assert "label" !in n.data;
  }

  /** Operations that are not content edits leave the history alone. */
  lemma NonContentOpsKeepHistory(s: State, ns: seq<Node>, es: seq<Edge>, cs: seq<NodeChange>,
                                 c: Option<Preview>)
    requires !IsUndoableBatch(cs)
    ensures SetNodes(s, ns).history == s.history && SetEdges(s, es).history == s.history
    ensures UnselectNode(s).history == s.history && SetPreviewContent(s, c).history == s.history
    ensures OnNodesChange(s, cs).history == s.history
  {
  }

  /** Undo depends only on the history and not on what non-content operations did in between. */
  lemma {:induction false} UndoSeesOnlyHistory(t: State, u: State)
    requires t.history == u.history && |t.history| > 0
    ensures Undo(t).nodes == Undo(u).nodes && Undo(t).edges == Undo(u).edges
    ensures Undo(t).history == Undo(u).history
  {
  }

  /** Unselecting or changing the preview between an edit and its undo does not change what the undo
      restores. */
  lemma NonContentOpBeforeUndo(s: State, n: Node, c: Option<Preview>, cs: seq<NodeChange>)
    requires Valid(s) && !IsUndoableBatch(cs)
    ensures Undo(UnselectNode(AddNode(s, n))).nodes == s.nodes
    ensures Undo(SetPreviewContent(AddNode(s, n), c)).nodes == s.nodes
    ensures Undo(OnNodesChange(AddNode(s, n), cs)).nodes == s.nodes
  {
    var t := AddNode(s, n);
    UndoAfterRecord(s, t);
    UndoSeesOnlyHistory(UnselectNode(t), t);
    UndoSeesOnlyHistory(SetPreviewContent(t, c), t);
    UndoSeesOnlyHistory(OnNodesChange(t, cs), t);
  }

  /** Every edge batch records a snapshot, a click that only selects an edge included. So a click on
      an edge between an edit and its undo makes the undo take back the click, not the edit. */
  lemma EdgeClickBeforeUndo(s: State, n: Node, ecs: seq<EdgeChange>)
    requires Valid(s)
    ensures var t := AddNode(s, n);
            Undo(OnEdgesChange(t, ecs)).nodes == t.nodes && Undo(OnEdgesChange(t, ecs)).edges == t.edges
  {
    UndoAfterRecord(AddNode(s, n), OnEdgesChange(AddNode(s, n), ecs));
  }

  /** A batch of selection changes only moves the selection: no history, no content change. */
  lemma SelectionOnlyBatch(s: State, cs: seq<NodeChange>)
    requires SelectionOnly(cs)
    ensures var t := OnNodesChange(s, cs);
            t.history == s.history && t.edges == s.edges && Contents(t.nodes) == Contents(s.nodes)
  {
    SelectionOnlyKeepsContents(cs, s.nodes);
  }

  /** A `select: true` change selects the batch's resulting node with that id. */
  lemma {:induction false} SelectSetsSelectedNode(s: State, cs: seq<NodeChange>, id: string)
    requires FirstSelectId(cs) == Some(id)
    requires HasNode(ApplyNodeChanges(cs, s.nodes), id)
    ensures var t := OnNodesChange(s, cs);
            t.selectedNode.Some? && t.selectedNode.value.id == id && t.selectedNode.value in t.nodes
  {
    var ns := ApplyNodeChanges(cs, s.nodes);
    var i :| 0 <= i < |ns| && ns[i].id == id;
    assert !(forall j :: 0 <= j < |ns| ==> !(ns[j].id == id));
  }

  /** A deselect batch with no `select: true` change clears the cached selection exactly when no
      node is left selected. */
  lemma DeselectClearsSelection(s: State, cs: seq<NodeChange>)
    requires FirstSelectId(cs) == None && HasDeselect(cs)
    ensures var t := OnNodesChange(s, cs);
            t.selectedNode == if AnySelected(t.nodes) then s.selectedNode else None
  {
  }

  /** A drag frame moves the node and records nothing; the drop changes no node and records the
      graph as it is at that moment. */
  lemma FrameAndDrop(s: State, id: string, p: Position)
    ensures OnNodesChange(s, DragFrame(id, p)) == s.(nodes := MoveTo(s.nodes, id, p))
    ensures OnNodesChange(s, DragEnd(id)) == s.(history := Record(s))
  {
    PositionBatch(s.nodes, id, Some(p), Some(true));
    PositionBatch(s.nodes, id, None, Some(false));
    assert DragEnd(id)[0].PositionChange? && DragEnd(id)[0].dragging == Some(false);
  }

  lemma {:induction false} NodeBatchesConcat(s: State, a: seq<seq<NodeChange>>, b: seq<seq<NodeChange>>)
    ensures NodeBatches(s, a + b) == NodeBatches(NodeBatches(s, a), b)
    decreases |a|
  {
    if a == [] {
      assert a + b == b;
    } else {
      assert (a + b)[0] == a[0] && (a + b)[1..] == a[1..] + b;
      NodeBatchesConcat(OnNodesChange(s, a[0]), a[1..], b);
    }
  }

  /** The frames of a drag leave the node at the last frame's position and record nothing. */
  lemma {:induction false} FramesMove(s: State, id: string, ps: seq<Position>)
    requires ps != []
    ensures NodeBatches(s, DragFrames(id, ps)) == s.(nodes := MoveTo(s.nodes, id, ps[|ps| - 1]))
    decreases |ps|
  {
    FrameAndDrop(s, id, ps[0]);
    var s1 := s.(nodes := MoveTo(s.nodes, id, ps[0]));
    assert DragFrames(id, ps)[0] == DragFrame(id, ps[0]) && DragFrames(id, ps)[1..] == DragFrames(id, ps[1..]);
    if |ps| > 1 {
      FramesMove(s1, id, ps[1..]);
      MoveToTwice(s.nodes, id, ps[0], ps[|ps| - 1]);
    }
  }

  /** As written, undo after a drag leaves the node where the drag put it: the frames move the node
      without recording anything, and the drop records the graph already moved. The undo only takes
      the drop's snapshot off the history. */
  lemma {:induction false} DragUndoKeepsDraggedPosition(s: State, id: string, ps: seq<Position>)
    requires Valid(s) && ps != []
    ensures var t := NodeBatches(s, Drag(id, ps));
            && t.nodes == MoveTo(s.nodes, id, ps[|ps| - 1]) && t.edges == s.edges
            && Undo(t).nodes == t.nodes && Undo(t).edges == t.edges
            && Undo(t).history == if |s.history| < HistoryLimit then s.history else s.history[1..]
  {
    NodeBatchesConcat(s, DragFrames(id, ps), [DragEnd(id)]);
    FramesMove(s, id, ps);
    var moved := s.(nodes := MoveTo(s.nodes, id, ps[|ps| - 1]));
    FrameAndDrop(moved, id, ps[0]);
    assert [DragEnd(id)][1..] == [];
    UndoAfterRecord(moved, moved.(history := Record(moved)));
  }

  /** A concrete drag that the following undo does not take back. */
  lemma DragUndoCounterexample()
    ensures var m := Node("dnd-node_1", "custom", Position(0, 0), None, false, map["type" := "vsl"]);
            var s := Initial.(nodes := [m]);
            Undo(NodeBatches(s, Drag("dnd-node_1", [Position(120, 40)]))).nodes != s.nodes
  {
    var m := Node("dnd-node_1", "custom", Position(0, 0), None, false, map["type" := "vsl"]);
    var s := Initial.(nodes := [m]);
    DragUndoKeepsDraggedPosition(s, "dnd-node_1", [Position(120, 40)]);
    assert MoveTo(s.nodes, "dnd-node_1", Position(120, 40))[0].position == Position(120, 40);
  }

  /** Where a drag that starts in state `t` is recorded as starting from. */
  function DragOrigin(t: Tracked): Snapshot
  {
    if t.dragOrigin.Some? then t.dragOrigin.value else Snapshot(t.store.nodes, t.store.edges)
  }

  lemma {:induction false} TrackedBatchesConcat(t: Tracked, a: seq<seq<NodeChange>>, b: seq<seq<NodeChange>>)
    ensures TrackedBatches(t, a + b) == TrackedBatches(TrackedBatches(t, a), b)
    decreases |a|
  {
    if a == [] {
      assert a + b == b;
    } else {
      assert (a + b)[0] == a[0] && (a + b)[1..] == a[1..] + b;
      TrackedBatchesConcat(OnNodesChangeTracked(t, a[0]), a[1..], b);
    }
  }

  /** With drags tracked, the frames move the node as before, record nothing, and remember the graph
      from before the first frame. */
  lemma {:induction false} TrackedFramesMove(t: Tracked, id: string, ps: seq<Position>)
    requires ps != []
    ensures TrackedBatches(t, DragFrames(id, ps)) ==
              Tracked(t.store.(nodes := MoveTo(t.store.nodes, id, ps[|ps| - 1])), Some(DragOrigin(t)))
    decreases |ps|
  {
    FrameAndDrop(t.store, id, ps[0]);
    assert DragFrame(id, ps[0])[0].dragging == Some(true);
    assert IsDragFrame(DragFrame(id, ps[0]));
    var t1 := Tracked(t.store.(nodes := MoveTo(t.store.nodes, id, ps[0])), Some(DragOrigin(t)));
    assert OnNodesChangeTracked(t, DragFrame(id, ps[0])) == t1;
    assert DragFrames(id, ps)[0] == DragFrame(id, ps[0]) && DragFrames(id, ps)[1..] == DragFrames(id, ps[1..]);
    if |ps| > 1 {
      TrackedFramesMove(t1, id, ps[1..]);
      MoveToTwice(t.store.nodes, id, ps[0], ps[|ps| - 1]);
    }
  }

  /** With drags tracked, a whole drag records exactly one snapshot, of the graph from before it,
      so one undo puts the node back. */
  lemma {:induction false} TrackedDragUndoRestores(s: State, id: string, ps: seq<Position>)
    requires Valid(s) && ps != []
    ensures var t := TrackedBatches(Tracked(s, None), Drag(id, ps));
            && t.store.nodes == MoveTo(s.nodes, id, ps[|ps| - 1]) && t.store.edges == s.edges
            && t.store.history == Record(s) && t.dragOrigin == None
            && Undo(t.store).nodes == s.nodes && Undo(t.store).edges == s.edges
            && Undo(t.store).history == if |s.history| < HistoryLimit then s.history else s.history[1..]
  {
    TrackedBatchesConcat(Tracked(s, None), DragFrames(id, ps), [DragEnd(id)]);
    TrackedFramesMove(Tracked(s, None), id, ps);
    var moved := s.(nodes := MoveTo(s.nodes, id, ps[|ps| - 1]));
    var t1 := Tracked(moved, Some(Snapshot(s.nodes, s.edges)));
    FrameAndDrop(moved, id, ps[0]);
    assert DragEnd(id)[0].PositionChange? && DragEnd(id)[0].dragging == Some(false);
    var t2 := Tracked(moved.(history := Record(s)), None);
    assert OnNodesChangeTracked(t1, DragEnd(id)) == t2;
    assert [DragEnd(id)][1..] == [];
    UndoAfterRecord(s, t2.store);
  }

  /** With drags tracked: three drags of one node, then one undo, and the node is back where the
      second drag left it, with one snapshot per drag and not per frame. */
  lemma ThreeDragsThenUndo(m: Node, ps1: seq<Position>, ps2: seq<Position>, ps3: seq<Position>)
    requires ps1 != [] && ps2 != [] && ps3 != []
    ensures var t1 := TrackedBatches(Tracked(Initial.(nodes := [m]), None), Drag(m.id, ps1));
            var t2 := TrackedBatches(t1, Drag(m.id, ps2));
            var t3 := TrackedBatches(t2, Drag(m.id, ps3));
            Undo(t3.store).nodes == [m.(position := ps2[|ps2| - 1])] && |Undo(t3.store).history| == 2
  {
    var s0 := Initial.(nodes := [m]);
    TrackedDragUndoRestores(s0, m.id, ps1);
    var t1 := TrackedBatches(Tracked(s0, None), Drag(m.id, ps1));
    assert t1.store.nodes == [m.(position := ps1[|ps1| - 1])];
    TrackedDragUndoRestores(t1.store, m.id, ps2);
    assert t1 == Tracked(t1.store, None);
    var t2 := TrackedBatches(t1, Drag(m.id, ps2));
    assert t2.store.nodes == [m.(position := ps2[|ps2| - 1])];
    TrackedDragUndoRestores(t2.store, m.id, ps3);
    assert t2 == Tracked(t2.store, None);
  }

  /** Two edits of one node accumulate: the data holds both patches, the later one winning. */
  lemma {:induction false} UpdatesAccumulate(s: State, id: string, p1: Data, p2: Data)
    ensures UpdateNodeData(UpdateNodeData(s, id, p1), id, p2).nodes == UpdateNodeData(s, id, p1 + p2).nodes
  {
    var a := UpdateNodeData(UpdateNodeData(s, id, p1), id, p2).nodes;
    var b := UpdateNodeData(s, id, p1 + p2).nodes;
    assert |a| == |b|;
    forall i | 0 <= i < |a| ensures a[i] == b[i] {
      MergeTwice(s.nodes[i].data, p1, p2);
    }
  }

  /** An edit patches exactly the nodes with that id; the rest of the graph is untouched. */
  lemma UpdateNodeDataMerges(s: State, id: string, patch: Data, i: int)
    requires 0 <= i < |s.nodes|
    ensures var t := UpdateNodeData(s, id, patch);
            t.edges == s.edges && t.history == Record(s) && t.nodes[i].id == s.nodes[i].id
            && (s.nodes[i].id == id ==>
                  t.nodes[i].data == Merge(s.nodes[i].data, patch) && t.nodes[i].position == s.nodes[i].position)
            && (s.nodes[i].id != id ==> t.nodes[i] == s.nodes[i])
  {
  }

  /** The cached selection is refreshed with the same merge exactly when it is the edited node. */
  lemma UpdateNodeDataRefreshesSelection(s: State, id: string, patch: Data)
    ensures var t := UpdateNodeData(s, id, patch);
            ((s.selectedNode.Some? && s.selectedNode.value.id == id) ==>
               t.selectedNode == Some(s.selectedNode.value.(data := Merge(s.selectedNode.value.data, patch))))
            && (!(s.selectedNode.Some? && s.selectedNode.value.id == id) ==> t.selectedNode == s.selectedNode)
  {
  }

  /** An edit of an id no node has still records a snapshot, and changes no node. */
  lemma {:induction false} UpdateUnknownIdChangesNoNode(s: State, id: string, patch: Data)
    requires !HasNode(s.nodes, id)
    ensures UpdateNodeData(s, id, patch).nodes == s.nodes
    ensures UpdateNodeData(s, id, patch).history == Record(s)
  {
    var t := UpdateNodeData(s, id, patch).nodes;
    forall i | 0 <= i < |s.nodes| ensures t[i] == s.nodes[i] {
      assert s.nodes[i].id != id;
    }
  }

  /** `addNode` appends and changes nothing else in the graph. */
  lemma AddNodeAppends(s: State, n: Node)
    ensures var t := AddNode(s, n);
            t.nodes[..|s.nodes|] == s.nodes && t.nodes[|s.nodes|] == n && |t.nodes| == |s.nodes| + 1
            && t.edges == s.edges && t.history[|t.history| - 1] == Snapshot(s.nodes, s.edges)
  {
  }

  /** `deleteNode` removes the node and every edge touching it, keeps everything else and clears a
      selection of that node. */
  lemma {:induction false} DeleteNodeCascades(s: State, id: string)
    ensures var t := DeleteNode(s, id);
            !HasNode(t.nodes, id)
            && (forall i :: 0 <= i < |t.edges| ==> !Touches(t.edges[i], id))
            && (forall i :: 0 <= i < |s.nodes| && s.nodes[i].id != id ==> s.nodes[i] in t.nodes)
            && (forall i :: 0 <= i < |s.edges| && !Touches(s.edges[i], id) ==> s.edges[i] in t.edges)
            && (t.selectedNode.None? <==> s.selectedNode.None? || s.selectedNode.value.id == id)
  {
  }

  /** `deleteNode` keeps the surviving nodes and edges in their order: what survives from a prefix
      comes before what survives from the rest. */
  lemma DeleteNodeKeepsOrder(s: State, id: string, j: nat, k: nat)
    requires j <= |s.nodes| && k <= |s.edges|
    ensures var t := DeleteNode(s, id);
            && t.nodes == RemainingNodes(s.nodes[..j], id) + RemainingNodes(s.nodes[j..], id)
            && t.edges == RemainingEdges(s.edges[..k], id) + RemainingEdges(s.edges[k..], id)
  {
    assert s.nodes == s.nodes[..j] + s.nodes[j..];
    assert s.edges == s.edges[..k] + s.edges[k..];
    Seqs.FilterConcat(s.nodes[..j], s.nodes[j..], (n: Node) => n.id != id);
    Seqs.FilterConcat(s.edges[..k], s.edges[k..], (e: Edge) => !Touches(e, id));
  }

  /** Deleting a node never leaves an edge dangling if none dangled before. */
  lemma {:induction false} DeleteNodeKeepsEdgesClosed(s: State, id: string)
    requires EdgesClosed(s.nodes, s.edges)
    ensures var t := DeleteNode(s, id); EdgesClosed(t.nodes, t.edges)
  {
    var t := DeleteNode(s, id);
    forall i | 0 <= i < |t.edges|
      ensures HasNode(t.nodes, t.edges[i].source) && HasNode(t.nodes, t.edges[i].target)
    {
      var e := t.edges[i];
      assert e in s.edges && !Touches(e, id);
      var k :| 0 <= k < |s.edges| && s.edges[k] == e;
      var a :| 0 <= a < |s.nodes| && s.nodes[a].id == e.source;
      var b :| 0 <= b < |s.nodes| && s.nodes[b].id == e.target;
      assert s.nodes[a] in t.nodes && s.nodes[b] in t.nodes;
      var a' :| 0 <= a' < |t.nodes| && t.nodes[a'] == s.nodes[a];
      var b' :| 0 <= b' < |t.nodes| && t.nodes[b'] == s.nodes[b];
    }
  }

  /** `unselectNode` clears every node's selection flag and the cached selection, and changes
      nothing else about the nodes. */
  lemma UnselectClearsEverySelection(s: State)
    ensures var t := UnselectNode(s);
            !AnySelected(t.nodes) && t.selectedNode == None && Contents(t.nodes) == Contents(s.nodes)
            && Ids(t.nodes) == Ids(s.nodes) && t.edges == s.edges && t.history == s.history
  {
  }

  /** Undo on an empty history changes nothing. */
  lemma UndoEmptyIsNoOp(s: State)
    requires |s.history| == 0
    ensures Undo(s) == s
  {
  }

  /** Switching to another funnel clears the graph, selection, preview and history, so an undo
      right after it changes nothing; naming the current funnel again changes nothing at all. */
  lemma SetFunnelIdIsolates(s: State, id: string)
    ensures s.funnelId != Some(id) ==>
              var t := SetFunnelId(s, id);
              t.nodes == [] && t.edges == [] && t.selectedNode == None && t.previewContent == None
              && t.history == [] && t.funnelId == Some(id) && Undo(t) == t
    ensures s.funnelId == Some(id) ==> SetFunnelId(s, id) == s
  {
  }

  /** Undo does not restore the selection, so the cached selection can name a node that is gone. */
  lemma UndoCanLeaveSelectionDangling()
    ensures var n := Node("dnd-node_1", "custom", Position(0, 0), None, false, map["type" := "vsl"]);
            var s := OnNodesChange(AddNode(Initial, n), [SelectChange("dnd-node_1", true)]);
            var u := Undo(s);
            u.selectedNode.Some? && !HasNode(u.nodes, u.selectedNode.value.id)
  {
    var n := Node("dnd-node_1", "custom", Position(0, 0), None, false, map["type" := "vsl"]);
    var cs := [SelectChange("dnd-node_1", true)];
    assert FirstSelectId(cs) == Some("dnd-node_1");
    var t := AddNode(Initial, n);
    assert ApplyNodeChanges(cs, t.nodes) == [n.(selected := true)];
  }

  /** Create a landing page and a checkout, connect them, delete the landing page: only the
      checkout is left, with no edge. */
  lemma DeleteScenario(n1: Node, n2: Node, url: string)
    requires n1.id == "n1" && n2.id == "n2"
    ensures var s1 := UpdateNodeData(AddNode(Initial, n1), "n1", map["url" := url]);
            var s2 := AddNode(s1, n2);
            var s3 := SetEdges(s2, AddEdge(Connection("n1", "n2"), s2.edges));
            var s4 := DeleteNode(s3, "n1");
            s4.nodes == [n2] && s4.edges == []
  {
    ScenarioEdit(n1, url);
    var m1 := n1.(data := Merge(n1.data, map["url" := url]));
    var s1 := UpdateNodeData(AddNode(Initial, n1), "n1", map["url" := url]);
    var s2 := AddNode(s1, n2);
    AddNodeGraph(s1, n2);
    assert s2.nodes == [m1, n2] && s2.edges == [];
    var e := Edge(ConnectionEdgeId(Connection("n1", "n2")), "n1", "n2", false);
    assert AddEdge(Connection("n1", "n2"), []) == [e];
    var s3 := SetEdges(s2, [e]);
    DeleteNodeGraph(s3, "n1");
    DeleteFirstOfTwo(m1, n2, e);
  }

  lemma AddNodeGraph(s: State, n: Node)
    ensures AddNode(s, n).nodes == s.nodes + [n] && AddNode(s, n).edges == s.edges
  {
  }

  lemma DeleteNodeGraph(s: State, id: string)
    ensures DeleteNode(s, id).nodes == RemainingNodes(s.nodes, id)
    ensures DeleteNode(s, id).edges == RemainingEdges(s.edges, id)
  {
  }

  /** The editing step of the scenario above. */
  lemma ScenarioEdit(n1: Node, url: string)
    requires n1.id == "n1"
    ensures var s1 := UpdateNodeData(AddNode(Initial, n1), "n1", map["url" := url]);
            s1.nodes == [n1.(data := Merge(n1.data, map["url" := url]))] && s1.edges == []
  {
    MergeIntoSingleton(n1, "n1", map["url" := url]);
    UpdateNodeDataGraph(AddNode(Initial, n1), "n1", map["url" := url]);
  }

  lemma MergeIntoSingleton(n: Node, id: string, patch: Data)
    requires n.id == id
    ensures MergeInto([n], id, patch) == [n.(data := Merge(n.data, patch))]
  {
    assert MergeInto([n], id, patch)[0] == n.(data := Merge(n.data, patch));
  }

  lemma UpdateNodeDataGraph(s: State, id: string, patch: Data)
    ensures UpdateNodeData(s, id, patch).nodes == MergeInto(s.nodes, id, patch)
    ensures UpdateNodeData(s, id, patch).edges == s.edges
  {
  }

  /** The deletion step of the scenario above. */
  lemma DeleteFirstOfTwo(m1: Node, n2: Node, e: Edge)
    requires m1.id == "n1" && n2.id == "n2" && e.source == "n1"
    ensures RemainingNodes([m1, n2], "n1") == [n2] && RemainingEdges([e], "n1") == []
  {
    assert [m1, n2] == [m1] + [n2];
    Seqs.FilterConcat([m1], [n2], (n: Node) => n.id != "n1");
    Seqs.FilterSingleton(m1, (n: Node) => n.id != "n1");
    Seqs.FilterSingleton(n2, (n: Node) => n.id != "n1");
    Seqs.FilterSingleton(e, (e: Edge) => !Touches(e, "n1"));
  }
}
