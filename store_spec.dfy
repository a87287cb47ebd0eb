/** The editor store's state record and, for each store operation, the state it leaves behind.
    The class `EditorStore.Store` is proved to follow these transitions; the lemmas about them are in
    `StoreProperties`. */
module StoreSpec {
  import opened Wrappers
  import opened Graph
  import opened FlowChanges
  import Seqs

  /** `PreviewContent`: what the preview modal shows (`kind` is the source's `type`). */
  datatype Preview = Preview(kind: string, src: string)

  /** A history entry: the nodes and edges from just before a mutation. Every entry the store
      pushes has type `'node'`, so the tag is not represented. */
  datatype Snapshot = Snapshot(nodes: seq<Node>, edges: seq<Edge>)

  datatype State = State(nodes: seq<Node>, edges: seq<Edge>, selectedNode: Option<Node>,
                         previewContent: Option<Preview>, funnelId: Option<string>,
                         history: seq<Snapshot>)

  /** The history keeps at most this many entries (`slice(-50)`). */
  const HistoryLimit: nat := 50

  /** `initialState`. */
  const Initial: State := State([], [], None, None, None, [])

  predicate Valid(s: State)
  {
    |s.history| <= HistoryLimit
  }

  /** `[...history, entry].slice(-50)`: the entry goes on top and, past the limit, the oldest
      entries are dropped. */
  function PushHistory(h: seq<Snapshot>, entry: Snapshot): (r: seq<Snapshot>)
    ensures |r| == if |h| < HistoryLimit then |h| + 1 else HistoryLimit
    ensures r[|r| - 1] == entry
    ensures forall i :: 0 <= i < |r| - 1 ==> r[i] == h[|h| - (|r| - 1) + i]
  {
    var all := h + [entry];
    if |all| <= HistoryLimit then all else all[|all| - HistoryLimit..]
  }

  /** The history after recording the current nodes and edges. */
  function Record(s: State): seq<Snapshot>
  {
    PushHistory(s.history, Snapshot(s.nodes, s.edges))
  }

  /** A batch is undoable when it holds a position change whose `dragging` is exactly `false`. */
  predicate IsUndoableBatch(cs: seq<NodeChange>)
  {
    exists i :: 0 <= i < |cs| && cs[i].PositionChange? && cs[i].dragging == Some(false)
  }

  /** Id of the batch's first `select` change with `selected: true`. */
  function FirstSelectId(cs: seq<NodeChange>): Option<string>
  {
    match Seqs.FindFirst(cs, (c: NodeChange) => c.SelectChange? && c.selected)
    case Some(c) => Some(c.id)
    case None => None
  }

  predicate HasDeselect(cs: seq<NodeChange>)
  {
    exists i :: 0 <= i < |cs| && cs[i].SelectChange? && !cs[i].selected
  }

  /** `nodes.find(node => node.id === id)`. */
  function FindNode(ns: seq<Node>, id: string): Option<Node>
  {
    Seqs.FindFirst(ns, (n: Node) => n.id == id)
  }

  /** The cached selection after a batch has been applied, giving `ns`. */
  function SelectionAfter(cs: seq<NodeChange>, ns: seq<Node>, current: Option<Node>): Option<Node>
  {
    match FirstSelectId(cs)
    case Some(id) => (match FindNode(ns, id) case Some(n) => Some(n) case None => current)
    case None => if HasDeselect(cs) && !AnySelected(ns) then None else current
  }

  /** `onNodesChange`. */
  function OnNodesChange(s: State, cs: seq<NodeChange>): State
  {
    var history := if IsUndoableBatch(cs) then Record(s) else s.history;
    var nodes := ApplyNodeChanges(cs, s.nodes);
    s.(nodes := nodes, history := history, selectedNode := SelectionAfter(cs, nodes, s.selectedNode))
  }

  /** One frame of a drag of node `id`. The canvas is controlled, so every frame reaches
      `onNodesChange` as a batch of its own, with `dragging: true` and the node's new position. */
  function DragFrame(id: string, p: Position): seq<NodeChange>
  {
    [PositionChange(id, Some(p), Some(true))]
  }

  /** The drop that ends a drag: a batch of its own, with `dragging: false` and no position. */
  function DragEnd(id: string): seq<NodeChange>
  {
    [PositionChange(id, None, Some(false))]
  }

  /** The frames of a drag of node `id` through the positions `ps`. */
  function DragFrames(id: string, ps: seq<Position>): (bs: seq<seq<NodeChange>>)
    ensures |bs| == |ps|
  {
    if ps == [] then [] else [DragFrame(id, ps[0])] + DragFrames(id, ps[1..])
  }

  /** A whole drag as `onNodesChange` receives it: the frames, then the drop. */
  function Drag(id: string, ps: seq<Position>): seq<seq<NodeChange>>
  {
    DragFrames(id, ps) + [DragEnd(id)]
  }

  /** `onNodesChange` on each batch in turn. */
  function NodeBatches(s: State, bs: seq<seq<NodeChange>>): State
    decreases |bs|
  {
    if bs == [] then s else NodeBatches(OnNodesChange(s, bs[0]), bs[1..])
  }

  /** The store with drags recorded as intended: while a drag is under way it holds the graph from
      before the drag's first frame, and the drop records that graph. */
  datatype Tracked = Tracked(store: State, dragOrigin: Option<Snapshot>)

  /** A batch holds a frame of a drag under way. */
  predicate IsDragFrame(cs: seq<NodeChange>)
  {
    exists i :: 0 <= i < |cs| && cs[i].PositionChange? && cs[i].dragging == Some(true)
  }

  /** `onNodesChange` with drags recorded as intended: the same nodes and selection as the written
      handler, and one snapshot per drag, of the graph from before it started. */
  function OnNodesChangeTracked(t: Tracked, cs: seq<NodeChange>): (r: Tracked)
    ensures var w := OnNodesChange(t.store, cs);
            r.store.nodes == w.nodes && r.store.edges == w.edges && r.store.selectedNode == w.selectedNode
    ensures !IsUndoableBatch(cs) ==> r.store.history == t.store.history
    ensures IsUndoableBatch(cs) ==> r.dragOrigin == None && |r.store.history| == |OnNodesChange(t.store, cs).history|
  {
    var s := t.store;
    var origin := if t.dragOrigin.None? && IsDragFrame(cs) then Some(Snapshot(s.nodes, s.edges)) else t.dragOrigin;
    var applied := OnNodesChange(s, cs);
    if IsUndoableBatch(cs) then
      var entry := if origin.Some? then origin.value else Snapshot(s.nodes, s.edges);
      Tracked(applied.(history := PushHistory(s.history, entry)), None)
    else Tracked(applied, origin)
  }

  /** `OnNodesChangeTracked` on each batch in turn. */
  function TrackedBatches(t: Tracked, bs: seq<seq<NodeChange>>): Tracked
    decreases |bs|
  {
    if bs == [] then t else TrackedBatches(OnNodesChangeTracked(t, bs[0]), bs[1..])
  }

  /** `onEdgesChange`: every batch records one snapshot. */
  function OnEdgesChange(s: State, cs: seq<EdgeChange>): State
  {
    s.(edges := ApplyEdgeChanges(cs, s.edges), history := Record(s))
  }

  /** `addNode`. */
  function AddNode(s: State, n: Node): State
  {
    s.(nodes := s.nodes + [n], history := Record(s))
  }

  /** `setNodes`: a bulk replace that records nothing. */
  function SetNodes(s: State, ns: seq<Node>): State
  {
    s.(nodes := ns)
  }

  /** `setEdges`: a bulk replace that records nothing. */
  function SetEdges(s: State, es: seq<Edge>): State
  {
    s.(edges := es)
  }

  /** Every node with the given id, with `patch` merged into its data. */
  function MergeInto(ns: seq<Node>, id: string, patch: Data): (r: seq<Node>)
    ensures |r| == |ns|
  {
    seq(|ns|, i requires 0 <= i < |ns| =>
      if ns[i].id == id then ns[i].(data := Merge(ns[i].data, patch)) else ns[i])
  }

  /** `updateNodeData` with nodes as values: the snapshot pushed keeps the nodes as they were.
      Nothing checks that a node with `id` exists. */
  function UpdateNodeData(s: State, id: string, patch: Data): State
  {
    var selected :=
      match s.selectedNode
      case Some(n) => if n.id == id then Some(n.(data := Merge(n.data, patch))) else s.selectedNode
      case None => None;
    s.(nodes := MergeInto(s.nodes, id, patch), history := Record(s), selectedNode := selected)
  }

  /** `updateNodeData` as written: `node.data` is reassigned on the node objects that the pushed
      snapshot's array also holds, so that snapshot ends up with the merged data too. Only the newest
      snapshot's sharing is represented. */
  function UpdateNodeDataAsWritten(s: State, id: string, patch: Data): State
  {
    var merged := MergeInto(s.nodes, id, patch);
    var t := UpdateNodeData(s, id, patch);
    t.(history := PushHistory(s.history, Snapshot(merged, s.edges)))
  }

  /** Every node with its `selected` flag cleared. */
  function ClearSelection(ns: seq<Node>): (r: seq<Node>)
    ensures |r| == |ns|
  {
    seq(|ns|, i requires 0 <= i < |ns| => ns[i].(selected := false))
  }

  /** `unselectNode`. */
  function UnselectNode(s: State): State
  {
    s.(nodes := ClearSelection(s.nodes), selectedNode := None)
  }

  function RemainingNodes(ns: seq<Node>, id: string): seq<Node>
  {
    Seqs.Filter(ns, (n: Node) => n.id != id)
  }

  predicate Touches(e: Edge, id: string)
  {
    e.source == id || e.target == id
  }

  function RemainingEdges(es: seq<Edge>, id: string): seq<Edge>
  {
    Seqs.Filter(es, (e: Edge) => !Touches(e, id))
  }

  /** `deleteNode`: the node and every edge touching it go; so does a selection of it. */
  function DeleteNode(s: State, id: string): State
  {
    var selected := if s.selectedNode.Some? && s.selectedNode.value.id == id then None else s.selectedNode;
    s.(nodes := RemainingNodes(s.nodes, id), edges := RemainingEdges(s.edges, id),
       history := Record(s), selectedNode := selected)
  }

  /** `setPreviewContent`. */
  function SetPreviewContent(s: State, c: Option<Preview>): State
  {
    s.(previewContent := c)
  }

  /** `undoLastAction`: pop the newest snapshot and restore its nodes and edges. */
  function Undo(s: State): State
  {
    if |s.history| == 0 then s
    else
      var last := s.history[|s.history| - 1];
      s.(nodes := last.nodes, edges := last.edges, history := s.history[..|s.history| - 1])
  }

  /** `setFunnelId`: a different id starts over from `initialState`. */
  function SetFunnelId(s: State, id: string): State
  {
    if s.funnelId != Some(id) then Initial.(funnelId := Some(id)) else s
  }
}
