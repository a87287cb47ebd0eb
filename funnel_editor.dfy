/** The editor canvas: dropping a block creates a node, connecting two handles adds an edge, a
    funnel handed over from the dashboard is loaded once, and the preview modal closes. */
module FunnelEditor {
  import opened Wrappers
  import opened Graph
  import opened FlowChanges
  import opened Text
  import StoreSpec
  import StoreProperties
  import EditorStore
  import IdCounter

  /** The editor's ids are `dnd-node_1`, `dnd-node_2`, … */
  const IdPrefix: string := "dnd-node_"
  const FirstId: nat := 1

  /** The first id the editor hands out. */
  lemma FirstEditorId()
    ensures IdPrefix + NatToString(FirstId) == "dnd-node_1"
  {
  }

  /** The drag payload key the sidebar writes and the drop reads. */
  const PayloadKey: string := "application/reactflow"

  /** A drop goes ahead only with the canvas wrapper and the flow instance mounted and a non-empty
      block kind in the payload. The kind is not looked up in the catalog. */
  predicate DropAccepted(hasWrapper: bool, hasInstance: bool, kind: string)
  {
    hasWrapper && hasInstance && kind != ""
  }

  /** The node a drop creates: rendered by the custom node, with only the block kind as data. */
  function NewDropNode(id: string, kind: string, position: Position): (n: Node)
    ensures n.id == id && n.renderer == "custom" && n.position == position && !n.selected
    ensures n.data.Keys == {"type"} && Kind(n) == kind
  {
    Node(id, "custom", position, None, false, map["type" := kind])
  }

  /** `onDrop`. `position` is the drop point already projected to graph space; the id counter
      moves on only when a node is added. */
  method OnDrop(store: EditorStore.Store, ids: IdCounter.Counter, hasWrapper: bool, hasInstance: bool,
                kind: string, position: Position) returns (added: Option<Node>)
    requires store.Valid() && ids.Valid() && ids.prefix == IdPrefix
    modifies store, ids
    ensures store.Valid() && ids.Valid()
    ensures !DropAccepted(hasWrapper, hasInstance, kind) ==>
              added == None && store.State() == old(store.State()) && ids.next == old(ids.next)
              && ids.issued == old(ids.issued)
    ensures DropAccepted(hasWrapper, hasInstance, kind) ==>
              && added == Some(NewDropNode(IdPrefix + NatToString(old(ids.next)), kind, position))
              && store.State() == StoreSpec.AddNode(old(store.State()), added.value)
              && added.value.id !in old(ids.issued)
              && ids.next == old(ids.next) + 1
              && ids.issued == old(ids.issued) + {added.value.id}
  {
    added := None;
    if !hasWrapper || !hasInstance {
      return;
    }
    if kind == "" {
      return;
    }
    var id := ids.GetId();
    var node := NewDropNode(id, kind, position);
    store.AddNode(node);
    added := Some(node);
  }

  /** Node ids are pairwise distinct. */
  predicate DistinctIds(ns: seq<Node>)
  {
    forall i, j :: 0 <= i < j < |ns| ==> ns[i].id != ns[j].id
  }

  /** A drop whose id was never issued before keeps the node ids distinct, provided every node on
      the canvas got its id from the same counter. */
  lemma DropKeepsIdsDistinct(ns: seq<Node>, issued: set<string>, n: Node)
    requires DistinctIds(ns) && (forall i :: 0 <= i < |ns| ==> ns[i].id in issued) && n.id !in issued
    ensures DistinctIds(ns + [n])
  {
    forall i, j | 0 <= i < j < |ns + [n]|
      ensures (ns + [n])[i].id != (ns + [n])[j].id
    {
      if j == |ns| {
        assert ns[i].id in issued;
      }
    }
  }

  /** A counter restarted at its first value can hand out the id of a node loaded with `setNodes`:
      freshness holds against the counter's own ids only. */
  lemma RestartedCounterCanRepeatLoadedId(loaded: Node, p: Position)
    requires loaded.id == IdPrefix + NatToString(FirstId)
    ensures var s := StoreSpec.AddNode(StoreSpec.SetNodes(StoreSpec.Initial, [loaded]),
                                       NewDropNode(IdPrefix + NatToString(FirstId), "vsl", p));
            !DistinctIds(s.nodes)
  {
    var s := StoreSpec.AddNode(StoreSpec.SetNodes(StoreSpec.Initial, [loaded]),
                               NewDropNode(IdPrefix + NatToString(FirstId), "vsl", p));
    assert s.nodes[0].id == s.nodes[1].id;
  }

  /** One undo takes back a drop. */
  lemma UndoTakesBackDrop(s: StoreSpec.State, n: Node)
    requires StoreSpec.Valid(s) && |s.history| < StoreSpec.HistoryLimit
    ensures var u := StoreSpec.Undo(StoreSpec.AddNode(s, n));
            u.nodes == s.nodes && u.edges == s.edges && u.history == s.history
  {
    StoreProperties.UndoAfterRecord(s, StoreSpec.AddNode(s, n));
  }

  /** `onConnect`: the edges go through `setEdges`, so a connection is not undoable. */
  method OnConnect(store: EditorStore.Store, c: Connection)
    requires store.Valid()
    modifies store
    ensures store.Valid()
    ensures store.State() == StoreSpec.SetEdges(old(store.State()), AddEdge(c, old(store.edges)))
  {
    store.SetEdges(AddEdge(c, store.edges));
  }

  /** A connection adds at most one edge, between the two ends it names, and records no history. */
  lemma ConnectAddsOneEdge(s: StoreSpec.State, c: Connection)
    ensures var t := StoreSpec.SetEdges(s, AddEdge(c, s.edges));
            && t.history == s.history && t.nodes == s.nodes
            && s.edges <= t.edges && |t.edges| <= |s.edges| + 1
            && (|t.edges| == |s.edges| + 1 ==> Connects(t.edges[|s.edges|], c))
  {
  }

  /** Connecting twice adds the edge once. */
  lemma {:induction false} ConnectTwiceAddsOnce(es: seq<Edge>, c: Connection)
    ensures AddEdge(c, AddEdge(c, es)) == AddEdge(c, es)
  {
    var once := AddEdge(c, es);
    if !(c.source == "" || c.target == "" || exists i :: 0 <= i < |es| && Connects(es[i], c)) {
      assert Connects(once[|es|], c);
    }
  }

  /** What the dashboard left under `'funnelToLoad'`, once parsed: a record whose `nodes` and
      `edges` may each be missing, or text that does not parse. */
  datatype Handoff =
    | Malformed
    | Payload(nodes: Option<seq<Node>>, edges: Option<seq<Edge>>)

  /** The hydration effect runs for the `'new'` funnel once the flow instance exists. */
  predicate HydrationRuns(funnelId: string, hasInstance: bool)
  {
    funnelId == "new" && hasInstance
  }

  /** The hydration effect. `stored` is the session storage entry (`None` when absent or empty);
      the entry left behind is returned. */
  method HydrateNewFunnel(store: EditorStore.Store, funnelId: string, hasInstance: bool,
                          stored: Option<Handoff>) returns (remaining: Option<Handoff>)
    requires store.Valid()
    modifies store
    ensures store.Valid()
    ensures remaining == if HydrationRuns(funnelId, hasInstance) then None else stored
    ensures (HydrationRuns(funnelId, hasInstance) && stored.Some? && stored.value.Payload?
             && stored.value.nodes.Some? && stored.value.edges.Some?) ==>
              store.State() == StoreSpec.SetEdges(StoreSpec.SetNodes(old(store.State()), stored.value.nodes.value),
                                                  stored.value.edges.value)
    ensures !(HydrationRuns(funnelId, hasInstance) && stored.Some? && stored.value.Payload?
              && stored.value.nodes.Some? && stored.value.edges.Some?) ==>
              store.State() == old(store.State())
  {
    remaining := stored;
    if funnelId == "new" && hasInstance {
      if stored.Some? {
        match stored.value {
          case Malformed =>
          case Payload(nodes, edges) =>
            if nodes.Some? && edges.Some? {
              store.SetNodes(nodes.value);
              store.SetEdges(edges.value);
            }
        }
        remaining := None;
      }
    }
  }

  /** Hydration replaces nodes and edges wholesale and records nothing: the history is what it was,
      so an undo right after it restores what an undo before it would have restored. Entering the
      `new` editor from another funnel starts with an empty history, and the undo then does nothing.
      Entering it again while the store is already on `new` keeps the older history (`setFunnelId`
      changes nothing), and the undo then brings back the graph from before the hydration's
      predecessor edit. */
  lemma HydrationKeepsHistory(s: StoreSpec.State, ns: seq<Node>, es: seq<Edge>)
    ensures var u := StoreSpec.SetFunnelId(s, "new");
            var t := StoreSpec.SetEdges(StoreSpec.SetNodes(u, ns), es);
            && t.nodes == ns && t.edges == es && t.history == u.history
            && (|u.history| > 0 ==> StoreSpec.Undo(t).nodes == StoreSpec.Undo(u).nodes
                                    && StoreSpec.Undo(t).edges == StoreSpec.Undo(u).edges
                                    && StoreSpec.Undo(t).history == StoreSpec.Undo(u).history)
            && (|u.history| == 0 ==> StoreSpec.Undo(t) == t)
            && (s.funnelId == Some("new") ==> u.history == s.history)
            && (s.funnelId != Some("new") ==> u.history == [])
  {
  }

  /** Closing the preview modal. */
  method ClosePreview(store: EditorStore.Store)
    requires store.Valid()
    modifies store
    ensures store.Valid()
    ensures store.State() == StoreSpec.SetPreviewContent(old(store.State()), None)
  {
    store.SetPreviewContent(None);
  }
}
