/** Stand-ins for the flow library's change batches (`applyNodeChanges`, `applyEdgeChanges`,
    `addEdge`), which are not part of this model's source. Each element receives, in order, the
    changes that carry its id; a remove change drops it. */
module FlowChanges {
  import opened Wrappers
  import opened Graph

  datatype NodeChange =
    | PositionChange(id: string, position: Option<Position>, dragging: Option<bool>)
    | SelectChange(id: string, selected: bool)
    | DimensionsChange(id: string, size: Size)
    | RemoveChange(id: string)

  datatype EdgeChange =
    | EdgeSelectChange(id: string, selected: bool)
    | EdgeRemoveChange(id: string)

  /** A connect gesture between two node handles (handles themselves are not modelled). */
  datatype Connection = Connection(source: string, target: string)

  function UpdateNode(c: NodeChange, n: Node): (m: Node)
    ensures m.id == n.id && m.data == n.data && m.renderer == n.renderer
  {
    match c
    case PositionChange(_, p, _) => if p.Some? then n.(position := p.value) else n
    case SelectChange(_, b) => n.(selected := b)
    case DimensionsChange(_, sz) => n.(size := Some(sz))
    case RemoveChange(_) => n
  }

  /** The node after the batch's changes for its id, or `None` once one of them removes it. */
  function ChangedNode(cs: seq<NodeChange>, n: Node): (r: Option<Node>)
    ensures r.Some? ==> r.value.id == n.id && r.value.data == n.data
  {
    if cs == [] then Some(n)
    else if cs[0].id != n.id then ChangedNode(cs[1..], n)
    else if cs[0].RemoveChange? then None
    else ChangedNode(cs[1..], UpdateNode(cs[0], n))
  }

  predicate Removes(cs: seq<NodeChange>, id: string)
  {
    exists i :: 0 <= i < |cs| && cs[i] == RemoveChange(id)
  }

  lemma {:induction false} ChangedNodeDropsIffRemoved(cs: seq<NodeChange>, n: Node)
    ensures ChangedNode(cs, n).None? <==> Removes(cs, n.id)
  {
    if cs != [] {
      ChangedNodeDropsIffRemoved(cs[1..], if cs[0].id == n.id then UpdateNode(cs[0], n) else n);
      if Removes(cs[1..], n.id) {
        var i :| 0 <= i < |cs[1..]| && cs[1..][i] == RemoveChange(n.id);
        assert cs[i + 1] == RemoveChange(n.id);
      }
      if Removes(cs, n.id) && cs[0] != RemoveChange(n.id) {
        var i :| 0 <= i < |cs| && cs[i] == RemoveChange(n.id);
        assert cs[1..][i - 1] == RemoveChange(n.id);
      }
    }
  }

  function ApplyNodeChanges(cs: seq<NodeChange>, ns: seq<Node>): (r: seq<Node>)
    ensures |r| <= |ns|
  {
    if ns == [] then []
    else
      (match ChangedNode(cs, ns[0]) case Some(m) => [m] case None => [])
      + ApplyNodeChanges(cs, ns[1..])
  }

  /** A batch keeps exactly the nodes it does not remove, and creates none. */
  lemma {:induction false} ApplyNodeChangesIds(cs: seq<NodeChange>, ns: seq<Node>, id: string)
    ensures HasNode(ApplyNodeChanges(cs, ns), id) <==> HasNode(ns, id) && !Removes(cs, id)
  {
    if ns != [] {
      var r := ApplyNodeChanges(cs, ns);
      var tail := ApplyNodeChanges(cs, ns[1..]);
      ApplyNodeChangesIds(cs, ns[1..], id);
      ChangedNodeDropsIffRemoved(cs, ns[0]);
      var head := match ChangedNode(cs, ns[0]) case Some(m) => [m] case None => [];
      assert r == head + tail;
      if HasNode(r, id) {
        var i :| 0 <= i < |r| && r[i].id == id;
        if i >= |head| {
          assert tail[i - |head|].id == id;
        }
      }
      if HasNode(ns[1..], id) && !Removes(cs, id) {
        var i :| 0 <= i < |ns[1..]| && ns[1..][i].id == id;
        assert HasNode(tail, id);
        var j :| 0 <= j < |tail| && tail[j].id == id;
        assert r[|head| + j] == tail[j];
      }
      if HasNode(ns, id) {
        var i :| 0 <= i < |ns| && ns[i].id == id;
        if i > 0 {
          assert ns[1..][i - 1].id == id;
        }
      }
      if ns[0].id == id && !Removes(cs, id) {
        assert r[0] == ChangedNode(cs, ns[0]).value;
      }
    }
  }

  /** A node with the selection flag ignored: what history and persistence care about. */
  function Content(n: Node): Node
  {
    n.(selected := false)
  }

  function Contents(ns: seq<Node>): (r: seq<Node>)
    ensures |r| == |ns| && forall i :: 0 <= i < |ns| ==> r[i] == Content(ns[i])
  {
    seq(|ns|, i requires 0 <= i < |ns| => Content(ns[i]))
  }

  predicate SelectionOnly(cs: seq<NodeChange>)
  {
    forall i :: 0 <= i < |cs| ==> cs[i].SelectChange?
  }

  lemma {:induction false} SelectChangesKeepContent(cs: seq<NodeChange>, n: Node)
    requires SelectionOnly(cs)
    ensures ChangedNode(cs, n).Some? && Content(ChangedNode(cs, n).value) == Content(n)
  {
    if cs != [] {
      assert cs[0].SelectChange?;
      var m := if cs[0].id == n.id then UpdateNode(cs[0], n) else n;
      assert Content(m) == Content(n);
      SelectChangesKeepContent(cs[1..], m);
    }
  }

  /** A selection-only batch changes no node's position, size or data, and drops no node. */
  lemma {:induction false} SelectionOnlyKeepsContents(cs: seq<NodeChange>, ns: seq<Node>)
    requires SelectionOnly(cs)
    ensures Contents(ApplyNodeChanges(cs, ns)) == Contents(ns)
  {
    if ns != [] {
      SelectChangesKeepContent(cs, ns[0]);
      SelectionOnlyKeepsContents(cs, ns[1..]);
      var m := ChangedNode(cs, ns[0]).value;
      var tail := ApplyNodeChanges(cs, ns[1..]);
      assert ApplyNodeChanges(cs, ns) == [m] + tail;
      ContentsConcat([m], tail);
      assert ns == [ns[0]] + ns[1..];
      ContentsConcat([ns[0]], ns[1..]);
    }
  }

  lemma ContentsConcat(a: seq<Node>, b: seq<Node>)
    ensures Contents(a + b) == Contents(a) + Contents(b)
  {
  }

  function ChangedEdge(cs: seq<EdgeChange>, e: Edge): (r: Option<Edge>)
    ensures r.Some? ==> r.value.id == e.id && r.value.source == e.source && r.value.target == e.target
  {
    if cs == [] then Some(e)
    else if cs[0].id != e.id then ChangedEdge(cs[1..], e)
    else match cs[0]
      case EdgeRemoveChange(_) => None
      case EdgeSelectChange(_, b) => ChangedEdge(cs[1..], e.(selected := b))
  }

  function ApplyEdgeChanges(cs: seq<EdgeChange>, es: seq<Edge>): (r: seq<Edge>)
    ensures |r| <= |es|
  {
    if es == [] then []
    else
      (match ChangedEdge(cs, es[0]) case Some(f) => [f] case None => [])
      + ApplyEdgeChanges(cs, es[1..])
  }

  /** An edge batch never makes an edge dangle: it keeps or drops edges and never moves their ends. */
  lemma {:induction false} EdgeBatchKeepsEdgesClosed(ns: seq<Node>, cs: seq<EdgeChange>, es: seq<Edge>)
    requires EdgesClosed(ns, es)
    ensures EdgesClosed(ns, ApplyEdgeChanges(cs, es))
  {
    if es != [] {
      EdgeBatchKeepsEdgesClosed(ns, cs, es[1..]);
      var head: seq<Edge> := match ChangedEdge(cs, es[0]) case Some(f) => [f] case None => [];
      var tail := ApplyEdgeChanges(cs, es[1..]);
      assert ApplyEdgeChanges(cs, es) == head + tail;
      forall i | 0 <= i < |head + tail|
        ensures HasNode(ns, (head + tail)[i].source) && HasNode(ns, (head + tail)[i].target)
      {
        if i < |head| {
          assert (head + tail)[i].source == es[0].source && (head + tail)[i].target == es[0].target;
        } else {
          assert (head + tail)[i] == tail[i - |head|];
        }
      }
    }
  }

  /** The id `addEdge` gives a connection without handles. */
  function ConnectionEdgeId(c: Connection): string
  {
    "reactflow__edge-" + c.source + "-" + c.target
  }

  predicate Connects(e: Edge, c: Connection)
  {
    e.source == c.source && e.target == c.target
  }

  /** `addEdge`: a connection missing an end, or one that already exists, leaves the edges as they
      are; otherwise a new edge is appended. */
  function AddEdge(c: Connection, es: seq<Edge>): (r: seq<Edge>)
    ensures es <= r && |r| <= |es| + 1
    ensures |r| == |es| + 1 <==>
              c.source != "" && c.target != "" && forall i :: 0 <= i < |es| ==> !Connects(es[i], c)
    ensures |r| == |es| + 1 ==>
              Connects(r[|es|], c) && r[|es|].id == ConnectionEdgeId(c) && !r[|es|].selected
  {
    if c.source == "" || c.target == "" then es
    else if exists i :: 0 <= i < |es| && Connects(es[i], c) then es
    else es + [Edge(ConnectionEdgeId(c), c.source, c.target, false)]
  }

  /** Every node with the id, placed at `p`. */
  function MoveTo(ns: seq<Node>, id: string, p: Position): (r: seq<Node>)
    ensures |r| == |ns|
    ensures forall i :: 0 <= i < |ns| ==> r[i] == if ns[i].id == id then ns[i].(position := p) else ns[i]
  {
    seq(|ns|, i requires 0 <= i < |ns| => if ns[i].id == id then ns[i].(position := p) else ns[i])
  }

  /** A later move of the same node overrides an earlier one. */
  lemma MoveToTwice(ns: seq<Node>, id: string, p: Position, q: Position)
    ensures MoveTo(MoveTo(ns, id, p), id, q) == MoveTo(ns, id, q)
  {
  }

  /** A single position change moves the node it names, when it carries a position. */
  lemma ChangedByPosition(id: string, p: Option<Position>, dragging: Option<bool>, n: Node)
    ensures ChangedNode([PositionChange(id, p, dragging)], n) ==
              Some(if n.id == id && p.Some? then n.(position := p.value) else n)
  {
    var cs := [PositionChange(id, p, dragging)];
    assert cs[1..] == [];
  }

  lemma MoveToCons(ns: seq<Node>, id: string, p: Position)
    requires ns != []
    ensures MoveTo(ns, id, p) == [if ns[0].id == id then ns[0].(position := p) else ns[0]] + MoveTo(ns[1..], id, p)
  {
  }

  /** A batch of one position change moves the node with its id to the position it carries, and
      changes nothing when it carries none. */
  lemma {:induction false} PositionBatch(ns: seq<Node>, id: string, p: Option<Position>, dragging: Option<bool>)
    ensures ApplyNodeChanges([PositionChange(id, p, dragging)], ns) ==
              if p.Some? then MoveTo(ns, id, p.value) else ns
  {
    var cs := [PositionChange(id, p, dragging)];
    if ns != [] {
      PositionBatch(ns[1..], id, p, dragging);
      ChangedByPosition(id, p, dragging, ns[0]);
      if p.Some? {
        MoveToCons(ns, id, p.value);
      } else {
        assert ns == [ns[0]] + ns[1..];
      }
    }
  }
}
