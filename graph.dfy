/** The funnel graph's values: nodes, edges and the open `data` record of a node. */
module Graph {
  import opened Wrappers

  /** A node's `data`: field name to value. A missing key is JavaScript's `undefined`. */
  type Data = map<string, string>

  /** Graph-space coordinates; the screen-to-graph projection is floating point and is not modelled. */
  datatype Position = Position(x: int, y: int)

  datatype Size = Size(width: int, height: int)

  /** A flow node. `renderer` is the node-level `type` (`'custom'`); the block kind is `data.type`. */
  datatype Node = Node(id: string, renderer: string, position: Position, size: Option<Size>,
                       selected: bool, data: Data)

  datatype Edge = Edge(id: string, source: string, target: string, selected: bool)

  /** A field read as the components read it: `undefined` and `''` are both falsy, so both are `""`. */
  function Field(d: Data, key: string): string
  {
    if key in d then d[key] else ""
  }

  /** `a || b` on two string fields. */
  function OrElse(a: string, b: string): (r: string)
    ensures a != "" ==> r == a
    ensures a == "" ==> r == b
  {
    if a != "" then a else b
  }

  /** The node's block kind, `data.type`. */
  function Kind(n: Node): string
  {
    Field(n.data, "type")
  }

  /** `{ ...d, ...patch }`: a shallow merge in which the patch's keys win. */
  function Merge(d: Data, patch: Data): (r: Data)
    ensures r.Keys == d.Keys + patch.Keys
    ensures forall k :: k in patch ==> r[k] == patch[k]
    ensures forall k :: k in d && k !in patch ==> r[k] == d[k]
  {
    d + patch
  }

  /** Merging two patches one after the other is merging their union once. */
  lemma MergeTwice(d: Data, p1: Data, p2: Data)
    ensures Merge(Merge(d, p1), p2) == Merge(d, p1 + p2)
  {
  }

  function Ids(ns: seq<Node>): (r: seq<string>)
    ensures |r| == |ns| && forall i :: 0 <= i < |ns| ==> r[i] == ns[i].id
  {
    seq(|ns|, i requires 0 <= i < |ns| => ns[i].id)
  }

  predicate HasNode(ns: seq<Node>, id: string)
  {
    exists i :: 0 <= i < |ns| && ns[i].id == id
  }

  /** No edge dangles: both ends of every edge name a node of the graph. */
  predicate EdgesClosed(ns: seq<Node>, es: seq<Edge>)
  {
    forall i :: 0 <= i < |es| ==> HasNode(ns, es[i].source) && HasNode(ns, es[i].target)
  }

  predicate AnySelected(ns: seq<Node>)
  {
    exists i :: 0 <= i < |ns| && ns[i].selected
  }
}
