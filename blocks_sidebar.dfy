/** The blocks sidebar: the case-insensitive search over the catalog and the drag payload a block
    hands to the canvas. */
module BlocksSidebar {
  import opened Graph
  import opened BlockRegistry
  import opened Text
  import Seqs
  import FunnelEditor

  /** A block matches a non-empty term when its lower-cased label contains the lower-cased term. */
  predicate Matches(b: BlockInfo, term: string)
  {
    Contains(ToLower(b.title), ToLower(term))
  }

  /** `filteredBlockTypes`. */
  function FilterBlocks(catalog: Catalog, term: string): (r: Catalog)
    ensures |r| <= |catalog|
    ensures forall i :: 0 <= i < |r| ==> r[i] in catalog
    ensures term == "" ==> r == catalog
  {
    if term == "" then catalog else MatchingBlocks(catalog, ToLower(term))
  }

  /** The blocks whose lower-cased label contains `needle`, in catalog order. */
  function MatchingBlocks(catalog: Catalog, needle: string): Catalog
  {
    Seqs.Filter(catalog, (b: BlockInfo) => Contains(ToLower(b.title), needle))
  }

  /** A block is listed exactly when it is in the catalog and the term is empty or matches it. */
  lemma FilterMembership(catalog: Catalog, term: string, b: BlockInfo)
    ensures b in FilterBlocks(catalog, term) <==> b in catalog && (term == "" || Matches(b, term))
  {
    if term != "" {
      var r := FilterBlocks(catalog, term);
      if b in r {
        var i :| 0 <= i < |r| && r[i] == b;
      }
      if b in catalog && Matches(b, term) {
        var i :| 0 <= i < |catalog| && catalog[i] == b;
      }
    }
  }

  /** The listed blocks keep the catalog's order: the blocks listed from the front of the catalog
      come before those listed from the rest. */
  lemma FilterKeepsOrder(catalog: Catalog, term: string, k: nat)
    requires k <= |catalog|
    ensures FilterBlocks(catalog, term) == FilterBlocks(catalog[..k], term) + FilterBlocks(catalog[k..], term)
  {
    assert catalog == catalog[..k] + catalog[k..];
    if term != "" {
      Seqs.FilterConcat(catalog[..k], catalog[k..], (b: BlockInfo) => Contains(ToLower(b.title), ToLower(term)));
    }
  }

  /** The search ignores the case of the term. */
  lemma SearchIgnoresCase(catalog: Catalog, term: string)
    ensures FilterBlocks(catalog, ToLower(term)) == FilterBlocks(catalog, term)
  {
    ToLowerIdempotent(term);
    assert term == "" <==> ToLower(term) == "";
  }

  /** A substring of a lower-cased string's prefix occurs in the string's lower-cased form. */
  lemma ContainsPrefix(s: string, t: string, u: string)
    requires Contains(s, t + u)
    ensures Contains(s, t)
  {
    var i :| 0 <= i <= |s| - |t + u| && OccursAt(s, t + u, i);
    assert s[i..i + |t|] == (t + u)[..|t|];
    assert OccursAt(s, t, i);
  }

  /** Typing more never brings a block back: every block listed for the longer term is listed for
      the shorter one. */
  lemma LongerTermNarrows(catalog: Catalog, term: string, more: string, b: BlockInfo)
    requires term != ""
    requires b in FilterBlocks(catalog, term + more)
    ensures b in FilterBlocks(catalog, term)
  {
    FilterMembership(catalog, term + more, b);
    FilterMembership(catalog, term, b);
    ToLowerConcat(term, more);
    ContainsPrefix(ToLower(b.title), ToLower(term), ToLower(more));
  }

  /** What the sidebar lists. */
  datatype SidebarView = NoResults(message: string) | Grid(blocks: seq<BlockInfo>)

  const NoResultsMessage: string := "Nenhum bloco encontrado."

  /** The grid of the listed blocks, or the message when none is listed. */
  function Sidebar(catalog: Catalog, term: string): (r: SidebarView)
    ensures r.NoResults? <==> FilterBlocks(catalog, term) == []
    ensures r.NoResults? ==> r.message == NoResultsMessage
    ensures r.Grid? ==> |r.blocks| > 0 && forall i :: 0 <= i < |r.blocks| ==> r.blocks[i] in catalog
  {
    var shown := FilterBlocks(catalog, term);
    if |shown| > 0 then Grid(shown) else NoResults(NoResultsMessage)
  }

  /** The message replaces the grid exactly when no catalog block matches. */
  lemma NoResultsIffNothingMatches(catalog: Catalog, term: string)
    ensures Sidebar(catalog, term).NoResults? <==>
              forall i :: 0 <= i < |catalog| ==> !(term == "" || Matches(catalog[i], term))
  {
    var shown := FilterBlocks(catalog, term);
    if |shown| > 0 {
      FilterMembership(catalog, term, shown[0]);
      var i :| 0 <= i < |catalog| && catalog[i] == shown[0];
    } else {
      forall i | 0 <= i < |catalog|
        ensures !(term == "" || Matches(catalog[i], term))
      {
        FilterMembership(catalog, term, catalog[i]);
      }
    }
  }

  /** `onDragStart`: the drag carries the block's kind under the payload key. */
  function DragPayload(b: BlockInfo): (payload: map<string, string>)
    ensures payload.Keys == {FunnelEditor.PayloadKey} && payload[FunnelEditor.PayloadKey] == b.kind
  {
    map[FunnelEditor.PayloadKey := b.kind]
  }

  /** `getData` on the drop: the payload's kind, or `""` when there is none. */
  function DroppedKind(payload: map<string, string>): string
  {
    Field(payload, FunnelEditor.PayloadKey)
  }

  /** Dragging a block and dropping it on a mounted canvas creates a node of the block's kind. */
  lemma DragThenDropCreatesKind(b: BlockInfo, id: string, p: Position)
    requires b.kind != ""
    ensures FunnelEditor.DropAccepted(true, true, DroppedKind(DragPayload(b)))
    ensures Kind(FunnelEditor.NewDropNode(id, DroppedKind(DragPayload(b)), p)) == b.kind
  {
  }
}
