/** The block catalog (`blockTypes`) and its lookup (`findBlockByType`). The catalog itself is not
    part of this model: every component receives it as a parameter. */
module BlockRegistry {
  import opened Wrappers
  import Seqs

  /** A catalog entry (`label` is a Dafny keyword, so the label is `title`); the icon is rendering only. */
  datatype BlockInfo = BlockInfo(kind: string, title: string, description: string, color: string,
                                 hasLink: bool, hasDescription: bool, extra: string)

  type Catalog = seq<BlockInfo>

  /** The first catalog entry of the given kind, or `None` for an unknown kind. */
  function FindBlockByType(catalog: Catalog, kind: string): (r: Option<BlockInfo>)
    ensures r.Some? ==> r.value in catalog && r.value.kind == kind
    ensures r.None? <==> forall i :: 0 <= i < |catalog| ==> catalog[i].kind != kind
  {
    Seqs.FindFirst(catalog, (b: BlockInfo) => b.kind == kind)
  }
}
