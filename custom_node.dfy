/** The flow node component: what a node of each kind shows, which preview its expand button opens,
    and the store calls of its expand and delete buttons. */
module CustomNode {
  import opened Wrappers
  import opened Graph
  import opened BlockRegistry
  import opened Text
  import Seqs
  import StoreSpec
  import StoreProperties
  import EditorStore
  import PropertiesPanel

  /** The kinds that carry an uploaded file (the same list as the properties panel's). */
  const FileKinds: seq<string> := PropertiesPanel.FileInputTypes

  /** Placeholder of a note without text. */
  const NotePlaceholder: string := "Clique para adicionar uma anotação..."

  /** `hasUrlPreview`: the kind takes a link and the node has one. */
  predicate HasUrlPreview(info: BlockInfo, data: Data)
  {
    info.hasLink && Field(data, "url") != ""
  }

  /** `hasFilePreview`: the kind takes a file and the node has one. */
  predicate HasFilePreview(data: Data)
  {
    Field(data, "type") in FileKinds && Field(data, "fileSrc") != ""
  }

  /** `hasContent`: the card shows a preview instead of its summary. */
  predicate HasContent(info: BlockInfo, data: Data)
  {
    HasUrlPreview(info, data) || HasFilePreview(data)
  }

  /** `getPreviewType`: the preview modal's content type for this node, if any. */
  function PreviewType(info: BlockInfo, data: Data): (r: Option<string>)
    ensures HasUrlPreview(info, data) ==> r.Some? && r.value in {"vsl", "landing", "checkout"}
  {
    var kind := Field(data, "type");
    if HasUrlPreview(info, data) then
      if kind == "vsl" then Some("vsl")
      else if kind == "landing-page" then Some("landing")
      else if kind == "checkout" then Some("checkout")
      else Some("landing")
    else if kind == "image-upload" then Some("imagem")
    else if kind == "video-upload" then Some("video")
    else if kind == "audio-upload" then Some("audio")
    else if kind == "pdf-upload" then Some("pdf")
    else None
  }

  /** What an expand click does. */
  datatype ExpandAction =
    | Ignore
    | OpenInNewTab(url: string)
    | ShowPreview(content: StoreSpec.Preview)

  /** `handleExpandClick` as a value: nothing without a preview type, a new tab for a PDF file, and
      otherwise the preview of the link, or of the file when there is no link preview. A missing
      `fileSrc` is read as `""`. */
  function Expand(info: BlockInfo, data: Data): (r: ExpandAction)
    ensures r.Ignore? <==> PreviewType(info, data).None?
    ensures r.OpenInNewTab? ==> PreviewType(info, data) == Some("pdf") && r.url == Field(data, "fileSrc") && r.url != ""
    ensures r.ShowPreview? ==> PreviewType(info, data) == Some(r.content.kind)
    ensures r.ShowPreview? ==>
              r.content.src == if HasUrlPreview(info, data) then Field(data, "url") else Field(data, "fileSrc")
  {
    match PreviewType(info, data)
    case None => Ignore
    case Some(t) =>
      if t == "pdf" && Field(data, "fileSrc") != "" then OpenInNewTab(Field(data, "fileSrc"))
      else ShowPreview(StoreSpec.Preview(t, if HasUrlPreview(info, data) then Field(data, "url") else Field(data, "fileSrc")))
  }

  /** A node previews only what its properties panel lets the user set: a link preview needs the
      panel's `url` input, a file preview its file input. */
  lemma PreviewNeedsPanelInput(info: BlockInfo, data: Data)
    ensures HasUrlPreview(info, data) ==>
              PropertiesPanel.HasTextInput(PropertiesPanel.Inputs(info, data), "url") && Field(data, "url") != ""
    ensures HasFilePreview(data) ==>
              PropertiesPanel.HasFileInput(PropertiesPanel.Inputs(info, data)) && Field(data, "fileSrc") != ""
    ensures HasContent(info, data) <==> HasUrlPreview(info, data) || HasFilePreview(data)
  {
    PropertiesPanel.InputVisibility(info, data);
  }

  /** A preview type exists exactly for a link preview or one of the four single-file kinds. */
  lemma PreviewTypeCases(info: BlockInfo, data: Data)
    ensures var kind := Field(data, "type");
            PreviewType(info, data).Some? <==>
              HasUrlPreview(info, data) || kind in ["image-upload", "video-upload", "audio-upload", "pdf-upload"]
    ensures PreviewType(info, data) == Some("pdf") <==>
              !HasUrlPreview(info, data) && Field(data, "type") == "pdf-upload"
    ensures PreviewType(info, data) == Some("imagem") <==>
              !HasUrlPreview(info, data) && Field(data, "type") == "image-upload"
  {
  }

  /** A link preview always wins over a file: a linked node previews its link. */
  lemma UrlPreviewWins(info: BlockInfo, data: Data)
    requires HasUrlPreview(info, data)
    ensures Expand(info, data) == ShowPreview(StoreSpec.Preview(PreviewType(info, data).value, Field(data, "url")))
  {
  }

  /** Where the expand button is shown, a preview it opens never has an empty source. */
  lemma ExpandShowsNonEmptySource(info: BlockInfo, data: Data)
    requires HasContent(info, data)
    ensures Expand(info, data).ShowPreview? ==> Expand(info, data).content.src != ""
    ensures Expand(info, data).OpenInNewTab? ==> Expand(info, data).url != ""
  {
  }

  /** An `all-in-one` node with a file and no link shows its file, and its expand button does nothing:
      `getPreviewType` has no case for the kind. */
  lemma AllInOneFileIsNotExpandable(info: BlockInfo, data: Data)
    requires Field(data, "type") == "all-in-one" && !info.hasLink && Field(data, "fileSrc") != ""
    ensures HasContent(info, data) && PreviewType(info, data) == None && Expand(info, data) == Ignore
  {
  }

  /** `handleExpandClick`: the tab opened (the source's `window.open`) is returned. */
  method HandleExpandClick(store: EditorStore.Store, info: BlockInfo, data: Data) returns (tab: Option<string>)
    requires store.Valid()
    modifies store
    ensures store.Valid()
    ensures Expand(info, data).ShowPreview? ==>
              store.State() == StoreSpec.SetPreviewContent(old(store.State()), Some(Expand(info, data).content))
    ensures !Expand(info, data).ShowPreview? ==> store.State() == old(store.State())
    ensures tab == if Expand(info, data).OpenInNewTab? then Some(Expand(info, data).url) else None
  {
    tab := None;
    var previewType := PreviewType(info, data);
    if previewType.None? {
      return;
    }
    if previewType.value == "pdf" && Field(data, "fileSrc") != "" {
      tab := Some(Field(data, "fileSrc"));
    } else {
      var src := if HasUrlPreview(info, data) then Field(data, "url") else Field(data, "fileSrc");
      store.SetPreviewContent(Some(StoreSpec.Preview(previewType.value, src)));
    }
  }

  /** A line of the card's summary: a field name and its value. */
  datatype Detail = Detail(key: string, value: string)

  /** The candidate summary lines, in display order. */
  function DetailCandidates(data: Data): seq<Detail>
  {
    [Detail("value", Field(data, "value")), Detail("subject", Field(data, "subject")),
     Detail("message", Field(data, "message"))]
  }

  /** `additionalData`: the candidates whose value is non-empty. */
  function AdditionalData(data: Data): (r: seq<Detail>)
    ensures |r| <= 3
    ensures forall i :: 0 <= i < |r| ==> r[i].value != "" && r[i].value == Field(data, r[i].key)
  {
    Seqs.Filter(DetailCandidates(data), Shown)
  }

  /** `item => item.value`: a line is kept when its value is non-empty. */
  predicate Shown(d: Detail)
  {
    d.value != ""
  }

  /** One summary line for `key`, or none when that field is empty. */
  function Keep(data: Data, key: string): seq<Detail>
  {
    if Field(data, key) != "" then [Detail(key, Field(data, key))] else []
  }

  /** `additionalData` field by field: value, then subject, then message, each only when set. */
  lemma AdditionalDataByField(data: Data)
    ensures AdditionalData(data) == Keep(data, "value") + Keep(data, "subject") + Keep(data, "message")
  {
    var c := DetailCandidates(data);
    assert c == [c[0]] + ([c[1]] + [c[2]]);
    Seqs.FilterConcat([c[0]], [c[1]] + [c[2]], Shown);
    Seqs.FilterConcat([c[1]], [c[2]], Shown);
    Seqs.FilterSingleton(c[0], Shown);
    Seqs.FilterSingleton(c[1], Shown);
    Seqs.FilterSingleton(c[2], Shown);
  }

  /** The text of a summary line: the value is shown as an amount in reais. */
  function DetailText(d: Detail): (r: string)
    ensures d.key == "value" ==> StartsWith(r, "R$ ") && r[3..] == d.value
    ensures d.key != "value" ==> r == d.value
  {
    if d.key == "value" then "R$ " + d.value else d.value
  }

  /** `cleanUrlForThumIo`: one leading `http://` or `https://` removed. */
  function CleanUrl(url: string): (r: string)
    ensures |r| <= |url| && r == url[|url| - |r|..]
    ensures url == "" ==> r == ""
  {
    if url == "" then ""
    else if StartsWith(url, "https://") then url[8..]
    else if StartsWith(url, "http://") then url[7..]
    else url
  }

  /** Prefixing a protocol and cleaning gives the address back. */
  lemma CleanUrlRemovesProtocol(address: string)
    ensures CleanUrl("https://" + address) == address
    ensures CleanUrl("http://" + address) == address
  {
    assert ("https://" + address)[..8] == "https://";
    assert ("http://" + address)[..7] == "http://";
    assert ("http://" + address)[4] == ':';
  }

  /** A string starting with neither protocol is left as it is. */
  lemma CleanUrlKeepsOthers(url: string)
    requires !StartsWith(url, "http://") && !StartsWith(url, "https://")
    ensures CleanUrl(url) == url
  {
  }

  /** Only one protocol is removed. */
  lemma CleanUrlRemovesOnlyOne()
    ensures CleanUrl("https://http://a.b") == "http://a.b"
  {
    assert StartsWith("https://http://a.b", "https://");
  }

  /** The body of a card. */
  datatype CardBody =
    | Summary(description: Option<string>, details: seq<Detail>, hint: bool)
    | UrlPreview(url: string)
    | FilePreview(kind: string, fileSrc: string, fileName: string)

  /** What the component renders for a node. */
  datatype NodeView =
    | UnknownBlock
    | NoteView(text: string)
    | CardView(title: string, body: CardBody, expandable: bool)

  /** The card's body: a summary without content, else the link preview, else the file preview. */
  function Body(info: BlockInfo, data: Data): (r: CardBody)
    ensures r.Summary? <==> !HasContent(info, data)
    ensures r.Summary? ==> (r.description.Some? <==> info.hasDescription)
                           && (r.hint <==> r.description.None? && r.details == [])
    ensures r.UrlPreview? ==> info.hasLink && r.url != ""
    ensures r.FilePreview? ==> !HasUrlPreview(info, data) && r.kind in FileKinds && r.fileSrc != ""
  {
    if !HasContent(info, data) then
      var details := AdditionalData(data);
      Summary(if info.hasDescription then Some(OrElse(Field(data, "description"), info.description)) else None,
              details, !info.hasDescription && |details| == 0)
    else if HasUrlPreview(info, data) then UrlPreview(Field(data, "url"))
    else FilePreview(Field(data, "type"), Field(data, "fileSrc"), Field(data, "fileName"))
  }

  /** The component for a node's data. */
  function View(catalog: Catalog, data: Data): (r: NodeView)
    ensures r.UnknownBlock? <==> FindBlockByType(catalog, Field(data, "type")).None?
    ensures r.NoteView? ==> Field(data, "type") == "notes" && r.text != ""
    ensures r.CardView? ==> (r.expandable <==> !r.body.Summary?)
  {
    match FindBlockByType(catalog, Field(data, "type"))
    case None => UnknownBlock
    case Some(info) =>
      if Field(data, "type") == "notes" then NoteView(OrElse(Field(data, "notesText"), NotePlaceholder))
      else CardView(OrElse(Field(data, "label"), info.title), Body(info, data), HasContent(info, data))
  }

  /** An unknown kind shows the placeholder and nothing else; a known one never does. */
  lemma UnknownKindShowsPlaceholder(catalog: Catalog, data: Data)
    ensures View(catalog, data) == UnknownBlock <==>
              forall i :: 0 <= i < |catalog| ==> catalog[i].kind != Field(data, "type")
  {
  }

  /** The title and the description fall back to the catalog's when the node's own are empty. */
  lemma CardFallbacks(catalog: Catalog, data: Data, info: BlockInfo)
    requires FindBlockByType(catalog, Field(data, "type")) == Some(info) && Field(data, "type") != "notes"
    ensures View(catalog, data).CardView?
    ensures View(catalog, data).title == if Field(data, "label") != "" then Field(data, "label") else info.title
    ensures !HasContent(info, data) && info.hasDescription ==>
              View(catalog, data).body.description ==
                Some(if Field(data, "description") != "" then Field(data, "description") else info.description)
  {
  }

  /** A note shows its text, or the placeholder when it has none. */
  lemma NoteShowsTextOrPlaceholder(catalog: Catalog, data: Data)
    requires FindBlockByType(catalog, Field(data, "type")).Some? && Field(data, "type") == "notes"
    ensures View(catalog, data) == NoteView(if Field(data, "notesText") != "" then Field(data, "notesText")
                                            else NotePlaceholder)
  {
  }

  /** The expand button is there exactly when the card has content. */
  lemma ExpandableIffContent(catalog: Catalog, data: Data, info: BlockInfo)
    requires FindBlockByType(catalog, Field(data, "type")) == Some(info) && Field(data, "type") != "notes"
    ensures View(catalog, data).expandable <==> HasContent(info, data)
    ensures View(catalog, data).body.Summary? <==> !HasContent(info, data)
  {
  }

  /** `handleDelete`: deletes this node, by its own id. */
  method HandleDelete(store: EditorStore.Store, id: string)
    requires store.Valid()
    modifies store
    ensures store.Valid()
    ensures store.State() == StoreSpec.DeleteNode(old(store.State()), id)
    ensures !HasNode(store.nodes, id)
  {
    store.DeleteNode(id);
    StoreProperties.DeleteNodeCascades(old(store.State()), id);
  }
}
