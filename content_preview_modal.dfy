/** The preview modal: the title, description and renderer for each preview type, and the PDF
    preview's decoding of a `data:` URL into bytes. */
module ContentPreviewModal {
  import opened Wrappers
  import opened Graph
  import opened Text
  import opened BlockRegistry
  import StoreSpec
  import CustomNode

  const SiteTitle: string := "Pré-visualização do Site"
  const ImageTitle: string := "Pré-visualização da Imagem"
  const VideoTitle: string := "Pré-visualização do Vídeo"
  const AudioTitle: string := "Pré-visualização do Áudio"
  const PdfTitle: string := "Pré-visualização do PDF"
  const GenericTitle: string := "Pré-visualização do Conteúdo"

  /** The preview types shown as an embedded web page. */
  const SiteTypes: seq<string> := ["landing", "vsl", "checkout"]

  /** `getTitle`: one title per known type, the generic one for any other. */
  function Title(kind: string): (r: string)
    ensures r == SiteTitle <==> kind in SiteTypes
    ensures r == PdfTitle <==> kind == "pdf"
    ensures r == GenericTitle <==> kind !in SiteTypes && kind !in ["imagem", "video", "audio", "pdf"]
  {
    if kind in SiteTypes then SiteTitle
    else if kind == "imagem" then ImageTitle
    else if kind == "video" then VideoTitle
    else if kind == "audio" then AudioTitle
    else if kind == "pdf" then PdfTitle
    else GenericTitle
  }

  /** `getDescription`: site previews get a note whose link opens `src` in a new tab. */
  function Description(p: StoreSpec.Preview): (r: Option<string>)
    ensures r.Some? <==> p.kind in SiteTypes
    ensures r.Some? ==> r.value == p.src
  {
    if p.kind in SiteTypes then Some(p.src) else None
  }

  /** The element `renderContent` picks. */
  datatype Renderer =
    | Website(src: string)
    | ImageView(src: string)
    | VideoPlayer(src: string)
    | AudioPlayer(src: string)
    | PdfViewer(src: string)
    | Unsupported

  /** `renderContent`: the site types embed the page, each media type gets its player, and any other
      type the unsupported message; every renderer shows the content's own source. */
  function RenderContent(p: StoreSpec.Preview): (r: Renderer)
    ensures r.Website? <==> p.kind in SiteTypes
    ensures r.PdfViewer? <==> p.kind == "pdf"
    ensures r.Unsupported? <==> p.kind !in SiteTypes && p.kind !in ["imagem", "video", "audio", "pdf"]
    ensures !r.Unsupported? ==> r.src == p.src
  {
    if p.kind in SiteTypes then Website(p.src)
    else if p.kind == "imagem" then ImageView(p.src)
    else if p.kind == "video" then VideoPlayer(p.src)
    else if p.kind == "audio" then AudioPlayer(p.src)
    else if p.kind == "pdf" then PdfViewer(p.src)
    else Unsupported
  }

  datatype Dialog = Dialog(title: string, description: Option<string>, body: Renderer)

  /** The modal: nothing without content. */
  function Modal(content: Option<StoreSpec.Preview>): (r: Option<Dialog>)
    ensures r.None? <==> content.None?
  {
    match content
    case None => None
    case Some(p) => Some(Dialog(Title(p.kind), Description(p), RenderContent(p)))
  }

  /** Title and renderer agree: the generic title goes with the unsupported message, every other
      title with a renderer of the content's own source. */
  lemma TitleMatchesRenderer(p: StoreSpec.Preview)
    ensures Title(p.kind) == GenericTitle <==> RenderContent(p) == Unsupported
    ensures RenderContent(p) != Unsupported ==> RenderContent(p).src == p.src
    ensures Description(p).Some? <==> RenderContent(p).Website?
  {
  }

  /** Every preview a node can open is one the modal knows: it never shows the unsupported message. */
  lemma NodePreviewsAreSupported(info: BlockInfo, data: Data)
    requires CustomNode.Expand(info, data).ShowPreview?
    ensures var p := CustomNode.Expand(info, data).content;
            RenderContent(p) != Unsupported && Title(p.kind) != GenericTitle
  {
  }

  /** The prefix of a base64 PDF data URL, and the part before its comma. */
  const PdfHead: string := "data:application/pdf;base64"
  const PdfPrefix: string := PdfHead + ","

  /** The text `atob` decodes: `src.split(',')[1]`, for a PDF data URL only. */
  function PdfPayload(src: string): (r: Option<string>)
    ensures r.Some? <==> StartsWith(src, PdfPrefix)
  {
    if StartsWith(src, PdfPrefix) then
      var rest := src[|PdfPrefix|..];
      assert src == PdfHead + [','] + rest;
      SplitAfterHead(PdfHead, ',', rest);
      Some(Split(src, ',')[1])
    else None
  }

  /** A PDF data URL gives back its base64 text. */
  lemma PdfPayloadRoundTrip(base64: string)
    requires ',' !in base64
    ensures PdfPayload(PdfPrefix + base64) == Some(base64)
  {
    var src := PdfPrefix + base64;
    assert src[..|PdfPrefix|] == PdfPrefix;
    assert src[|PdfPrefix|..] == base64;
    assert src == PdfHead + [','] + base64;
    SplitAfterHead(PdfHead, ',', base64);
    assert IndexOf(base64, ',') == -1;
  }

  /** What the PDF preview shows: the decoded document, or its loading text for ever when the
      source is not a PDF data URL. */
  datatype PdfState = Loading | Decoding(base64: string)

  function PdfPreview(src: string): (r: PdfState)
    ensures r.Loading? <==> !StartsWith(src, PdfPrefix)
  {
    match PdfPayload(src)
    case None => Loading
    case Some(b) => Decoding(b)
  }

  /** No node opens the modal's PDF preview: the expand button is shown only when the node has
      content, and a PDF node with content has a file, which opens in a new tab. */
  lemma NodePdfOpensInTab(info: BlockInfo, data: Data)
    requires CustomNode.HasContent(info, data)
    ensures CustomNode.PreviewType(info, data) == Some("pdf") ==>
              CustomNode.Expand(info, data) == CustomNode.OpenInNewTab(Field(data, "fileSrc"))
    ensures CustomNode.Expand(info, data).ShowPreview? ==> CustomNode.Expand(info, data).content.kind != "pdf"
  {
  }

  /** The `byteNumbers` loop: element `i` is the code of character `i` of the decoded string. */
  method CharCodes(binary: string) returns (codes: array<int>)
    ensures codes.Length == |binary|
    ensures forall i :: 0 <= i < |binary| ==> codes[i] == binary[i] as int
  {
    codes := new int[|binary|];
    var i := 0;
    while i < |binary|
      invariant 0 <= i <= |binary|
      invariant forall k :: 0 <= k < i ==> codes[k] == binary[k] as int
    {
      codes[i] := binary[i] as int;
      i := i + 1;
    }
  }

  /** `new Uint8Array(byteNumbers)`: every number is taken modulo 256. */
  function Uint8(codes: seq<int>): (r: seq<int>)
    ensures |r| == |codes|
    ensures forall i :: 0 <= i < |codes| ==> 0 <= r[i] < 256 && (r[i] - codes[i]) % 256 == 0
  {
    seq(|codes|, i requires 0 <= i < |codes| => codes[i] % 256)
  }

  /** `atob` yields characters below 256, so the byte array holds exactly the character codes. */
  lemma DecodedBytesAreCodes(binary: string)
    requires forall i :: 0 <= i < |binary| ==> binary[i] as int < 256
    ensures Uint8(seq(|binary|, i requires 0 <= i < |binary| => binary[i] as int))
            == seq(|binary|, i requires 0 <= i < |binary| => binary[i] as int)
  {
  }
}
