/** The properties panel: which inputs the selected node's kind gets, and the `updateNodeData`
    patches its edits produce. */
module PropertiesPanel {
  import opened Wrappers
  import opened Graph
  import opened BlockRegistry
  import StoreSpec
  import EditorStore
  import StoreProperties

  const ValueInputTypes: seq<string> := ["direct-checkout", "order-bump", "upsell", "downsell", "all-in-one"]
  const EmailInputTypes: seq<string> := ["email-sequence", "welcome-email", "recovery-email", "all-in-one"]
  const WhatsappInputTypes: seq<string> := ["whatsapp-funnel", "whatsapp-rescue", "whatsapp-link", "all-in-one"]
  const FileInputTypes: seq<string> := ["image-upload", "video-upload", "audio-upload", "pdf-upload", "all-in-one"]

  /** An input of the panel. A text input edits the data field `name`; a file input shows the
      current file name when there is one. */
  datatype Input =
    | TextInput(name: string, value: string)
    | FileInput(accept: string, fileName: string)

  datatype Panel = Panel(heading: string, inputs: seq<Input>, tip: string)

  /** What the panel renders: nothing, a panel, or a render error. */
  datatype PanelView = Hidden | Crashed | Shown(panel: Panel)

  /** The `accept` filter of the file input. */
  function Accept(kind: string): (r: string)
    ensures r != "" <==> kind in FileInputTypes
    ensures kind == "all-in-one" ==> r == "*"
  {
    if kind == "image-upload" then "image/*"
    else if kind == "video-upload" then "video/*"
    else if kind == "audio-upload" then "audio/*"
    else if kind == "pdf-upload" then "application/pdf"
    else if kind == "all-in-one" then "*"
    else ""
  }

  function When(c: bool, inputs: seq<Input>): seq<Input>
  {
    if c then inputs else []
  }

  /** The inputs for a node of a known kind, in the panel's order. */
  function Inputs(info: BlockInfo, data: Data): (r: seq<Input>)
    ensures |r| > 0 && r[0].TextInput?
  {
    var kind := Field(data, "type");
    When(kind != "notes", [TextInput("label", Field(data, "label"))])
    + When(info.hasDescription, [TextInput("description", OrElse(Field(data, "description"), info.description))])
    + When(kind == "notes", [TextInput("notesText", Field(data, "notesText"))])
    + When(info.hasLink, [TextInput("url", Field(data, "url"))])
    + When(kind in FileInputTypes, [FileInput(Accept(kind), Field(data, "fileName"))])
    + When(kind in ValueInputTypes, [TextInput("value", Field(data, "value"))])
    + When(kind in EmailInputTypes,
           [TextInput("subject", Field(data, "subject"))]
           + When(kind == "email-sequence", [TextInput("sendTime", Field(data, "sendTime"))]))
    + When(kind in WhatsappInputTypes, [TextInput("message", Field(data, "message"))])
  }

  /** Every file input has a non-empty `accept` filter. */
  predicate FiltersFiles(inputs: seq<Input>)
  {
    forall i :: 0 <= i < |inputs| && inputs[i].FileInput? ==> inputs[i].accept != ""
  }

  lemma FiltersFilesConcat(a: seq<Input>, b: seq<Input>)
    requires FiltersFiles(a) && FiltersFiles(b)
    ensures FiltersFiles(a + b)
  {
    forall i | 0 <= i < |a + b| && (a + b)[i].FileInput?
      ensures (a + b)[i].accept != ""
    {
      if i >= |a| { assert (a + b)[i] == b[i - |a|]; } else { assert (a + b)[i] == a[i]; }
    }
  }

  /** The file input the panel shows always restricts the file chooser to the kind's files. */
  lemma {:induction false} FileInputIsFiltered(info: BlockInfo, data: Data)
    ensures FiltersFiles(Inputs(info, data))
  {
    var kind := Field(data, "type");
    var p1 := When(kind != "notes", [TextInput("label", Field(data, "label"))]);
    var p2 := When(info.hasDescription, [TextInput("description", OrElse(Field(data, "description"), info.description))]);
    var p3 := When(kind == "notes", [TextInput("notesText", Field(data, "notesText"))]);
    var p4 := When(info.hasLink, [TextInput("url", Field(data, "url"))]);
    var p5 := When(kind in FileInputTypes, [FileInput(Accept(kind), Field(data, "fileName"))]);
    var p6 := When(kind in ValueInputTypes, [TextInput("value", Field(data, "value"))]);
    var p7 := When(kind in EmailInputTypes,
                   [TextInput("subject", Field(data, "subject"))]
                   + When(kind == "email-sequence", [TextInput("sendTime", Field(data, "sendTime"))]));
    var p8 := When(kind in WhatsappInputTypes, [TextInput("message", Field(data, "message"))]);
    FiltersFilesConcat(p1, p2);
    FiltersFilesConcat(p1 + p2, p3);
    FiltersFilesConcat(p1 + p2 + p3, p4);
    FiltersFilesConcat(p1 + p2 + p3 + p4, p5);
    FiltersFilesConcat(p1 + p2 + p3 + p4 + p5, p6);
    FiltersFilesConcat(p1 + p2 + p3 + p4 + p5 + p6, p7);
    FiltersFilesConcat(p1 + p2 + p3 + p4 + p5 + p6 + p7, p8);
  }

  predicate HasTextInput(inputs: seq<Input>, name: string)
  {
    exists i :: 0 <= i < |inputs| && inputs[i].TextInput? && inputs[i].name == name
  }

  predicate HasFileInput(inputs: seq<Input>)
  {
    exists i :: 0 <= i < |inputs| && inputs[i].FileInput?
  }

  function PanelFor(info: BlockInfo, data: Data): Panel
  {
    Panel(info.title, Inputs(info, data), info.extra)
  }

  /** The panel as written: with no selection it renders nothing; for a kind the catalog does not
      know, `blockInfo!.icon` throws while rendering. */
  function PanelAsWritten(selected: Option<Node>, catalog: Catalog): (r: PanelView)
    ensures r.Crashed? <==> selected.Some? && FindBlockByType(catalog, Kind(selected.value)).None?
    ensures r.Hidden? <==> selected.None?
  {
    match selected
    case None => Hidden
    case Some(n) =>
      match FindBlockByType(catalog, Kind(n))
      case None => Crashed
      case Some(info) => Shown(PanelFor(info, n.data))
  }

  /** The panel with the unknown-kind case rendering nothing, as the rest of the editor treats
      unknown kinds. */
  function Render(selected: Option<Node>, catalog: Catalog): (r: PanelView)
    ensures r != Crashed
    ensures r.Hidden? <==> selected.None? || FindBlockByType(catalog, Kind(selected.value)).None?
  {
    match selected
    case None => Hidden
    case Some(n) =>
      match FindBlockByType(catalog, Kind(n))
      case None => Hidden
      case Some(info) => Shown(PanelFor(info, n.data))
  }

  lemma {:induction false} HasTextInputConcat(a: seq<Input>, b: seq<Input>, name: string)
    ensures HasTextInput(a + b, name) <==> HasTextInput(a, name) || HasTextInput(b, name)
    ensures HasFileInput(a + b) <==> HasFileInput(a) || HasFileInput(b)
  {
    if HasTextInput(a + b, name) {
      var i :| 0 <= i < |a + b| && (a + b)[i].TextInput? && (a + b)[i].name == name;
      if i >= |a| { assert b[i - |a|] == (a + b)[i]; } else { assert a[i] == (a + b)[i]; }
    }
    if HasTextInput(a, name) {
      var i :| 0 <= i < |a| && a[i].TextInput? && a[i].name == name;
      assert (a + b)[i] == a[i];
    }
    if HasTextInput(b, name) {
      var i :| 0 <= i < |b| && b[i].TextInput? && b[i].name == name;
      assert (a + b)[|a| + i] == b[i];
    }
    if HasFileInput(a + b) {
      var i :| 0 <= i < |a + b| && (a + b)[i].FileInput?;
      if i >= |a| { assert b[i - |a|] == (a + b)[i]; } else { assert a[i] == (a + b)[i]; }
    }
    if HasFileInput(a) {
      var i :| 0 <= i < |a| && a[i].FileInput?;
      assert (a + b)[i] == a[i];
    }
    if HasFileInput(b) {
      var i :| 0 <= i < |b| && b[i].FileInput?;
      assert (a + b)[|a| + i] == b[i];
    }
  }

  lemma SingleInput(c: bool, x: Input, name: string)
    ensures HasTextInput(When(c, [x]), name) <==> c && x.TextInput? && x.name == name
    ensures HasFileInput(When(c, [x])) <==> c && x.FileInput?
  {
    if c {
      assert When(c, [x])[0] == x;
    }
  }

  /** The inputs of a kind, input by input: which condition puts each named input on the panel. */
  lemma {:induction false} InputsByName(info: BlockInfo, data: Data, name: string)
    ensures var kind := Field(data, "type");
            HasTextInput(Inputs(info, data), name) <==>
              || (name == "label" && kind != "notes")
              || (name == "description" && info.hasDescription)
              || (name == "notesText" && kind == "notes")
              || (name == "url" && info.hasLink)
              || (name == "value" && kind in ValueInputTypes)
              || (name == "subject" && kind in EmailInputTypes)
              || (name == "sendTime" && kind in EmailInputTypes && kind == "email-sequence")
              || (name == "message" && kind in WhatsappInputTypes)
    ensures HasFileInput(Inputs(info, data)) <==> Field(data, "type") in FileInputTypes
  {
    var kind := Field(data, "type");
    var x1 := TextInput("label", Field(data, "label"));
    var x2 := TextInput("description", OrElse(Field(data, "description"), info.description));
    var x3 := TextInput("notesText", Field(data, "notesText"));
    var x4 := TextInput("url", Field(data, "url"));
    var x5 := FileInput(Accept(kind), Field(data, "fileName"));
    var x6 := TextInput("value", Field(data, "value"));
    var x7 := TextInput("subject", Field(data, "subject"));
    var x7s := TextInput("sendTime", Field(data, "sendTime"));
    var x8 := TextInput("message", Field(data, "message"));
    var p1, p2, p3, p4 := When(kind != "notes", [x1]), When(info.hasDescription, [x2]),
                          When(kind == "notes", [x3]), When(info.hasLink, [x4]);
    var p5, p6 := When(kind in FileInputTypes, [x5]), When(kind in ValueInputTypes, [x6]);
    var p7s := When(kind == "email-sequence", [x7s]);
    var p7 := When(kind in EmailInputTypes, [x7] + p7s);
    var p8 := When(kind in WhatsappInputTypes, [x8]);
    assert Inputs(info, data) == p1 + p2 + p3 + p4 + p5 + p6 + p7 + p8;
    HasTextInputConcat(p1, p2, name);
    HasTextInputConcat(p1 + p2, p3, name);
    HasTextInputConcat(p1 + p2 + p3, p4, name);
    HasTextInputConcat(p1 + p2 + p3 + p4, p5, name);
    HasTextInputConcat(p1 + p2 + p3 + p4 + p5, p6, name);
    HasTextInputConcat(p1 + p2 + p3 + p4 + p5 + p6, p7, name);
    HasTextInputConcat(p1 + p2 + p3 + p4 + p5 + p6 + p7, p8, name);
    SingleInput(kind != "notes", x1, name);
    SingleInput(info.hasDescription, x2, name);
    SingleInput(kind == "notes", x3, name);
    SingleInput(info.hasLink, x4, name);
    SingleInput(kind in FileInputTypes, x5, name);
    SingleInput(kind in ValueInputTypes, x6, name);
    SingleInput(kind == "email-sequence", x7s, name);
    SingleInput(kind in WhatsappInputTypes, x8, name);
    SingleInput(true, x7, name);
    HasTextInputConcat([x7], p7s, name);
    assert When(true, [x7]) == [x7];
  }

  /** Which inputs a kind gets: label for all but notes, notes text only for notes, url and
      description by capability, and the value, e-mail, WhatsApp and file inputs by list. */
  lemma InputVisibility(info: BlockInfo, data: Data)
    ensures var inputs := Inputs(info, data); var kind := Field(data, "type");
            && (HasTextInput(inputs, "label") <==> kind != "notes")
            && (HasTextInput(inputs, "notesText") <==> kind == "notes")
            && (HasTextInput(inputs, "url") <==> info.hasLink)
            && (HasTextInput(inputs, "description") <==> info.hasDescription)
            && (HasTextInput(inputs, "value") <==> kind in ValueInputTypes)
            && (HasTextInput(inputs, "subject") <==> kind in EmailInputTypes)
            && (HasTextInput(inputs, "sendTime") <==> kind == "email-sequence")
            && (HasTextInput(inputs, "message") <==> kind in WhatsappInputTypes)
            && (HasFileInput(inputs) <==> kind in FileInputTypes)
  {
    InputsByName(info, data, "label");
    InputsByName(info, data, "notesText");
    InputsByName(info, data, "url");
    InputsByName(info, data, "description");
    InputsByName(info, data, "value");
    InputsByName(info, data, "subject");
    InputsByName(info, data, "sendTime");
    InputsByName(info, data, "message");
  }

  /** `'all-in-one'` gets the value, e-mail, WhatsApp and file inputs. */
  lemma AllInOneGetsEveryListedInput(info: BlockInfo, data: Data)
    requires Field(data, "type") == "all-in-one"
    ensures var inputs := Inputs(info, data);
            HasTextInput(inputs, "value") && HasTextInput(inputs, "subject")
            && HasTextInput(inputs, "message") && HasFileInput(inputs)
  {
    InputVisibility(info, data);
  }

  /** The description input shows the node's own description, or the catalog's when that is empty. */
  lemma DescriptionFallsBack(info: BlockInfo, data: Data)
    requires info.hasDescription
    ensures var d := if Field(data, "type") != "notes" then Inputs(info, data)[1] else Inputs(info, data)[0];
            d == TextInput("description",
                           if Field(data, "description") != "" then Field(data, "description") else info.description)
  {
  }

  /** `handleInputChange`: the patch sets just the edited input's field. */
  function InputPatch(name: string, value: string): (patch: Data)
    ensures patch.Keys == {name} && patch[name] == value
  {
    map[name := value]
  }

  /** No text input of the panel edits `type`, so panel edits never change a node's kind. */
  lemma {:induction false} PanelEditsKeepKind(info: BlockInfo, data: Data, i: nat, value: string)
    requires i < |Inputs(info, data)| && Inputs(info, data)[i].TextInput?
    ensures Field(Merge(data, InputPatch(Inputs(info, data)[i].name, value)), "type") == Field(data, "type")
  {
    var name := Inputs(info, data)[i].name;
    InputsByName(info, data, name);
    assert HasTextInput(Inputs(info, data), name);
    assert name != "type";
  }

  /** `handleInputChange` on the panel of `node`, the node selected when the panel rendered. */
  method HandleInputChange(store: EditorStore.Store, node: Node, name: string, value: string)
    requires store.Valid()
    modifies store
    ensures store.Valid()
    ensures store.State() == StoreSpec.UpdateNodeData(old(store.State()), node.id, InputPatch(name, value))
  {
    store.UpdateNodeData(node.id, InputPatch(name, value));
  }

  /** A file chosen in the file input. */
  datatype FileInfo = FileInfo(name: string, mime: string)

  /** A file read in flight, tied to the node that was selected when it started. */
  datatype PendingRead = PendingRead(nodeId: string, file: FileInfo)

  /** `handleFileChange`: a read starts only when a file was chosen. */
  function StartFileRead(node: Node, files: seq<FileInfo>): (r: Option<PendingRead>)
    ensures r.Some? <==> |files| > 0
    ensures r.Some? ==> r.value.nodeId == node.id && r.value.file == files[0]
  {
    if |files| > 0 then Some(PendingRead(node.id, files[0])) else None
  }

  /** The patch a completed read applies: exactly the data URL, the file name and its type. */
  function FilePatch(dataUrl: string, file: FileInfo): (patch: Data)
    ensures patch.Keys == {"fileSrc", "fileName", "fileType"}
    ensures patch["fileSrc"] == dataUrl && patch["fileName"] == file.name && patch["fileType"] == file.mime
  {
    map["fileSrc" := dataUrl, "fileName" := file.name, "fileType" := file.mime]
  }

  /** `reader.onload`: one `updateNodeData` for the node the read was started for. */
  method CompleteFileRead(store: EditorStore.Store, read: PendingRead, dataUrl: string)
    requires store.Valid()
    modifies store
    ensures store.Valid()
    ensures store.State() == StoreSpec.UpdateNodeData(old(store.State()), read.nodeId, FilePatch(dataUrl, read.file))
  {
    store.UpdateNodeData(read.nodeId, FilePatch(dataUrl, read.file));
  }

  /** A read that completes after its node was deleted changes no node (but still records a
      snapshot): nothing checks that the node still exists. */
  lemma StaleFileReadChangesNoNode(s: StoreSpec.State, read: PendingRead, dataUrl: string)
    ensures var t := StoreSpec.DeleteNode(s, read.nodeId);
            StoreSpec.UpdateNodeData(t, read.nodeId, FilePatch(dataUrl, read.file)).nodes == t.nodes
  {
    var t := StoreSpec.DeleteNode(s, read.nodeId);
    StoreProperties.DeleteNodeCascades(s, read.nodeId);
    StoreProperties.UpdateUnknownIdChangesNoNode(t, read.nodeId, FilePatch(dataUrl, read.file));
  }

  /** As written, a selected node of a kind the catalog does not know breaks the panel. */
  lemma UnknownKindCrashesPanel(catalog: Catalog, n: Node)
    requires forall i :: 0 <= i < |catalog| ==> catalog[i].kind != Kind(n)
    ensures PanelAsWritten(Some(n), catalog) == Crashed
  {
  }

  /** The corrected panel agrees with the written one wherever the written one renders. */
  lemma PanelAgreesWhereWrittenRenders(selected: Option<Node>, catalog: Catalog)
    requires PanelAsWritten(selected, catalog) != Crashed
    ensures Render(selected, catalog) == PanelAsWritten(selected, catalog)
  {
  }
}
