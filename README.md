# Funnel editor — a Dafny model

This project models the client-side core of the funnel editor of SimulaFunil, a Next.js application in which a user lays out a sales funnel as a graph of blocks (landing pages, VSLs, checkouts, uploads, e-mails, WhatsApp messages, notes). It covers:

- **The editor store** (`src/stores/editor-store.ts`): one mutable record holding the nodes, the edges, the cached selected node, the preview content, the current funnel id and an undo history capped at 50 snapshots. It is the class `EditorStore.Store`. Each of its methods is proved to leave the record in the state given by the pure transition of the same name in `StoreSpec`. The multi-step properties are lemmas in `StoreProperties`: bounded history, snapshot before mutation, undo as pop-and-restore, cascading delete and reset on funnel switch.
- **The properties panel** (`PropertiesPanel`): which inputs a block kind gets, the file `accept` filter, and the `updateNodeData` patches that edits and file reads send.
- **The flow node** (`CustomNode`):
  - the `hasContent` test and the preview type;
  - what the expand button does, and the summary lines;
  - stripping the protocol for the thumbnail service;
  - the label and description fallbacks, and the delete button.
- **The editor canvas** (`FunnelEditor`): the `dnd-node_` id counter, drop and connect, loading a funnel handed over through session storage, and closing the preview.
- **The blocks sidebar** (`BlocksSidebar`): the case-insensitive search and the drag payload.
- **The preview modal** (`ContentPreviewModal`): titles, descriptions, the renderer for each preview type, PDF data-URL detection and the character-code loop.
- **The landing-page simulator** (`LandingPageSimulator`): its three-block palette, its `lp-node_` counter and its local node and edge lists.

A node's block kind is its `data.type` (`Graph.Kind`). A data field that is missing reads as `""`, since the components test fields for JavaScript truthiness. The block catalog (`blockTypes`, `findBlockByType` in `@/lib/types`) is not part of this model: every component receives it as a parameter (`BlockRegistry`). The flow library's `applyNodeChanges`, `applyEdgeChanges` and `addEdge` are not part of this model either. `FlowChanges` gives small stand-ins for them: each node or edge receives the batch's changes for its id in order, and a remove change drops it.

Where a plausible requirement and the code differ, the model follows the code:
- `updateNodeData` does not check that a node with the id exists: it records a snapshot and changes nothing (`StoreProperties.UpdateUnknownIdChangesNoNode`). A file read that finishes after its node was deleted does exactly that (`PropertiesPanel.StaleFileReadChangesNoNode`).
- The cached selection is not restored by undo, so it can name a node that no longer exists (`StoreProperties.UndoCanLeaveSelectionDangling`).
- `onNodesChange` records a snapshot only for a batch holding a drop, and the canvas feeds it one batch per drag frame and a separate batch for the drop. The snapshot is therefore taken of the graph already moved, and undo after a drag leaves the node where it was dropped (`StoreProperties.DragUndoKeepsDraggedPosition`; see Findings). The class keeps this behaviour. `StoreSpec.OnNodesChangeTracked` is the corrected handler, which remembers the graph from before a drag's first frame.
- The editor's id counter starts again at `dnd-node_1` on every page load, while a saved funnel is loaded with `setNodes`. A new drop can then repeat a loaded node's id (`FunnelEditor.RestartedCounterCanRepeatLoadedId`). Ids are proved fresh only against the ids the counter itself handed out.

## Model

| member | source | states |
|---|---|---|
| `StoreSpec.PushHistory` | src/stores/editor-store.ts:67-68 | `[...history, entry].slice(-50)`: the result has one more entry than before, or exactly 50. The new entry is on top. Below it are the newest old entries in their order, so only the oldest are dropped. |
| `StoreProperties.TransitionsKeepHistoryBounded` | src/stores/editor-store.ts:62-188 | No store operation takes the history past 50 entries. |
| `EditorStore.Store.constructor` | src/stores/editor-store.ts:50-60 | The store starts as `initialState`: no nodes, edges, selection, preview, funnel or history. |
| `EditorStore.Store.OnNodesChange` | src/stores/editor-store.ts:62-87 | A snapshot is recorded only for a batch with a `position` change whose `dragging` is `false`. The batch is applied. The selection becomes the post-batch node of the first `select: true` change, or null after a deselect that leaves no node selected. |
| `EditorStore.Store.OnEdgesChange` | src/stores/editor-store.ts:89-97 | Every edge batch records one snapshot of the nodes and edges from before it, then applies the batch. |
| `EditorStore.Store.AddNode` | src/stores/editor-store.ts:99-107 | Records a snapshot and appends the node. |
| `EditorStore.Store.SetNodes` | src/stores/editor-store.ts:109-111 | Replaces the nodes and nothing else; no snapshot. |
| `EditorStore.Store.SetEdges` | src/stores/editor-store.ts:113-115 | Replaces the edges and nothing else; no snapshot. |
| `EditorStore.Store.UpdateNodeData` | src/stores/editor-store.ts:117-136 | Records a snapshot. Merges the patch into every node with the id, and into the cached selection when it has that id. The class follows the corrected value semantics, in which the snapshot keeps the data from before the edit; the source's in-place edit is `StoreSpec.UpdateNodeDataAsWritten` (see Findings). |
| `EditorStore.Store.UnselectNode` | src/stores/editor-store.ts:138-143 | Clears every node's `selected` flag and the cached selection. |
| `EditorStore.Store.DeleteNode` | src/stores/editor-store.ts:145-161 | Records a snapshot and removes the node and every edge touching it. Clears the cached selection if it named that node. |
| `EditorStore.Store.SetPreviewContent` | src/stores/editor-store.ts:163-165 | Sets the preview content only. |
| `EditorStore.Store.UndoLastAction` | src/stores/editor-store.ts:167-177 | Does nothing on an empty history. Otherwise pops the newest snapshot and restores its nodes and edges. |
| `EditorStore.Store.SetFunnelId` | src/stores/editor-store.ts:179-185 | A different id resets everything to `initialState` and then sets the id; the same id changes nothing. |
| `EditorStore.Store.Reset` | src/stores/editor-store.ts:186-188 | Back to `initialState`. |
| `StoreProperties.UndoAfterRecord` | src/stores/editor-store.ts:167-177 | Undo right after a recording operation gives back the nodes and edges from before it, and the history from before it (less the dropped oldest entry when it was full). The selection, preview and funnel id are kept. |
| `StoreProperties.UndoRevertsContentEdits` | src/stores/editor-store.ts:65-107 | Below the limit, one undo exactly reverts `addNode`, `deleteNode`, an edge batch and a node batch holding a drop, history included. For a drag this is only the drop batch: the frames before it are not taken back (see `StoreProperties.DragUndoKeepsDraggedPosition`). |
| `StoreProperties.NonContentOpsKeepHistory` | src/stores/editor-store.ts:109-115 | `setNodes`, `setEdges`, `unselectNode`, `setPreviewContent` and a node batch without a drop leave the history unchanged. |
| `StoreProperties.UndoSeesOnlyHistory` | src/stores/editor-store.ts:167-177 | What undo restores depends on the history alone. |
| `StoreProperties.NonContentOpBeforeUndo` | src/stores/editor-store.ts:138-143 | Unselecting, setting the preview or a selection batch between an `addNode` and its undo does not change what the undo restores. |
| `StoreProperties.SelectionOnlyBatch` | src/stores/editor-store.ts:65-73 | A batch of select changes records nothing, keeps the edges and changes no node's content. |
| `StoreProperties.SelectSetsSelectedNode` | src/stores/editor-store.ts:75-80 | After a `select: true` change, the cached selection is the post-batch node with that id. |
| `StoreProperties.DeselectClearsSelection` | src/stores/editor-store.ts:81-86 | A deselect batch clears the cached selection exactly when no node is left selected. |
| `StoreProperties.FrameAndDrop` | src/stores/editor-store.ts:62-73 | A drag frame (a position change with `dragging: true`) moves the node and records nothing. The drop batch (`dragging: false`, no position) moves nothing and records the graph as it is at that moment. |
| `StoreProperties.FramesMove` | src/stores/editor-store.ts:62-73 | Any non-empty run of drag frames leaves the node at the last frame's position, every other part of the state unchanged. |
| `StoreProperties.DragUndoKeepsDraggedPosition` | src/stores/editor-store.ts:65-72 | As written, after a whole drag (frames, then the drop) the node is at the drop position and one undo leaves it there. The undo only pops the drop's snapshot (see Findings). |
| `StoreProperties.DragUndoCounterexample` | src/stores/editor-store.ts:65-72 | As written, dragging `dnd-node_1` from (0, 0) to (120, 40) and undoing leaves the node at (120, 40). |
| `StoreSpec.OnNodesChangeTracked` | src/stores/editor-store.ts:62-87 | The corrected handler applies each batch exactly as the written one: same nodes, edges and selection. It records nothing for a batch without a drop, and one snapshot for a batch with one. |
| `StoreProperties.TrackedDragUndoRestores` | src/stores/editor-store.ts:62-87 | With the corrected handler, a whole drag moves the node and records exactly one snapshot, of the graph from before the first frame. One undo then puts the node back and restores the history from before the drag. |
| `StoreProperties.ThreeDragsThenUndo` | src/stores/editor-store.ts:62-87 | With the corrected handler, three whole drags of one node followed by one undo leave the node where the second drag dropped it, with two snapshots left: one per drag, not one per frame. |
| `StoreProperties.EdgeClickBeforeUndo` | src/stores/editor-store.ts:89-97 | Every edge batch records a snapshot, a click that only selects an edge included. After `addNode` and such a batch, one undo takes back the batch and the added node stays. |
| `StoreProperties.UpdatesAccumulate` | src/stores/editor-store.ts:122-127 | Two data patches for the same node give the same nodes as their union applied once. |
| `StoreProperties.UpdateNodeDataMerges` | src/stores/editor-store.ts:117-129 | Shallow merge: the node with the id gets the patch's keys over its own, keeping its other keys and its position. Other nodes and all edges are unchanged. |
| `StoreProperties.UpdateNodeDataRefreshesSelection` | src/stores/editor-store.ts:130-135 | The cached selection gets the same merge exactly when its id is the edited id. |
| `StoreProperties.UpdateUnknownIdChangesNoNode` | src/stores/editor-store.ts:117-129 | An edit for an id no node has changes no node, and still records a snapshot. |
| `StoreProperties.AddNodeAppends` | src/stores/editor-store.ts:99-107 | `addNode` keeps the existing nodes as a prefix and puts the new node last. It keeps the edges, and the snapshot it records is the pair from before. |
| `StoreProperties.DeleteNodeCascades` | src/stores/editor-store.ts:145-161 | After `deleteNode` no node has the id and no edge touches it. Every other node and edge is kept. The selection becomes null exactly when it was null or named that node. |
| `StoreProperties.DeleteNodeKeepsOrder` | src/stores/editor-store.ts:149-150 | The surviving nodes and edges keep their relative order. |
| `StoreProperties.DeleteNodeKeepsEdgesClosed` | src/stores/editor-store.ts:145-156 | If every edge connected existing nodes before a delete, it still does after. |
| `StoreProperties.UnselectClearsEverySelection` | src/stores/editor-store.ts:138-143 | No node is selected afterwards and the cached selection is null. Node contents and ids, the edges and the history are unchanged. |
| `StoreProperties.UndoEmptyIsNoOp` | src/stores/editor-store.ts:169 | Undo on an empty history changes nothing. |
| `StoreProperties.SetFunnelIdIsolates` | src/stores/editor-store.ts:179-185 | Switching funnels clears the graph, selection, preview and history, so a following undo is a no-op. The same id changes nothing. |
| `StoreProperties.UndoCanLeaveSelectionDangling` | src/stores/editor-store.ts:167-177 | Undo does not touch the cached selection, so it can name a node that is gone. |
| `StoreProperties.DeleteScenario` | src/stores/editor-store.ts:145-161 | Add two nodes, edit the first, connect them and delete the first: only the second node is left, with no edge. |
| `StoreProperties.UndoKeepsAliasedEdit` | src/stores/editor-store.ts:122-127 | As written, undo after a data edit restores the edited nodes (see Findings). |
| `StoreProperties.AliasedEditCounterexample` | src/stores/editor-store.ts:118-128 | As written, a concrete label edit survives the undo meant to revert it. |
| `StoreProperties.UndoRevertsUpdateNodeData` | src/stores/editor-store.ts:118-119 | With value semantics, undo reverts a data edit exactly. This holds for the corrected model, not for the source (see Findings). |
| `FlowChanges.ChangedNodeDropsIffRemoved` | src/stores/editor-store.ts:72 | A node leaves the batch exactly when one of the batch's changes removes it. |
| `FlowChanges.ApplyNodeChangesIds` | src/stores/editor-store.ts:72 | After a batch, a node with an id exists exactly when one existed before and the batch does not remove it. |
| `FlowChanges.SelectionOnlyKeepsContents` | src/stores/editor-store.ts:72 | Select changes change only the `selected` flags. |
| `FlowChanges.AddEdge` | src/components/funnel-editor/editor.tsx:54 | The old edges are kept as a prefix and at most one edge is added. An edge is added exactly when both ends are named and no edge already connects the same ends. The added edge connects those ends, carries the connection's generated id and is unselected. |
| `FlowChanges.ApplyNodeChanges` | src/stores/editor-store.ts:72 | The batch never adds a node: the result is never longer than the input (which ids survive is `FlowChanges.ApplyNodeChangesIds`). |
| `FlowChanges.ApplyEdgeChanges` | src/stores/editor-store.ts:94 | The batch never adds an edge: the result is never longer than the input. |
| `FlowChanges.ChangedEdge` | src/stores/editor-store.ts:94 | An edge that survives a batch keeps its id and both its ends. |
| `FlowChanges.EdgeBatchKeepsEdgesClosed` | src/stores/editor-store.ts:89-97 | If every edge joined existing nodes before an edge batch, every edge still does after it. |
| `FlowChanges.MoveTo` | src/stores/editor-store.ts:72 | Every node with the id gets the new position; every other node is unchanged. |
| `FlowChanges.PositionBatch` | src/stores/editor-store.ts:72 | A one-change batch moving a node to a position moves exactly that node there; one without a position changes no node. |
| `PropertiesPanel.Render` | src/components/funnel-editor/properties-panel.tsx:17-21 | Nothing is rendered exactly when no node is selected or its kind is unknown; the panel never fails. |
| `PropertiesPanel.Accept` | src/components/funnel-editor/properties-panel.tsx:131-137 | The file filter is non-empty exactly for the file kinds, and `*` for `all-in-one`. |
| `PropertiesPanel.Inputs` | src/components/funnel-editor/properties-panel.tsx:64-203 | Every kind gets at least one input, and the first is a text input (label, description or notes text). |
| `PropertiesPanel.FileInputIsFiltered` | src/components/funnel-editor/properties-panel.tsx:122-139 | The file input, wherever the panel shows one, restricts the file chooser with a non-empty filter. |
| `PropertiesPanel.InputsByName` | src/components/funnel-editor/properties-panel.tsx:64-203 | Each named input is on the panel exactly under its own condition: a kind test, a list membership or a catalog capability. The file input is there exactly for the file kinds. |
| `PropertiesPanel.InputVisibility` | src/components/funnel-editor/properties-panel.tsx:44-47 | The label is shown for all kinds but notes, and the notes text only for notes. The url is shown iff `hasLink`, the description iff `hasDescription`, and `sendTime` only for `email-sequence`. The value, e-mail, WhatsApp and file inputs are shown iff the kind is in their list. |
| `PropertiesPanel.AllInOneGetsEveryListedInput` | src/components/funnel-editor/properties-panel.tsx:44-47 | `all-in-one` gets the value, subject, message and file inputs. |
| `PropertiesPanel.DescriptionFallsBack` | src/components/funnel-editor/properties-panel.tsx:84 | The description input shows the node's description, or the catalog's when that is empty. |
| `PropertiesPanel.InputPatch` | src/components/funnel-editor/properties-panel.tsx:23-25 | A text edit's patch has exactly one key, the input's name, mapped to the typed value. |
| `PropertiesPanel.PanelEditsKeepKind` | src/components/funnel-editor/properties-panel.tsx:64-203 | No panel text input edits `type`, so a panel edit never changes the node's kind. |
| `PropertiesPanel.HandleInputChange` | src/components/funnel-editor/properties-panel.tsx:23-25 | One `updateNodeData` for the selected node's id with that one-key patch. |
| `PropertiesPanel.StartFileRead` | src/components/funnel-editor/properties-panel.tsx:27-30 | A read starts exactly when a file was chosen. It is tied to the first file and to the node selected at that moment. |
| `PropertiesPanel.FilePatch` | src/components/funnel-editor/properties-panel.tsx:33-37 | The patch of a finished read has exactly `fileSrc`, `fileName` and `fileType`. |
| `PropertiesPanel.CompleteFileRead` | src/components/funnel-editor/properties-panel.tsx:31-39 | One `updateNodeData` with that patch for the node the read was started for. |
| `PropertiesPanel.StaleFileReadChangesNoNode` | src/components/funnel-editor/properties-panel.tsx:31-39 | A read that finishes after its node was deleted changes no node. |
| `PropertiesPanel.PanelAsWritten` | src/components/funnel-editor/properties-panel.tsx:17-62 | As written, nothing is rendered exactly when no node is selected, and rendering fails exactly when the selected node's kind is not in the catalog (see Findings). |
| `PropertiesPanel.UnknownKindCrashesPanel` | src/components/funnel-editor/properties-panel.tsx:60 | As written, a selected node of an unknown kind makes the panel fail (see Findings). |
| `PropertiesPanel.PanelAgreesWhereWrittenRenders` | src/components/funnel-editor/properties-panel.tsx:17-62 | The corrected panel is the written one wherever the written one renders. |
| `CustomNode.PreviewType` | src/components/funnel-editor/custom-node.tsx:56-62 | With a link preview, the type is one of `vsl`, `landing`, `checkout`. |
| `CustomNode.PreviewTypeCases` | src/components/funnel-editor/custom-node.tsx:56-68 | A preview type exists exactly for a link preview or one of the four single-file kinds. `pdf` and `imagem` come exactly from their upload kinds without a link preview. |
| `CustomNode.UrlPreviewWins` | src/components/funnel-editor/custom-node.tsx:57-62 | A link preview wins over a file: the expand click previews the link. |
| `CustomNode.ExpandShowsNonEmptySource` | src/components/funnel-editor/custom-node.tsx:70-85 | Where the expand button is shown, a preview it opens, or a tab, has a non-empty source. |
| `CustomNode.AllInOneFileIsNotExpandable` | src/components/funnel-editor/custom-node.tsx:48-68 | An `all-in-one` node with a file and no link has content, but its expand button does nothing. |
| `CustomNode.HandleExpandClick` | src/components/funnel-editor/custom-node.tsx:70-85 | Without a preview type nothing happens. A PDF file opens in a new tab and the store is unchanged. Otherwise the preview is set to the type and the link, or to the file when there is no link preview. |
| `CustomNode.AdditionalData` | src/components/funnel-editor/custom-node.tsx:89-93 | At most three lines, each with a non-empty value equal to the node's field of that name. |
| `CustomNode.AdditionalDataByField` | src/components/funnel-editor/custom-node.tsx:89-93 | The lines are value, subject, message in that order, each present exactly when its field is set. |
| `CustomNode.DetailText` | src/components/funnel-editor/custom-node.tsx:149 | The value line reads `R$ ` followed by the value; the others read their value. |
| `CustomNode.CleanUrl` | src/components/funnel-editor/custom-node.tsx:96-101 | The result is a suffix of the input, and empty for an empty input. |
| `CustomNode.CleanUrlRemovesProtocol` | src/components/funnel-editor/custom-node.tsx:100 | `http://` or `https://` followed by an address gives the address back. |
| `CustomNode.CleanUrlKeepsOthers` | src/components/funnel-editor/custom-node.tsx:100 | A string starting with neither protocol is unchanged. |
| `CustomNode.CleanUrlRemovesOnlyOne` | src/components/funnel-editor/custom-node.tsx:100 | Only one leading protocol is removed. |
| `CustomNode.UnknownKindShowsPlaceholder` | src/components/funnel-editor/custom-node.tsx:14-19 | The placeholder is shown exactly when the kind is not in the catalog. |
| `CustomNode.CardFallbacks` | src/components/funnel-editor/custom-node.tsx:87-123 | The title is the node's label or the catalog label. The summary's description is the node's or the catalog's. |
| `CustomNode.NoteShowsTextOrPlaceholder` | src/components/funnel-editor/custom-node.tsx:26-41 | A note shows its text, or the fixed hint when it has none. |
| `CustomNode.ExpandableIffContent` | src/components/funnel-editor/custom-node.tsx:138-171 | The expand button is present, and the summary absent, exactly when the card has content. |
| `CustomNode.PreviewNeedsPanelInput` | src/components/funnel-editor/custom-node.tsx:48-54 | `hasContent` is a link preview or a file preview. A node shows a link preview only with a non-empty `url` that the properties panel has an input for, and a file preview only with a non-empty `fileSrc` for a kind the panel gives a file input. |
| `CustomNode.Body` | src/components/funnel-editor/custom-node.tsx:87-211 | The summary is shown exactly when the node has no content. It has a description exactly when the kind has one, and the hint exactly when it has neither description nor lines. A link preview shows a non-empty link of a kind that takes one. A file preview is shown only without a link preview, for a file kind with a non-empty file. |
| `CustomNode.View` | src/components/funnel-editor/custom-node.tsx:14-171 | The placeholder is shown exactly for a kind the catalog lacks. A note shows non-empty text. A card is expandable exactly when it shows no summary. |
| `CustomNode.HandleDelete` | src/components/funnel-editor/custom-node.tsx:21-24 | Deletes the node by its own id; no node with that id is left. |
| `FunnelEditor.FirstEditorId` | src/components/funnel-editor/editor.tsx:33-34 | The first id is `dnd-node_1`. |
| `IdCounter.Counter.GetId` | src/components/funnel-editor/editor.tsx:33-34 | The id is the prefix and the counter in decimal; the counter moves on. The id differs from every id handed out before. |
| `Text.NatToStringInjective` | src/components/funnel-editor/editor.tsx:34 | Distinct counter values render as distinct decimal strings. |
| `Text.PrefixedIdsDistinct` | src/components/funnel-editor/editor.tsx:34 | The same prefix with distinct counter values gives distinct ids. |
| `FunnelEditor.NewDropNode` | src/components/funnel-editor/editor.tsx:80-86 | A dropped node is a `custom` node at the drop position, unselected, whose data is exactly `{type}`. |
| `FunnelEditor.OnDrop` | src/components/funnel-editor/editor.tsx:63-91 | With no wrapper, no instance or an empty kind, nothing changes, not even the counter. Otherwise exactly one `addNode` with a fresh id: the counter moves on by one and the id joins the ids handed out. The kind is not checked against the catalog. |
| `FunnelEditor.DropKeepsIdsDistinct` | src/components/funnel-editor/editor.tsx:33-34 | A fresh id keeps node ids pairwise distinct when every node's id came from the counter. |
| `FunnelEditor.RestartedCounterCanRepeatLoadedId` | src/components/funnel-editor/editor.tsx:33 | A counter back at its first value can repeat the id of a node loaded with `setNodes`. |
| `FunnelEditor.UndoTakesBackDrop` | src/components/funnel-editor/editor.tsx:88 | One undo takes back a drop. |
| `FunnelEditor.OnConnect` | src/components/funnel-editor/editor.tsx:53-56 | A connection replaces the edges through `setEdges`. |
| `FunnelEditor.ConnectAddsOneEdge` | src/components/funnel-editor/editor.tsx:53-56 | A connection records no history and keeps the nodes. It keeps the old edges as a prefix and adds at most one edge, between the named ends. |
| `FunnelEditor.ConnectTwiceAddsOnce` | src/components/funnel-editor/editor.tsx:54 | Connecting the same ends twice adds one edge. |
| `FunnelEditor.HydrateNewFunnel` | src/components/funnel-editor/editor.tsx:93-113 | Runs only for the `new` funnel with an instance. Loads nodes and edges only when both are present, via `setNodes`/`setEdges`. Removes the stored entry whenever there was one, parsed or not. |
| `FunnelEditor.HydrationKeepsHistory` | src/components/funnel-editor/editor.tsx:93-113 | Entering the `new` editor and hydrating gives exactly the loaded nodes and edges and leaves the history as `setFunnelId` left it. So an undo after hydration restores what an undo before it would have. From another funnel the history is empty and the undo does nothing. Entering `new` again while the store is already on `new` keeps the older history, and the undo then brings back a graph from before the hydration. |
| `FunnelEditor.ClosePreview` | src/components/funnel-editor/editor.tsx:153-156 | Closing the modal sets the preview content to null. |
| `BlocksSidebar.FilterBlocks` | src/components/funnel-editor/blocks-sidebar.tsx:19-26 | The result is never longer than the catalog and holds only catalog blocks. An empty term lists the whole catalog. |
| `BlocksSidebar.FilterMembership` | src/components/funnel-editor/blocks-sidebar.tsx:19-26 | A block is listed exactly when it is in the catalog and the term is empty or its lower-cased label contains the lower-cased term. |
| `BlocksSidebar.FilterKeepsOrder` | src/components/funnel-editor/blocks-sidebar.tsx:23-25 | Listed blocks keep the catalog's order. |
| `BlocksSidebar.SearchIgnoresCase` | src/components/funnel-editor/blocks-sidebar.tsx:24 | Lower-casing the term does not change the result. |
| `Text.ToLowerIdempotent` | src/components/funnel-editor/blocks-sidebar.tsx:24 | Lower-casing twice is lower-casing once. |
| `Text.ToLowerConcat` | src/components/funnel-editor/blocks-sidebar.tsx:24 | Lower-casing distributes over concatenation. |
| `BlocksSidebar.LongerTermNarrows` | src/components/funnel-editor/blocks-sidebar.tsx:23-25 | Extending a non-empty term never brings a block back. |
| `BlocksSidebar.Sidebar` | src/components/funnel-editor/blocks-sidebar.tsx:46-72 | The "Nenhum bloco encontrado." message is shown exactly when nothing is listed. Otherwise the grid shows a non-empty list of catalog blocks. |
| `BlocksSidebar.NoResultsIffNothingMatches` | src/components/funnel-editor/blocks-sidebar.tsx:46-72 | The "Nenhum bloco encontrado." message replaces the grid exactly when no block matches. |
| `BlocksSidebar.DragPayload` | src/components/funnel-editor/blocks-sidebar.tsx:14-17 | The drag payload maps `application/reactflow` to the block's kind and holds nothing else. |
| `BlocksSidebar.DragThenDropCreatesKind` | src/components/funnel-editor/blocks-sidebar.tsx:53 | Dropping a dragged block on a mounted canvas is accepted and creates a node of the block's kind. |
| `ContentPreviewModal.Modal` | src/components/funnel-editor/content-preview-modal.tsx:57-59 | No content, no dialog. |
| `ContentPreviewModal.Description` | src/components/funnel-editor/content-preview-modal.tsx:111-116 | A description exists exactly for `landing`, `vsl` and `checkout`, and its link opens the content's source. |
| `ContentPreviewModal.Title` | src/components/funnel-editor/content-preview-modal.tsx:92-109 | The site title is given exactly for `landing`, `vsl` and `checkout`, the PDF title exactly for `pdf`. The generic title is given exactly for a type outside those and `imagem`, `video`, `audio`. |
| `ContentPreviewModal.RenderContent` | src/components/funnel-editor/content-preview-modal.tsx:61-90 | The page is embedded exactly for the site types and the PDF viewer used exactly for `pdf`. The unsupported message is shown exactly for a type outside the eight known ones. Every other renderer shows the content's own source. |
| `ContentPreviewModal.TitleMatchesRenderer` | src/components/funnel-editor/content-preview-modal.tsx:64-109 | The generic title goes with the "Unsupported" message, and every other title with a renderer of the content's source. A description exists exactly for the website renderer. |
| `ContentPreviewModal.NodePreviewsAreSupported` | src/components/funnel-editor/content-preview-modal.tsx:64-89 | Every preview a node can open has its own renderer and title. |
| `ContentPreviewModal.PdfPayload` | src/components/funnel-editor/content-preview-modal.tsx:20-21 | Decoding happens exactly for sources starting with `data:application/pdf;base64,`. |
| `ContentPreviewModal.PdfPayloadRoundTrip` | src/components/funnel-editor/content-preview-modal.tsx:21 | The PDF prefix followed by base64 text gives that text back as the part after the first comma. |
| `Text.SplitAfterHead` | src/components/funnel-editor/content-preview-modal.tsx:21 | Splitting after a separator-free head yields the head, then the pieces of the rest. |
| `ContentPreviewModal.PdfPreview` | src/components/funnel-editor/content-preview-modal.tsx:41-43 | The PDF preview stays on its loading text exactly when the source is not a PDF data URL. |
| `CustomNode.Expand` | src/components/funnel-editor/custom-node.tsx:70-85 | The click does nothing exactly when the node has no preview type. A new tab is opened only for the `pdf` type, on the node's non-empty file. A preview shown has the node's preview type, with the link's source, or the file's when there is no link preview. |
| `ContentPreviewModal.NodePdfOpensInTab` | src/components/funnel-editor/custom-node.tsx:48-85 | Where the expand button is shown, a node of the `pdf` preview type opens its file in a new tab, so no preview the modal receives from a node is a PDF. |
| `ContentPreviewModal.CharCodes` | src/components/funnel-editor/content-preview-modal.tsx:23-26 | The number array has the decoded string's length, and element i is the code of character i. |
| `ContentPreviewModal.Uint8` | src/components/funnel-editor/content-preview-modal.tsx:27 | Each byte is in 0..255 and congruent to its number modulo 256. |
| `ContentPreviewModal.DecodedBytesAreCodes` | src/components/funnel-editor/content-preview-modal.tsx:22-27 | For `atob` output (codes below 256), the bytes are the character codes. |
| `LandingPageSimulator.FirstSimulatorId` | src/components/landing-page-simulator.tsx:67-68 | The first id is `lp-node_0`. |
| `LandingPageSimulator.FindMiniBlock` | src/components/landing-page-simulator.tsx:113 | A found palette entry is in the palette and has the requested kind. |
| `LandingPageSimulator.DropAcceptedIffPaletteKind` | src/components/landing-page-simulator.tsx:104-114 | With the canvas mounted, exactly `landing-page`, `vsl` and `sales-page` can be dropped. |
| `LandingPageSimulator.NewMiniNode` | src/components/landing-page-simulator.tsx:121-126 | A dropped node is a `custom` node whose data is exactly the block's label, icon and color. |
| `LandingPageSimulator.PaletteDragIsAccepted` | src/components/landing-page-simulator.tsx:91-94 | Dragging any palette entry onto the mounted canvas is accepted and finds that entry. |
| `LandingPageSimulator.Simulator.OnDrop` | src/components/landing-page-simulator.tsx:101-131 | A rejected drop changes nothing, not even the counter. An accepted one appends exactly one node for the block, with a fresh id: the counter moves on by one and the id joins the ids handed out. |
| `LandingPageSimulator.Simulator.OnNodesChange` | src/components/landing-page-simulator.tsx:76-79 | Applies the batch to the local nodes. |
| `LandingPageSimulator.Simulator.OnEdgesChange` | src/components/landing-page-simulator.tsx:81-84 | Applies the batch to the local edges. |
| `LandingPageSimulator.Simulator.OnConnect` | src/components/landing-page-simulator.tsx:86-89 | Adds the connection's edge to the local edges. |

## Left out

- The flow library's own `applyNodeChanges`, `applyEdgeChanges` and `addEdge`. The stand-ins in `FlowChanges` leave out `add` and `reset` changes, handle ids and edge options, and whatever the library does beyond the rules stated above.
- The screen-to-graph projection (`project`) and `fitView`: they are floating point, so a drop receives its position already projected.
- The browser: `FileReader` asynchrony, `window.open`, `sessionStorage`, `JSON.parse`, `atob`, `Blob`, `URL.createObjectURL` and `setTimeout`. A file read is split into its start and its completion. The opened tab is returned as a value. The session storage entry is a parameter and a result, already parsed. The decoded PDF text is the input of the byte loop.
- `@/lib/types`: the block catalog's contents and its icons. The catalog is a parameter, and its `label` field is called `title` because `label` is a Dafny keyword.
- JSX markup, styling, icons, tooltips and the sidebar's open/closed toggle.
- `StoreSpec.UpdateNodeDataAsWritten`: models the sharing of node objects only for the snapshot the edit itself pushes. Older snapshots that hold the same objects are edited in place too in the source, and the model does not capture that.
- `Text.ToLower`: lower-cases ASCII and Latin-1 capitals only, not the rest of Unicode.
- `CustomNode.Expand`: a missing `url` or `fileSrc` is read as the empty string, where the source would pass `undefined`.
- Drags: a drag is modelled as the canvas delivers it for a single node, one batch per frame and then one batch for the drop. Drags of several selected nodes at once are not modelled.
- The history entry's `type` tag: every entry is `'node'`, so undo's check of it always passes and is not modelled.
- Rendering timing (React re-renders, `useMemo`, `useCallback` dependencies): each handler is modelled as one call against the store's current state.

## Findings

| source | as written | input that shows it | evidently intended | confidence | as-written member | corrected member |
|---|---|---|---|---|---|---|
| src/stores/editor-store.ts:122-127 | `updateNodeData` reassigns `node.data` on the node objects that the snapshot it has just pushed also holds, so the snapshot records the edited data | one node `dnd-node_1` of kind `checkout`; `updateNodeData('dnd-node_1', {label: 'Oferta'})`; `undoLastAction()` — the label is still `Oferta` | the snapshot taken before the edit lets undo restore the data from before it, as it does for every other recorded operation | medium; not executed | `StoreSpec.UpdateNodeDataAsWritten` (shown by `StoreProperties.AliasedEditCounterexample`) | `StoreSpec.UpdateNodeData` (proved by `StoreProperties.UndoRevertsUpdateNodeData`) |
| src/stores/editor-store.ts:65-72 | `onNodesChange` pushes a snapshot only for a batch with a `dragging: false` position change, and the canvas delivers every drag frame (`dragging: true`) as its own earlier batch, so the snapshot is of the graph already moved | node `dnd-node_1` of kind `vsl` at (0, 0); drag it to (120, 40) (one frame batch, then the drop batch); `undoLastAction()` — the node stays at (120, 40) | undo after a drag puts the node back where the drag started, as undo reverts every other recorded edit | medium; not executed | `StoreSpec.OnNodesChange` (shown by `StoreProperties.DragUndoCounterexample` and `StoreProperties.DragUndoKeepsDraggedPosition`) | `StoreSpec.OnNodesChangeTracked` (proved by `StoreProperties.TrackedDragUndoRestores`) |
| src/components/funnel-editor/properties-panel.tsx:60 | the panel reads `blockInfo!.icon` without checking that the kind was found in the catalog | select a node whose `data.type` is `foo`, which `onDrop` (editor.tsx:71-88) and a loaded funnel both allow — rendering throws | an unknown kind renders no panel, as the flow node shows a placeholder for it (custom-node.tsx:17-19) | medium; not executed | `PropertiesPanel.PanelAsWritten` (shown by `PropertiesPanel.UnknownKindCrashesPanel`) | `PropertiesPanel.Render` (related by `PropertiesPanel.PanelAgreesWhereWrittenRenders`) |
