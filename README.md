# Editor session model

A Dafny model of the session core of an image text-replacement editor (a React
application). The user loads an image, drags rectangles over text in REGION mode,
each rectangle becomes a text region whose text a recognition engine fills in
later, and the user edits a region's text and appearance in a side panel and
commits it onto the raster. Every commit records an undo/redo checkpoint.

The model has one module per source file:

- `Types` (types.ts): the 13 editor modes, `Region`, `ImageRegion`,
  `HistoryItem`, points and rectangles, and the notice (toast) record.
- `Canvas`: the four canvas operations the session uses, on an `array2<Color>`
  raster: `GetImageData` (a full copy), `PutImageData` (a full overwrite),
  `DrawImage` (a canvas sized to a freshly loaded image) and `FillRect` (clipped
  to the canvas).
- `App` (App.tsx): the `Session` class holding the region list, the active
  selections, the undo log `history` with its cursor `historyIndex` (-1 means
  empty), the canvas, the processing flag, a fresh-id counter and the notice log.
  `saveHistory`, `undo`, `redo`, the image-load reset and the canvas
  initialisation effect are methods on it; the `onUpdateRegion` merge is the
  pure function `UpdateRegion`; the new log a commit produces is the pure
  function `Committed`, about which the history lemmas are proved.
- `CanvasArea` (components/CanvasArea.tsx): the drag-to-select state machine as
  the class `Selector`, rectangle normalisation, region construction,
  `processRegion` split at its `await` into `ProcessRegion` and
  `FinishRecognition`, the id-keyed write-back of recognised text, `trim`, and
  the pointer-to-image mapping and fit-to-view scale over `real`.
- `EditorPanel` (components/EditorPanel.tsx): the panel's field handlers, cancel
  and `handleCommit`.
- `Scenario`: a client method that loads an image, drags out a region, edits
  and commits it, then undoes and redoes, using only the contracts above.

Things the model makes explicit about the code as written:

- The active region is a copy of a region record, not an id.
  `onUpdateRegion` and the recognition write-back change only the list.
  So `Commit` reads the label text, `transparentBg` and `bgColor` from the copy
  taken when the region was last made active (`Scenario` shows this).
- `handleCommit` saves history before it fills the rectangle. The newest history
  item therefore holds the raster and region list from before that commit, and a
  redo to it restores the region with `edited` still false and no fill.
- After 30 items the oldest item is evicted, so item 0 is no longer the
  "Initial Load" item (`App.CommitBounded`).
- When recognition fails, the region's text stays `識別中...`; a notice is added.
- Loading an image clears both region lists and the log but leaves the active
  selections as they were.

## Model

| member | source | states |
|---|---|---|
| Types.ModeFromName | types.ts:2-16 | the enum string names at most one mode, and the mode it names has that string |
| Types.ModesEnumerated | types.ts:2-16 | there are exactly 13 modes, each listed in declaration order at its own position, and each mode's string maps back to it |
| Types.ModesDistinct | types.ts:2-16 | no mode is listed twice and no two modes share a string value |
| Types.DragModes | components/CanvasArea.tsx:61 | of the 13 modes exactly REGION and IMAGE_SELECT start a selection drag |
| Types.StyleNamesDistinct | types.ts:34-47 | `textAlign` is one of left/center/right and `gradientDirection` one of horizontal/vertical/diagonal, each name for one value |
| Types.ImageRegionKindName | types.ts:59 | an image region's `type` is `image` or `lasso` |
| Canvas.GetImageData | App.tsx:63 | the snapshot is an exact copy of every canvas pixel, row by row |
| Canvas.PutImageData | App.tsx:85 | restoring a snapshot overwrites every pixel with the snapshot's |
| Canvas.DrawImage | App.tsx:34-36 | the canvas takes the image's size and exactly its pixels |
| Canvas.FillRect | components/EditorPanel.tsx:43-44 | exactly the pixels inside the rectangle (clipped to the canvas) take the colour; all others keep theirs |
| App.Merge | App.tsx:174 | each of the six patchable fields (text, fontSize, color, bgColor, transparentBg, edited) takes the update's value when present and keeps the old one when absent; every other field, id, geometry and originalText included, is kept |
| App.MergeLaws | App.tsx:174 | merging an empty update is the identity, and merging the same update twice is merging it once |
| App.UpdateRegion | App.tsx:173-175 | same length and order; the region with the id gets the merge, every other region is unchanged |
| App.UpdateRegionKeepsIds | App.tsx:173-175 | the id sequence is unchanged, and with no region of that id the list is unchanged |
| App.UpdateRegionKeepsValid | App.tsx:173-175 | updating keeps ids distinct and fresh-bounded and keeps every region above the size threshold |
| App.Committed | App.tsx:69-73 | the new log ends with the new item and has idx + 2 items, or idx + 1 when the oldest was evicted |
| App.CommitDiscardsRedo | App.tsx:69-73 | a commit keeps exactly the items up to the cursor (minus an evicted first one), drops the redo branch, and ends with the new item; its length is min(cursor + 2, 30) |
| App.CommitBounded | App.tsx:72-73 | a log of at most 30 items stays at most 30; when it would reach 31 exactly the oldest item is removed |
| App.CommitThenUndo | App.tsx:69-82 | undo straight after a commit lands on the item the cursor pointed at before the commit, even after an eviction |
| App.UndoIndex | App.tsx:80-81 | undo moves the cursor back by exactly one when it is above 0 and leaves it otherwise; it never goes below 0 |
| App.RedoIndex | App.tsx:95-96 | redo moves the cursor forward by exactly one when it is before the last item and leaves it otherwise; it never passes the last item |
| App.UndoRedoRoundTrip | App.tsx:79-107 | n undos followed by n redos bring the cursor back to where it was, for any n up to the cursor |
| App.Session.constructor | App.tsx:12-24 | the initial state: no image, SELECT mode, empty lists, no selection, empty log with cursor -1 |
| App.Session.CanUndo | App.tsx:140 | the undo button is enabled exactly when undo would move the cursor |
| App.Session.CanRedo | App.tsx:141 | the redo button is enabled exactly when redo would move the cursor |
| App.Session.SetMode | App.tsx:14 | choosing a tool changes only the mode |
| App.Session.SaveHistory | App.tsx:57-77 | the log becomes `Committed` of the old log with a snapshot of the current raster and a copy of the current region list, and the cursor ends on the new last item; the session invariant holds |
| App.Session.Undo | App.tsx:79-92 | with the cursor above 0 (`canUndo`, App.tsx:140) the cursor drops by one and that item's raster and regions are restored and both selections cleared; otherwise nothing changes; the log never changes |
| App.Session.Redo | App.tsx:94-107 | with the cursor before the last item (`canRedo`, App.tsx:141) the cursor rises by one and that item is restored and both selections cleared; otherwise nothing changes; the log never changes |
| App.Session.ResetForImage | App.tsx:113-119 | loading a new image empties the log (cursor -1) and both region lists |
| App.Session.InitializeCanvas | App.tsx:29-55 | the canvas is sized to the image and holds its pixels; an empty log becomes one "Initial Load" item with no regions and cursor 0 |
| App.Session.LoadImage | App.tsx:109-124 | after a load the log is the single "Initial Load" item holding the image, the cursor is 0, there are no regions, and neither undo nor redo is possible; the active selections, the mode, the id counter, the processing flag and the notices are kept |
| App.Session.OnUpdateRegion | App.tsx:173-175 | the region list becomes `UpdateRegion` of the old one; the log and the active copy are untouched |
| CanvasArea.ZoomFit | components/CanvasArea.tsx:35-42 | the scale is at most 1, the scaled image fits the padded container on both axes, and it is one of the three candidates |
| CanvasArea.ToImageSpace | components/CanvasArea.tsx:48-55 | the image-space point is the one the display scale draws back at the pointer, and it is left of or above the image origin exactly when the pointer is |
| CanvasArea.ImageSpaceRoundTrip | components/CanvasArea.tsx:48-55 | mapping a pointer position to image space and back to the screen gives the position back, and conversely |
| CanvasArea.NormalizeRect | components/CanvasArea.tsx:71-76 | width and height are non-negative, the rectangle contains both endpoints, and its corner is taken from them |
| CanvasArea.NormalizeRectSmallest | components/CanvasArea.tsx:71-76 | every rectangle containing both endpoints contains the normalised one; the order of the endpoints does not matter; a click gives a zero-size rectangle at the point |
| CanvasArea.NewRegion | components/CanvasArea.tsx:96-121 | the new region has the rectangle's geometry, `text` and `originalText` equal to `識別中...`, is not edited and has a transparent white background |
| CanvasArea.Trim | components/CanvasArea.tsx:140 | the trimmed text is a slice of the input that neither starts nor ends with white space, and only white space was cut off |
| CanvasArea.TrimIdempotent | components/CanvasArea.tsx:140 | trimming text without outer white space returns it unchanged |
| CanvasArea.TrimTwice | components/CanvasArea.tsx:140 | for every string, trimming twice equals trimming once |
| CanvasArea.WriteBack | components/CanvasArea.tsx:141 | same length; the region with the id gets the recognised text as both `text` and `originalText`, every other region is unchanged |
| CanvasArea.WriteBackStale | components/CanvasArea.tsx:141 | a write-back keeps the ids and the session invariant, and for an id no longer in the list (after an undo) it changes nothing |
| CanvasArea.ProcessRegion | components/CanvasArea.tsx:91-125 | exactly one region with a fresh id is appended at the end and becomes active, one info notice is added; the processing flag is down on exit unless recognition is pending |
| CanvasArea.FinishRecognition | components/CanvasArea.tsx:126-149 | on success the trimmed text is written back by id; on failure the list is unchanged and an error notice is added; either way the processing flag is down |
| CanvasArea.ClickRegion | components/CanvasArea.tsx:182 | clicking a region's overlay makes a copy of it the active region and changes nothing else |
| CanvasArea.Selector.constructor | components/CanvasArea.tsx:31-33 | no drag, no start point, no rectangle |
| CanvasArea.Selector.MouseDown | components/CanvasArea.tsx:57-66 | a drag starts, with a zero-size rectangle at the point, only with an image loaded, the left button, and REGION or IMAGE_SELECT mode; otherwise nothing changes |
| CanvasArea.Selector.MouseMove | components/CanvasArea.tsx:68-77 | during a drag the rectangle becomes the normalised span of start and pointer; with no drag nothing changes |
| CanvasArea.Selector.MouseUp | components/CanvasArea.tsx:79-89 | the drag always ends and the rectangle is cleared; a region is created exactly when the rectangle is larger than 10 by 10 and the mode is REGION, and otherwise the session is unchanged; a created region takes the fresh id `nextId`, which then rises by one, and the info notice is added; the image-region state is never touched |
| EditorPanel.CommitLabel | components/EditorPanel.tsx:35 | the label is `編輯文字: ` followed by the first min(10, length) characters of the text |
| EditorPanel.TextChange | components/EditorPanel.tsx:63 | merging the text box's patch changes the region's text and nothing else |
| EditorPanel.FontSizeChange | components/EditorPanel.tsx:76 | merging the size field's patch changes the font size and nothing else |
| EditorPanel.ColorChange | components/EditorPanel.tsx:86 | merging the colour picker's patch changes the text colour and nothing else |
| EditorPanel.BgColorChange | components/EditorPanel.tsx:100 | merging the background picker's patch sets bgColor and turns transparentBg off, and nothing else |
| EditorPanel.TransparencyChange | components/EditorPanel.tsx:106 | merging the checkbox's patch sets transparentBg and nothing else |
| EditorPanel.EditedPatchMarks | components/EditorPanel.tsx:50 | the commit's patch marks the region edited and changes nothing else |
| EditorPanel.ChangeField | components/EditorPanel.tsx:63-106 | a control edit updates only the region with the active region's id, through `UpdateRegion` |
| EditorPanel.Cancel | components/EditorPanel.tsx:122 | cancel clears the active region and leaves the region list unchanged |
| EditorPanel.Commit | components/EditorPanel.tsx:33-52 | with no active region nothing changes; otherwise the log gains an item holding the pre-fill raster and pre-commit regions labelled by `CommitLabel`, exactly the region's rectangle is filled with `bgColor` when its background is not transparent, the region with that id is marked edited, and the active region is cleared |

## Left out

- Header, toolbar layout and the toast's DOM work are not modelled; a toast is a
  (message, severity) entry appended to the session's notice log.
  `onDownload`, `onZoomFit` and `onDetectAll` are no-ops in the source.
- The recognition engine (the `Tesseract.recognize` call) is not modelled. Its
  outcome is a parameter of `FinishRecognition`, and whether an engine is present
  is a parameter of `ProcessRegion`. The sub-image handed to the engine is not
  modelled.
- Asynchrony is modelled only as the split of `processRegion` at its `await`:
  `FinishRecognition` may run after any other operation. The full-screen overlay
  that blocks input while the flag is up is not modelled as a constraint.
- CanvasArea.Selector.MouseUp: clears the selection rectangle when the handler
  returns. In the source it is cleared only after recognition settles.
- Coordinates and sizes are whole pixels (`int`). The drag machine receives
  points already mapped to image space. The floating-point mapping and fit
  scale are modelled separately over `real`, with no rounding. Fractional
  rectangles and anti-aliased fill edges are not modelled.
- EditorPanel.CommitLabel: counts characters (code points), while the source's
  `slice(0, 10)` counts UTF-16 code units. The two differ for characters outside
  the Basic Multilingual Plane.
- EditorPanel.FontSizeChange takes an integer; `parseInt` returning NaN on an
  empty field is not modelled.
- Region fields that no core logic reads are not modelled: gradientColor1,
  gradientColor2, stroke, shadow,
  scaleY, letterSpacing, the curve fields, isFloating, floatingImage and
  selectedPixels.
- `ImageRegion` has no operation in this core beyond being cleared on load and
  deselected on undo/redo; image-fragment editing is not part of this model.
- `Date.now()` ids are a counter (`nextId`); timestamps are parameters.
- The session state `originalImageData`, `displayScale`, `pdfPages` and
  `currentPdfPage` is not modelled; PDF loading is not part of this model.
- The canvas element and its 2D context are assumed present. The early returns
  for a missing canvas or context are not modelled.
- Text drawing onto the raster is not modelled; the source leaves it
  unimplemented after the background fill.
