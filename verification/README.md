# Sketch canvas: drawing store, canvas gestures and image export in Dafny

This project models the core of a browser sketching application in Dafny:

- **the drawing store** (`src/redux/drawingSlice.js`): the element list, the tool
  and style settings, and a linear undo log of element-list snapshots with a
  cursor. Every reducer is modelled: `addElement`, `updateElement`,
  `clearCanvas`, `undo`, `redo` and the four setters.
- **the canvas component** (`src/components/Canvas.jsx`) without its UI framework:
  - `getCoordinates`;
  - the pointer handlers (down, move, up, leave), as transitions of a gesture
    state (`Idle` or `Drawing(start)`) paired with the store;
  - the render dispatch of `redrawElements`, as abstract draw commands;
  - the SVG-style path text built for pencil strokes.
- **export parameter selection** (`src/utils/exportUtils.js`):
  - the MIME-type table and its PNG fallback;
  - the download file name;
  - the quality validation;
  - which formats ask for a quality;
  - the name the dialog proposes;
  - the whole prompt sequence of `openExportDialog`, as a function of the
    user's answers.

Modules:

| file | module | contents |
|---|---|---|
| `wrappers.dfy` | `Wrappers` | `Option` |
| `seqs.dfy` | `Seqs` | generic sequence identities |
| `decimal.dfy` | `Decimal` | integer to decimal text and back; stands in for template-literal number formatting |
| `elements.dfy` | `Elements` | points, tools, options, elements, update patches |
| `drawing.dfy` | `DrawingSlice` | the store and its reducers |
| `path.dfy` | `PathText` | pencil path text and a parser for it |
| `render.dfy` | `Render` | draw commands and the repaint |
| `canvas.dfy` | `Canvas` | coordinates, gestures, event replay |
| `export.dfy` | `Export` | export parameters |

Behaviour the model follows as the code has it:

- **Pencil moves append copies.** A pencil move dispatches `addElement` with the
  extended last element. That appends a copy rather than replacing the
  previous one. A stroke of n samples therefore leaves n elements, each a
  longer prefix of the stroke, and n snapshots (`Canvas.PencilStroke`). The
  handler's own comment (src/components/Canvas.jsx:166) speaks of avoiding
  store dispatches during movement, yet every move dispatches; the model
  follows the code.
- **A repaint can stop part-way.** It throws when a line, rectangle or circle
  element has fewer than two points. `Render.Frame.aborted` marks this.
  Nothing after that element is drawn.
- **Circles are drawn at twice the radius.** A circle's diameter is twice the
  distance from the press point to the release point. The command carries
  its square, so no square root is needed.
- **`jpg` gets the default quality.** A format typed as `jpg` gets the JPEG
  MIME type. The quality prompt is skipped for it, because only `jpeg` and
  `webp` ask.

## Model

| member | source | states |
|---|---|---|
| DrawingSlice.InitialSynced | src/redux/drawingSlice.js:5-13 | The initial store is empty, has no snapshot, sits at cursor -1, and can neither undo nor redo. |
| DrawingSlice.Commit | src/redux/drawingSlice.js:26-27 | A commit keeps the snapshots up to the cursor, appends the new element list, and moves the cursor onto it. The result is synced, has no redo branch, and leaves every other field unchanged. |
| DrawingSlice.AddElementTo | src/redux/drawingSlice.js:21-28 | Adding grows the element list by exactly the new element at the end and commits that list. The earlier snapshots survive. |
| DrawingSlice.UpdateElementIn | src/redux/drawingSlice.js:31-37 | Every element with the id gets the patch merged in; every other element is unchanged. The length and the history stay the same; nothing is committed. |
| DrawingSlice.ClearCanvasOf | src/redux/drawingSlice.js:40-47 | Clearing empties the element list and commits an empty snapshot, so the clear itself can be undone. |
| DrawingSlice.UndoOf | src/redux/drawingSlice.js:50-55 | Undo steps the cursor back and restores that snapshot only when the cursor is past the first snapshot; otherwise the store is unchanged. The history is never changed. |
| DrawingSlice.RedoOf | src/redux/drawingSlice.js:58-63 | Redo steps the cursor forward and restores that snapshot only when a later snapshot exists; otherwise the store is unchanged. |
| DrawingSlice.SetToolOf | src/redux/drawingSlice.js:66-68 | Only the current tool changes. |
| DrawingSlice.SetStrokeColorOf | src/redux/drawingSlice.js:71-73 | Only the stroke colour changes. |
| DrawingSlice.SetStrokeWidthOf | src/redux/drawingSlice.js:76-78 | Only the stroke width changes. |
| DrawingSlice.SetFillColorOf | src/redux/drawingSlice.js:81-83 | Only the fill colour changes. |
| DrawingSlice.Reduce | src/redux/drawingSlice.js:19-84 | Every action keeps the cursor in range. Commits leave the store synced with no redo branch. Non-commits never touch the history. Only `updateElement` can desynchronise the list from its snapshot. Once a snapshot exists, the cursor never returns to -1. |
| DrawingSlice.ReachableAnchored | src/redux/drawingSlice.js:5-63 | From the initial store, the cursor is -1 exactly when the history is empty. Without `updateElement`, the element list always equals the snapshot under the cursor. |
| DrawingSlice.UndoRedoRoundTrip | src/redux/drawingSlice.js:50-63 | On a synced store that can undo, redo after undo restores the store exactly. |
| DrawingSlice.RedoUndoRoundTrip | src/redux/drawingSlice.js:50-63 | On a synced store past its first commit (cursor at least 0) that can redo, undo after redo restores the store exactly. At cursor -1, which no reachable store has while it can redo, undo stops at snapshot 0 instead. |
| DrawingSlice.ClearThenUndo | src/redux/drawingSlice.js:40-55 | Undoing a clear brings back the elements present before it. |
| DrawingSlice.AddThenUndo | src/redux/drawingSlice.js:21-55 | Undoing an addition restores the previous elements and cursor, unless the addition was the first commit. |
| DrawingSlice.CommitTruncates | src/redux/drawingSlice.js:26 | A commit made after undoing drops the redo branch: the snapshots up to the cursor are kept, every later one is replaced by the single new snapshot, and a redo right after the commit changes nothing. |
| DrawingSlice.UndoTimesStopsAtFirst | src/redux/drawingSlice.js:50-55 | n undos move the cursor back by n but never below snapshot 0. Each effective undo leaves the store synced; with nothing to undo, the store is unchanged. |
| DrawingSlice.RedoTimesStopsAtLast | src/redux/drawingSlice.js:58-63 | n redos move the cursor forward by n but never past the last snapshot. With nothing to redo, the store is unchanged. |
| DrawingSlice.SettersCommuteWithUndo | src/redux/drawingSlice.js:50-83 | Each setter commutes with undo. |
| DrawingSlice.SettersCommuteWithRedo | src/redux/drawingSlice.js:58-83 | Each setter commutes with redo. |
| DrawingSlice.UpdateIdempotent | src/redux/drawingSlice.js:31-37 | Applying the same update twice equals applying it once. An update without keys changes nothing. |
| Elements.Merge | src/redux/drawingSlice.js:32-35 | The object spread: present keys replace, absent keys keep, and the id is kept. |
| Decimal.IntToString | src/components/Canvas.jsx:97-98 | A number's decimal text is non-empty, holds no space, and starts with '-' exactly for negatives. |
| Decimal.IntToStringCanonical | src/components/Canvas.jsx:97-98 | After the sign, a number's text is only digits, with no leading zero unless it is the single digit 0. |
| Decimal.ParseIntToString | src/components/Canvas.jsx:97-98 | Parsing the decimal text of an integer gives the integer back. |
| Decimal.IntToStringInjective | src/components/Canvas.jsx:97-98 | Distinct coordinates give distinct texts. |
| PathText.PathData | src/components/Canvas.jsx:96-99 | The path of no points is empty text; any other path starts with `M `. |
| PathText.PathDataIsJoinedTokens | src/components/Canvas.jsx:96-99 | The path text is the words `M x0 y0 L x1 y1 …` of the independent word list, joined by single spaces. |
| PathText.PathDataExtends | src/components/Canvas.jsx:98 | One more point appends ` L x y` to the path. |
| PathText.PathRoundTrip | src/components/Canvas.jsx:96-99 | Parsing a pencil path gives back exactly the stroke's points. |
| PathText.PathDataInjective | src/components/Canvas.jsx:96-99 | Different strokes never draw the same path text. |
| Render.Shape | src/components/Canvas.jsx:77-94 | A line goes from the first point to the second. A rectangle starts at the first point, with signed width and height reaching the second. A circle is centred on the first point, with a squared diameter four times the squared distance to the second. Other kinds draw nothing. |
| Render.CommandFor | src/components/Canvas.jsx:76-105 | Each known kind gives one command with the element's options; an unknown kind gives none. A pencil's command carries the element's path text, which parses back to its points. |
| Render.RenderAll | src/components/Canvas.jsx:65-107 | A repaint aborts exactly when some element lacks the points its kind reads, and issues at most one command per element. |
| Render.RenderOne | src/components/Canvas.jsx:73-105 | A single element: its command, none for an unknown kind, or an abort when its points are missing. |
| Render.RenderConcat | src/components/Canvas.jsx:73-106 | Painter's order: repainting a + b issues a's commands, then b's, unless a aborted. |
| Render.RenderOnePerElement | src/components/Canvas.jsx:73-106 | On drawable elements of known kinds, the i-th command is the i-th element's command. |
| Render.RenderStopsAtBroken | src/components/Canvas.jsx:77-94 | An element without its points hides every element after it. |
| Render.ShapeExamples | src/components/Canvas.jsx:80-94 | A rectangle from (10,10) to (50,40) is 40 by 30. A backwards rectangle gets negative sizes. The circle through (3,4) has diameter 10. |
| Canvas.Coordinates | src/components/Canvas.jsx:110-123 | Without a canvas the point is the origin. Otherwise the canvas corner plus the point is the event's screen position: the first touch for a touch event. |
| Canvas.CoordinatesTranslate | src/components/Canvas.jsx:119-122 | Shifting the canvas and the pointer together leaves the point unchanged. |
| Canvas.TouchLikeMouse | src/components/Canvas.jsx:116-117 | A touch lands where a mouse event at its first touch would; further touches are ignored. |
| Canvas.PencilOptions | src/components/Canvas.jsx:138-142 | A new stroke carries the current stroke colour and width, roughness 1 and no fill. |
| Canvas.ShapeOptions | src/components/Canvas.jsx:236-241 | A new shape also carries the current fill. |
| Canvas.PointerDown | src/components/Canvas.jsx:126-146 | A press starts a gesture at the pointer. With the pencil it commits a one-point stroke; otherwise the store is unchanged. |
| Canvas.Extend | src/components/Canvas.jsx:161-164 | The extended element is the old one with exactly the new point appended. |
| Canvas.PencilPaths | src/components/Canvas.jsx:171-182 | The interim pencil repaint draws only paths, at most one per element. |
| Canvas.Pencils | src/components/Canvas.jsx:171-173 | The pencil strokes of a drawing: every one of them and nothing else. |
| Canvas.PencilsConcat | src/components/Canvas.jsx:171-173 | Selecting the pencil strokes of two lists joined is joining their selections, so the strokes keep their order. |
| Canvas.PencilPathsRenderPencils | src/components/Canvas.jsx:171-182 | On any drawing, the interim repaint draws exactly what the full repaint draws for the pencil strokes alone: one path per stroke, in order, and nothing for the other kinds. |
| Canvas.PencilPathsMatchRender | src/components/Canvas.jsx:171-182 | On a pencil-only drawing, the interim repaint equals the full repaint. |
| Canvas.PointerMove | src/components/Canvas.jsx:152-225 | Outside a gesture, a move does nothing. A pencil move paints and commits the extended last element. With another tool, a move leaves the store alone and repaints the elements. For a line, rectangle or circle over drawable elements the repaint is followed by the tool's shape from the start point to the pointer; for any other tool, or when the repaint stops at an element without its points, the repaint alone is the preview. A move without a canvas, or a pencil move without a last element, changes and paints nothing. |
| Canvas.PointerUp | src/components/Canvas.jsx:228-277 | A release ends the gesture. With a line, rectangle or circle it commits that shape from the start point to the pointer; with any other tool the store is unchanged. |
| Canvas.PointerLeave | src/components/Canvas.jsx:283-285 | Leaving ends the gesture and commits nothing. |
| Canvas.StepKeepsShapes | src/components/Canvas.jsx:126-295 | `Canvas.Step` hands each event to its handler, as the canvas binds them, and each toolbar action to the store's reducer. No canvas event, and no toolbar action the interface can send, stores an element that lacks its points. |
| Canvas.RepaintNeverAborts | src/components/Canvas.jsx:65-107 | After any run of such events from the start, no repaint of the store throws. |
| Canvas.PencilGestureCommits | src/components/Canvas.jsx:126-184 | Replaying a press and moves with the pencil yields one commit per sample, with the gesture anchored at the first sample. |
| Canvas.StrokeStoreContents | src/components/Canvas.jsx:159-184 | After a stroke, the old elements are kept, followed by one element per sample; the k-th holds the first k+1 points. |
| Canvas.PencilStroke | src/components/Canvas.jsx:126-184 | A stroke of n samples adds n elements with the stroke's id (the k-th holding the first k+1 points), n snapshots and n cursor steps, and leaves the store synced. |
| Canvas.BoundedMovesCommitNothing | src/components/Canvas.jsx:185-224 | With any tool but the pencil, moves leave the session exactly as it was. |
| Canvas.BoundedGesture | src/components/Canvas.jsx:126-277 | A line, rectangle or circle gesture (press, moves, release) commits exactly one element: the tool's shape from the press point to the release point. |
| Canvas.PreviewMatchesCommit | src/components/Canvas.jsx:185-224 | The preview a move paints is the full repaint after releasing at the same spot. |
| Export.ToLower | src/utils/exportUtils.js:28 | Lower-casing keeps the length, maps each ASCII capital to its small letter, keeps every other character, and leaves no capital. |
| Export.ToLowerIdempotent | src/utils/exportUtils.js:28 | Lower-casing twice is lower-casing once. |
| Export.MimeType | src/utils/exportUtils.js:21-28 | The MIME type is the table's entry for the lower-cased format, or PNG's when the table has none. |
| Export.MimeTypeCases | src/utils/exportUtils.js:21-28 | JPEG exactly for `jpeg`/`jpg`, WebP exactly for `webp`, and PNG for every other format, in any letter case. |
| Export.MimeTypeIgnoresCase | src/utils/exportUtils.js:28 | Formats that differ only in case get the same MIME type. |
| Export.DownloadName | src/utils/exportUtils.js:36 | The file name is the chosen name, then a dot, then the lower-cased format. |
| Export.ExtensionOfDownloadName | src/utils/exportUtils.js:36 | For a format without a dot, the file's extension is the lower-cased format and the chosen name precedes it. |
| Export.CheckedQuality | src/utils/exportUtils.js:84-87 | The result lies in [0.1, 1.0]. It is the typed number exactly when that number is in range; otherwise (NaN, an infinity, a number out of range) it is 0.9. |
| Export.CheckedQualityIdempotent | src/utils/exportUtils.js:84-87 | Checking a checked quality again changes nothing. |
| Export.AsksQualityOnlyLossy | src/utils/exportUtils.js:78 | Every format that asks for a quality (`Export.AsksQuality`: `jpeg` or `webp` after lower-casing) is JPEG or WebP. `jpg` is JPEG but is never asked. |
| Export.ExportCanvasAsImage | src/utils/exportUtils.js:13-55 | With no canvas there is no download. Otherwise the download has the format's MIME type (one of PNG, JPEG and WebP), the given quality, and the file name `name.format` with the format lower-cased. |
| Export.ExportWithDefaults | src/utils/exportUtils.js:13-36 | Each parameter left out defaults on its own: the quality to 0.9, the MIME type to PNG's, the extension to `png` and the name to `drawing`. Each parameter supplied is used: its quality, its format's MIME type and lower-cased extension, its name at the front. |
| Export.ExportDefaultsExample | src/utils/exportUtils.js:13-36 | A call with only a canvas downloads `drawing.png` as PNG at 0.9. |
| Export.ProposedFileName | src/utils/exportUtils.js:64-65 | The proposed name is `drawing-` followed by the first 19 characters of the timestamp (all when shorter), each ':' and '.' replaced by '-' and every other character kept. |
| Export.ProposedFileNameExample | src/utils/exportUtils.js:64-65 | The timestamp `2024-01-15T10:30:45.123Z` proposes `drawing-` followed by `2024-01-15T10-30-45`. |
| Export.ExportDialog | src/utils/exportUtils.js:62-92 | A download happens exactly when the canvas exists and no prompt that was asked got cancelled. It then has the format's MIME type and the file name `name.format`. The quality lies in [0.1, 1.0]: 0.9 when not asked; when asked, the typed value if it is in range and 0.9 otherwise. |
| Export.DialogIgnoresUnaskedQuality | src/utils/exportUtils.js:76-88 | For a format that does not ask, the quality answer makes no difference. |
| Export.DialogJpgExample | src/utils/exportUtils.js:21-36 | Typing `JPG` downloads `photo.jpg` as JPEG at 0.9, whatever the quality answer. |
| Export.DialogWebpExample | src/utils/exportUtils.js:76-91 | For WebP, 1.5 falls back to 0.9, 0.5 is kept, and a cancelled quality prompt means no download. |

## Left out

- React hooks, rendering and refs are not modelled. A handler reads the store as it is when the handler runs. In the component a handler reads the `elements`, `isDrawing` and `startPoint` captured at its last render, so fast events can act on a stale copy.
- `preventDefault` and the canvas sizing are not modelled: the resize observer, the window listener and the width/height copy.
- The sketch-style rendering library is left out. Its drawing calls become `Render.DrawCommand` values, and clearing the surface is the start of a fresh `Render.Frame`. Its randomised strokes are not modelled.
- Render.Shape: a circle carries the square of its diameter instead of the diameter, because `Math.sqrt` has no integer counterpart.
- Decimal.IntToString: the digits of the integer, at any size. JavaScript writes a magnitude of 1e21 or more in exponent form (`1e+21`), and above 2^53 a Number no longer holds every integer exactly. Neither is modelled; on-screen coordinates stay far below both limits.
- Coordinates are whole numbers. The fractional pixel positions of real events, and their decimal text in path data, are not modelled.
- `uuidv4` is replaced by the id carried on each `Down`/`Up` event.
- Canvas.PointerInput: a touch event with an empty touch list cannot be built. In the source, `touches[0]` is then undefined and the handler throws.
- Canvas.PointerMove: a move that dereferences a missing canvas or a missing last element throws in the source. The model treats it as changing nothing.
- DrawingSlice.Reduce: the history reducers require `Valid()`, the cursor range that every reachable store satisfies (`DrawingSlice.ReachableAnchored`). States outside that range never arise, and the source's behaviour on them (negative `slice` bounds, `undefined` snapshots) is not modelled.
- Elements.Tool: the type does not exclude `Other("line")` and the like. In the source the string `'line'` is always the line kind, so the `Other` of a known name stands for nothing. The model handles it like an unknown kind, and the toolbar and the canvas never produce it.
- Elements.Patch: an `updateElement` payload carries only the element's own keys. Extra payload keys, which the spread would add to the element, are not modelled. Neither are keys explicitly set to `undefined`, which the spread would copy over.
- DrawingSlice.ReduceAll: its contract only keeps the cursor in range; `DrawingSlice.ReachableAnchored` states the rest.
- `src/redux/store.js`, `src/App.jsx`, `src/components/ToolBar.jsx` and `src/components/ColorPicker.jsx` wire the store and the toolbar and are not modelled. Their dispatches are the `Canvas.Event.Toolbar` actions.
- `prompt`, `alert`, `Date`, `toDataURL`, the temporary link, `setTimeout` and `URL.revokeObjectURL` are not modelled. Prompt answers, the timestamp and the canvas's presence are parameters.
- Export.ExportCanvasAsImage: the `try`/`catch` around encoding is not modelled, and neither are the `true`/`false` results; the download is the result.
- `parseFloat` is not modelled. The quality answer arrives already parsed, as `Export.QualityInput`.
- Export.ToLower: only ASCII letters are lower-cased; JavaScript's full Unicode case mapping is not modelled.
- Export.MimeType: a format naming a property every JavaScript object inherits (such as `constructor`) finds a non-string value in the table. The model gives PNG, which is also what the encoder falls back to for an unknown type.
