# JSON-to-PDF template editor: a Dafny model

The editor loads a JSON document and shows its fields in a tree. Fields dragged from the tree onto an A4 canvas become
elements: text boxes for scalar values, tables for arrays. Elements can be moved and resized, and the properties panel
edits their style, position, size and columns. The element list can be saved as a named template, restored from local
storage and loaded back. The canvas can be exported to a multi-page PDF.

This project models that document model and the rules around it. Each part is a pure function or small method over
immutable datatypes:

| module | file | models |
|---|---|---|
| `Wrappers` | wrappers.dfy | `Option` and `Result` |
| `Decimal` | decimal.dfy | decimal text of indices, `parseInt` without a radix |
| `Json` | json.dfy | `JsonValue`, `Object.keys`, `String(v)`, `row[key]`, truthiness |
| `Document` | document.dfy | styles, columns, the three element variants, partial updates, templates |
| `Collection` | collection.dfy | append, update by id, delete by id, first match by id |
| `Canvas` | canvas.dfy | zoom, drop placement, the field-to-element rule, the canvas callbacks |
| `TableElement` | table_element.dfy | the table's move and resize gestures, its preview and cell text |
| `TextElement` | text_element.dfy | the text element's selection-gated drag, editing mode and content commit |
| `PropertiesPanel` | properties_panel.dfy | the patch each panel control sends |
| `Editor` | editor.dfy | editor state, selection, templates, clear, JSON load, export wiring |
| `PdfExport` | pdf_export.dfy | image height, pagination loop, file name, busy flag |
| `FieldExplorer` | field_explorer.dfy | expanded set, child paths, search filter, leaf display, the rendered rows |
| `Upload` | upload.dfy | the uploader's extension check and status machine |

Gesture components are state machines: `Step(state, event)` returns the next local state and an effect, which is a
selection request or a patch to commit. Browser services enter as parameters:

- the answer to a `prompt`;
- the outcome of a `confirm`;
- whether a local-storage write succeeded;
- the result of `JSON.parse`;
- the clock reading `Date.now()`;
- the ISO time of an export;
- the pixel size html2canvas produced.

Coordinates, sizes and the zoom scale are `real`, so `0.1` zoom steps are exact.

Two places where the model follows the code rather than what a reader might expect:

- The fallback table column is `{field: "0", header: "Value"}`. For scalar rows, `row["0"]` is not the scalar itself. A number or boolean row therefore shows an empty cell, and a string row shows its first character (`TableElement.ScalarRowsUnderValueColumn`).
- Only leaves of the field explorer are drag sources (`FieldExplorer.OnlyLeavesAreDragged`). The canvas's array-to-table branch (`Canvas.MapField`) is never reached from this explorer, but it is modelled as written.

## Model

| member | source | states |
|---|---|---|
| `Decimal.ParseIntOfDecimal` | src/components/propierties-panel.tsx:301 | `parseInt` of the decimal text of n, with or without a leading minus, is exactly n or -n |
| `Decimal.DecimalOfParseIndex` | src/components/elements/TableElement.tsx:191 | a canonical array-index key is the decimal text of the index it selects, so index keys and indices correspond one to one |
| `Decimal.ParseIndexOfDecimal` | src/components/json-field-explorer.tsx:71 | the key `Object.entries` gives array item i reads back as index i |
| `Json.Keys` | src/components/editor-canvas.tsx:59 | `Object.keys` of an object is its member keys in order; of an array, one key per item, the i-th reading back as i |
| `Json.Property` | src/components/elements/TableElement.tsx:191-193 | `row[key]` throws exactly on a null row; on an object it is undefined exactly when no member has the key, otherwise a member's value; on an array it is one of the items, on a string a one-character string of it; on a number or boolean it is always undefined |
| `Json.PropertyAtIndex` | src/components/elements/TableElement.tsx:191-193 | on an array row the key "i" gives item i and on a string row character i; past the end it gives undefined |
| `Document.TypeTag` | src/types/editor.types.ts:20 | every element has one of the three type strings "text", "table", "image" |
| `Document.TypeTagDiscriminates` | src/types/editor.types.ts:57 | two elements have the same `type` string if and only if they are the same variant |
| `Document.Merge` | src/components/editor-canvas.tsx:109 | every field the patch names takes the patch's value and every other field keeps the element's; the id, the variant, a text's field path and a table's data and field path never change |
| `Document.MergeNoChange` | src/components/editor-canvas.tsx:107-112 | merging an empty patch leaves the element as it was |
| `Document.MergeThen` | src/components/editor-canvas.tsx:107-112 | two successive merges equal one merge of the combined patch, later fields winning |
| `Document.MergeIdempotent` | src/components/editor-canvas.tsx:107-112 | applying the same update twice is the same as applying it once |
| `Document.NumberOr` | src/components/elements/TableElement.tsx:32-33 | a falsy default: a non-zero value is kept; absent or 0 gives the default |
| `Collection.Append` | src/components/editor-canvas.tsx:101 | the new element goes last: one longer, the old elements unchanged in front |
| `Collection.AppendKeepsUnique` | src/components/editor-canvas.tsx:101-103 | appending an element with a fresh id keeps ids unique |
| `Collection.UpdateById` | src/components/editor-canvas.tsx:107-112 | same length and order; elements carrying the id are merged with the patch, all others are untouched |
| `Collection.UpdateKeepsIds` | src/components/editor-canvas.tsx:107-112 | an update keeps every element's id in place, so unique ids stay unique |
| `Collection.UpdateAbsent` | src/components/editor-canvas.tsx:107-112 | updating an id nobody carries is the identity |
| `Collection.RemoveById` | src/components/editor-canvas.tsx:121 | no survivor carries the id, every other element survives, nothing new appears, and an absent id changes nothing |
| `Collection.RemoveConcat` | src/components/editor-canvas.tsx:121 | deleting distributes over concatenation, so survivors keep their relative order |
| `Collection.RemoveAt` | src/components/editor-canvas.tsx:121 | with unique ids, deleting the id at index i removes exactly element i |
| `Collection.RemoveKeepsUnique` | src/components/editor-canvas.tsx:121 | deleting keeps ids unique |
| `Collection.FirstIndex` | src/components/editor.tsx:55 | the index of the first element with the id, with no earlier holder; none exactly when no element has it |
| `Collection.FindById` | src/components/editor.tsx:55 | `find` returns the first element of the list carrying the id, and nothing exactly when no element carries it |
| `Collection.FindAfterUpdate` | src/components/editor.tsx:55-64 | after updating an id, looking it up finds the merged version of what it found before |
| `Canvas.ZoomOut` | src/components/editor-canvas.tsx:131 | zooming out goes exactly one 0.1 step down while that stays at or above 0.5, and to 0.5 otherwise; never below 0.5 and never up |
| `Canvas.ZoomIn` | src/components/editor-canvas.tsx:138 | zooming in goes exactly one 0.1 step up while that stays at or below 2, and to 2 otherwise; never above 2 and never down |
| `Canvas.ZoomStaysInRange` | src/components/editor-canvas.tsx:131-138 | from a scale in [0.5, 2], both buttons stay in [0.5, 2] |
| `Canvas.DropPosition` | src/components/editor-canvas.tsx:30-37 | a position exists exactly when the canvas rectangle and pointer do; scaled by the zoom it is the pointer's offset from the canvas origin |
| `Canvas.DropPositionExamples` | src/components/editor-canvas.tsx:36-37 | at zoom 2 an offset of 200 is 100; at zoom 0.5 it is 400 |
| `Canvas.ElementId` | src/components/editor-canvas.tsx:67 | ids are "element-" followed by the decimal text of the clock reading, which reads back as that reading |
| `Canvas.ElementIdInjective` | src/components/editor-canvas.tsx:67 | two ids are equal exactly when the clock readings are, so two drops in the same millisecond collide |
| `Canvas.KeyColumns` | src/components/editor-canvas.tsx:59-63 | one column per key, in key order, with field and header the key and width 100 |
| `Canvas.DeriveColumns` | src/components/editor-canvas.tsx:58-64 | throws exactly when the first item is null; an object or array first item gives one column per key, with field and header the key, width 100 and no style; an empty array or scalar first item gives the single "0"/"Value" column |
| `Canvas.MapField` | src/components/editor-canvas.tsx:55-99 | arrays become 400x200 tables with the array as data, the bordered style and the derived columns; anything else becomes a text element with `String(value)`, no size and black 16px Arial |
| `Canvas.ArrayOfObjectsExample` | src/components/editor-canvas.tsx:56-81 | an array of {a, b} objects yields columns a and b and keeps both rows |
| `Canvas.ScalarArrayExample` | src/components/editor-canvas.tsx:58-64 | an array of numbers, and the empty array, get the single "0"/"Value" column of width 200 |
| `Canvas.SelectionOf` | src/components/editor.tsx:203 | selecting an element selects its id, unless the id is empty, which selects nothing |
| `Canvas.Drop` | src/components/editor-canvas.tsx:29-104 | without a rectangle or pointer, or when the mapping throws, nothing changes; otherwise the new element is appended last and selected |
| `Canvas.DropKeepsUnique` | src/components/editor-canvas.tsx:101-103 | a drop whose clock reading makes a fresh id keeps ids unique |
| `Canvas.UpdateElement` | src/components/editor-canvas.tsx:107-112 | an update merges the patch into every element carrying the id, leaves every other element as it was, and keeps the selection and the length |
| `Canvas.DeleteElement` | src/components/editor-canvas.tsx:120-124 | after a delete, no element has the id, all others survive, and nothing is selected |
| `TableElement.Initial` | src/components/elements/TableElement.tsx:30-38 | a table starts idle at its position; a present non-zero width or height is its local size, and a missing or zero one is shown as 400 or 200 |
| `TableElement.Step` | src/components/elements/TableElement.tsx:61-109 | a press on an unselected table only selects it; a press on a selected table starts a drag anchored at the grab point; moves follow the drag or else the clamped resize; mouse-up ends the gesture and commits exactly {x, y} or {width, height}; only mouse-up commits |
| `TableElement.DragFollowsPointer` | src/components/elements/TableElement.tsx:89-93 | during a drag the table is always at pointer minus anchor, with size and anchor unchanged |
| `TableElement.MovesKeepGesture` | src/components/elements/TableElement.tsx:89-98 | moves never change the gesture flags or origins; a resize never goes below 100x50; a drag never changes the size |
| `TableElement.DragGesture` | src/components/elements/TableElement.tsx:61-104 | a whole drag commits the start position plus the pointer's travel, and returns to idle |
| `TableElement.ResizeFollowsPointer` | src/components/elements/TableElement.tsx:94-97 | during a resize the size is the size at the press plus the pointer's travel, clamped to 100x50 |
| `TableElement.ResizeGesture` | src/components/elements/TableElement.tsx:76-107 | a whole resize commits the clamped size at release, leaves the position alone and returns to idle |
| `TableElement.Mount` | src/components/elements/TableElement.tsx:30-38 | the listeners first capture the initial position and size |
| `TableElement.StepAsWritten` | src/components/elements/TableElement.tsx:88-120 | the state evolves as intended, but mouse-up commits the position or size the listeners captured |
| `TableElement.MovesKeepCapture` | src/components/elements/TableElement.tsx:120 | moves never re-create the listeners, so what they captured stays fixed |
| `TableElement.DragGestureAsWritten` | src/components/elements/TableElement.tsx:101-104 | as written, a whole drag commits the position the table had when the drag began |
| `TableElement.ResizeGestureAsWritten` | src/components/elements/TableElement.tsx:105-107 | as written, a whole resize commits the size the table had when the resize began |
| `TableElement.StaleDragCommitExample` | src/components/elements/TableElement.tsx:101-120 | a table dragged from (0, 0) to where it shows at (50, 50) should commit (50, 50) but commits (0, 0) |
| `TableElement.CellText` | src/components/elements/TableElement.tsx:191-193 | a cell throws exactly on a null row; an undefined property shows ""; a null value shows "null"; an object or array shows its `JSON.stringify` text; a scalar shows `String(v)` |
| `TableElement.ScalarRowsUnderValueColumn` | src/components/elements/TableElement.tsx:191-193 | under the "0" column, number and boolean rows show "" and a string row shows its first character |
| `TableElement.TablePreview` | src/components/elements/TableElement.tsx:123-207 | headers are the column headers; the first min(5, n) rows are shown, one cell per column; a footer counts the n - 5 rows left out exactly when n > 5; rendering throws exactly when a shown row is null and there is a column |
| `TextElement.Initial` | src/components/elements/TextElement.tsx:23-28 | a text element starts idle, not editing, showing its content at its position |
| `TextElement.Step` | src/components/elements/TextElement.tsx:38-124 | a press drags only a selected element; a drag follows pointer minus anchor; mouse-up after a drag commits exactly {x, y}; click selects; double click edits; blur and Enter without Shift stop editing; no commit ever names width, height or style |
| `TextElement.EditingExits` | src/components/elements/TextElement.tsx:86-95 | Shift+Enter and other keys keep editing; Enter alone and blur leave it |
| `TextElement.ContentCommit` | src/components/elements/TextElement.tsx:31-35 | content is committed exactly when not editing and the local content differs from the element's |
| `TextElement.EditSession` | src/components/elements/TextElement.tsx:31-35 | typing while editing commits nothing; leaving the editor commits the typed text, which then becomes the element's content |
| `TextElement.DragFollowsPointer` | src/components/elements/TextElement.tsx:51-56 | during a drag the element is always at pointer minus anchor, and editing and content are untouched |
| `TextElement.DragGesture` | src/components/elements/TextElement.tsx:38-64 | a whole drag of a selected element commits the start position plus the pointer's travel |
| `TextElement.UnselectedPressDoesNotDrag` | src/components/elements/TextElement.tsx:38-47 | a press on an unselected element followed by moves and a release changes nothing and commits nothing |
| `TextElement.UnselectedMoves` | src/components/elements/TextElement.tsx:51-57 | moves without a drag leave the state unchanged |
| `TextElement.StepAsWritten` | src/components/elements/TextElement.tsx:50-73 | the state evolves as intended, but mouse-up commits the position the listeners captured |
| `TextElement.MovesKeepCapture` | src/components/elements/TextElement.tsx:73 | moves never re-create the listeners |
| `TextElement.DragGestureAsWritten` | src/components/elements/TextElement.tsx:59-73 | as written, a whole drag commits the position the element had when the drag began |
| `PropertiesPanel.StyleChange` | src/components/propierties-panel.tsx:60-67 | the patch carries only a style: the old keys plus the edited one, the edited key set to the value, every other key unchanged |
| `PropertiesPanel.PositionChange` | src/components/propierties-panel.tsx:69-71 | a position edit names only x or only y |
| `PropertiesPanel.SizeChange` | src/components/propierties-panel.tsx:73-75 | a size edit names only width or only height |
| `PropertiesPanel.ColumnUpdate` | src/components/propierties-panel.tsx:78-87 | only tables get a patch; it names only the columns, same count, column i merged with the update and every other column unchanged |
| `PropertiesPanel.ToggleBold` | src/components/propierties-panel.tsx:209-211 | the bold button sends "normal" exactly when the weight is "bold", else "bold" |
| `PropertiesPanel.ToggleItalic` | src/components/propierties-panel.tsx:220-222 | the italic button sends "normal" exactly when the style is "italic", else "italic" |
| `PropertiesPanel.NumberInput` | src/components/propierties-panel.tsx:301 | the result is the fallback or the parsed number, and is 0 only when the fallback is 0: unparsable text and 0 give the fallback, any other integer is used |
| `PropertiesPanel.NumberInputReadsDecimals` | src/components/propierties-panel.tsx:345 | typing a non-zero integer, with or without a minus sign, enters that integer |
| `PropertiesPanel.NumberInputFallbacks` | src/components/propierties-panel.tsx:366 | an empty field and "0" both give the fallback |
| `PropertiesPanel.DisplayedWidth` | src/components/propierties-panel.tsx:344 | the width shown is the element's non-zero width, or 400 when absent |
| `PropertiesPanel.DisplayedHeight` | src/components/propierties-panel.tsx:365 | the height shown is the element's non-zero height, or 200 when absent |
| `PropertiesPanel.Handle` | src/components/propierties-panel.tsx:45-87 | with nothing selected nothing is sent; otherwise a patch is sent exactly when the control is on screen; position edits never touch size, style or columns; size inputs send the parsed value or 100/50 |
| `PropertiesPanel.HandleSends` | src/components/propierties-panel.tsx:115-402 | colour, select and alignment controls set one style key; bold and italic set the toggled weight or style; position inputs send the parsed number or 0, sliders their value; a header input replaces that column's header and a width input its width with the parsed number or 50, all other columns kept |
| `PropertiesPanel.StyleEditsAccumulate` | src/components/propierties-panel.tsx:60-67 | two style edits of different keys both survive, with every other key, the position, size and variant untouched |
| `PropertiesPanel.ColourThenFontSize` | src/components/propierties-panel.tsx:60-67 | a colour edit followed by a font-size edit yields both new values |
| `PropertiesPanel.PanelKeepsStyleWellFormed` | src/components/propierties-panel.tsx:175-196 | no panel edit breaks the rule that `textAlign` is left, center or right |
| `PropertiesPanel.BoldTogglesBack` | src/components/propierties-panel.tsx:209-211 | pressing bold changes the weight, and pressing it again restores the style |
| `Editor.Init` | src/components/editor.tsx:23-27 | the editor starts with no elements, no selection and zoom 1 |
| `Editor.SelectedElement` | src/components/editor.tsx:55 | the selected element is the first element of the list carrying the selected id; it is absent exactly when nothing is selected or no element has the id |
| `Editor.UpdateSelected` | src/components/editor.tsx:58-64 | with no (or an empty) selected id nothing changes; otherwise elements with that id are merged and all others kept in place |
| `Editor.PanelEdit` | src/components/editor.tsx:211-214 | with no selected element a panel edit changes nothing |
| `Editor.PanelEditTargetsSelection` | src/components/editor.tsx:58-64 | a panel edit keeps the selection and length, leaves unselected elements alone and the selection still findable |
| `Editor.SaveTemplate` | src/components/editor.tsx:67-85 | a cancelled or empty name changes nothing; otherwise {name, elements} is appended, duplicates allowed, and a successful write stores the same list |
| `Editor.StoredMirrorsMemory` | src/components/editor.tsx:71-81 | when writes succeed, the stored list stays equal to the in-memory list |
| `Editor.LoadTemplate` | src/components/editor.tsx:88-95 | an index without a template, or a refusal, changes nothing; a confirmation replaces elements and name and keeps the selection |
| `Editor.SaveThenLoad` | src/components/editor.tsx:67-95 | saving and then loading the new entry restores the saved elements, whatever was edited in between, under the saved name |
| `Editor.RestoreTemplates` | src/components/editor.tsx:105-115 | a stored list read at start replaces the template list; nothing stored changes nothing |
| `Editor.SaveRestoreLoad` | src/components/editor.tsx:71-115 | a template saved, restored from storage at the next start and loaded gives back the saved elements |
| `Editor.Clear` | src/components/editor.tsx:98-103 | an empty list or a confirmation empties elements and selection; otherwise nothing changes |
| `Editor.LoadJson` | src/components/editor.tsx:37-48 | a parsed file replaces the data and empties elements and selection; a failure changes nothing |
| `Editor.LoadedValueShown` | src/components/editor.tsx:179-180 | the field tree appears exactly when the loaded value is truthy, so a file holding 0 keeps the load prompt |
| `Editor.DeleteClearsSelection` | src/components/editor-canvas.tsx:120-124 | any delete leaves nothing selected and no element with the id |
| `Editor.ExportAsWritten` | src/components/editor.tsx:205 | as wired, the export finds no canvas: no PDF, the busy flag never raised |
| `Editor.Export` | src/components/editor.tsx:170 | with the canvas reachable, a rendered canvas is saved under the document name with ceil(h/297) pages, and the busy flag goes up and down once |
| `Editor.ApplyKeepsValid` | src/components/editor.tsx:58-103 | every operation keeps ids unique in the document and in every template, and the zoom in range, given a fresh clock reading per drop |
| `Editor.RunKeepsValid` | src/components/editor.tsx:58-103 | any sequence of allowed operations keeps ids unique and the zoom in range |
| `Editor.InitValid` | src/components/editor.tsx:23-27 | the initial editor satisfies the invariant |
| `PdfExport.ImageHeight` | src/components/pdf-exporter.tsx:52-54 | the page image keeps the canvas's aspect ratio at width 210 |
| `PdfExport.PageCount` | src/components/pdf-exporter.tsx:56-71 | at least one page, enough pages to reach the bottom of the image, and no page below it |
| `PdfExport.PagesUnique` | src/components/pdf-exporter.tsx:56-71 | that description fixes the page count |
| `PdfExport.Paginate` | src/components/pdf-exporter.tsx:56-71 | the first page is at offset 0, page k at -297k, and there are ceil(h/297) pages (one for h <= 297); the loop ends |
| `PdfExport.PaginateExample` | src/components/pdf-exporter.tsx:56-71 | an image 2.4 pages tall gives pages at 0, -297 and -594 |
| `PdfExport.Dashes` | src/components/pdf-exporter.tsx:74 | every ':' and '.' becomes '-', every other character is kept, the length is unchanged |
| `PdfExport.Stamp` | src/components/pdf-exporter.tsx:74 | the stamp is the first 19 characters of the ISO time (fewer if it is shorter), each ':' or '.' replaced by '-' and every other character kept |
| `PdfExport.StampExample` | src/components/pdf-exporter.tsx:74 | 2024-05-01T10:20:30.123Z stamps as 2024-05-01T10-20-30 |
| `PdfExport.FileName` | src/components/pdf-exporter.tsx:75 | the name is the title ("documento" by default), a dash, the stamp and ".pdf" |
| `PdfExport.FileNameDistinguishesTimes` | src/components/pdf-exporter.tsx:74-75 | equal file names for one title mean equal stamps |
| `PdfExport.FileNameExample` | src/components/pdf-exporter.tsx:20 | without a title the file is "documento-<stamp>.pdf"; an empty title is kept |
| `PdfExport.Export` | src/components/pdf-exporter.tsx:24-97 | a press while busy does nothing; no canvas reports and never raises busy; otherwise busy goes up and always comes down, and a render is saved with its pages and name |
| `FieldExplorer.Toggle` | src/components/json-field-explorer.tsx:20-28 | exactly the toggled path flips membership |
| `FieldExplorer.ToggleTwice` | src/components/json-field-explorer.tsx:20-28 | toggling twice restores the set |
| `FieldExplorer.ChildPath` | src/components/json-field-explorer.tsx:72 | under the root the path is the key, below it parent, a dot and the key |
| `FieldExplorer.LastSegment` | src/components/json-field-explorer.tsx:65 | the label is the dot-free tail of the path after its last dot |
| `FieldExplorer.LabelOfChild` | src/components/json-field-explorer.tsx:65-72 | a child's label is its key, when the key has no dot |
| `FieldExplorer.Label` | src/components/json-field-explorer.tsx:65 | a container's label is its last path segment, or "root" when that segment is empty |
| `FieldExplorer.Lower` | src/components/json-field-explorer.tsx:32 | lowercasing keeps length and maps each character |
| `FieldExplorer.AnyTermHidesRoot` | src/components/json-field-explorer.tsx:30-34 | the root path "" is hidden exactly when a search term is typed |
| `FieldExplorer.ShownWhenMatching` | src/components/json-field-explorer.tsx:32 | a path containing the term is never hidden |
| `FieldExplorer.LeafText` | src/components/json-field-explorer.tsx:115-122 | null shows "null", booleans "true"/"false", all leaves `String(v)` |
| `FieldExplorer.Truncate` | src/components/json-field-explorer.tsx:124-127 | up to 15 characters are kept as they are; longer text keeps its first 15 and gains "...", 18 in all |
| `FieldExplorer.TruncateKeepsPrefix` | src/components/json-field-explorer.tsx:124-127 | truncated text is the original or a prefix of it followed by "..." |
| `FieldExplorer.LeafDisplay` | src/components/json-field-explorer.tsx:115-127 | a leaf never shows more than 18 characters |
| `FieldExplorer.DragSource` | src/components/json-field-explorer.tsx:107-110 | a leaf drags its own path and value |
| `FieldExplorer.Render` | src/components/json-field-explorer.tsx:30-79 | a hidden path renders nothing; otherwise the first row is the node itself, a leaf exactly for non-containers, a collapsed container renders one row, every row passes the filter, and every leaf holds a non-container |
| `FieldExplorer.RenderEntries` | src/components/json-field-explorer.tsx:71-74 | the rows of a container's entries all pass the filter and their leaves hold non-containers |
| `FieldExplorer.OnlyLeavesAreDragged` | src/components/json-field-explorer.tsx:106-113 | whatever is expanded or typed, no drag source carries an array or object |
| `FieldExplorer.SearchHidesTree` | src/components/json-field-explorer.tsx:93 | any non-empty search term renders no rows at all |
| `FieldExplorer.ScalarDocument` | src/components/json-field-explorer.tsx:39-48 | a scalar document renders as a single draggable row |
| `Upload.Select` | src/components/upload.tsx:43-54 | the old message is cleared; a name not ending in ".json" fails with the extension message and is not read; any other starts a read in the uploading state |
| `Upload.SelectFirst` | src/components/upload.tsx:85-87 | an empty file list does nothing; a non-empty one handles exactly its first file, so a first .json file starts a read |
| `Upload.Step` | src/components/upload.tsx:23-96 | drag-over sets the flag, drag-leave and drop clear it; a drop or a choice handles exactly the first file, and an empty one does nothing else; a parse hands the value on and goes idle; a bad parse or read error fails with its message; reset goes idle with no message |
| `Upload.OnlyJsonIsRead` | src/components/upload.tsx:48-54 | a read only ever starts for a ".json" name, in the uploading state |
| `Upload.StepKeepsExplained` | src/components/upload.tsx:43-96 | in any order of events, a failure always carries one of the three messages |
| `Upload.StepKeepsConsistent` | src/components/upload.tsx:43-96 | when reads finish only while uploading, a message is shown exactly in the failed state |
| `Upload.RunKeepsConsistent` | src/components/upload.tsx:43-96 | that holds along any orderly run of events |
| `Upload.DropThenParse` | src/components/upload.tsx:33-64 | dropping a ".json" file and parsing it calls the callback with its name and size and returns to the initial state |
| `Upload.WrongExtensionThenReset` | src/components/upload.tsx:48-96 | a wrongly named file fails without a read, and reset returns to the initial state |

## Left out

- Rendering, CSS, React scheduling and DOM listener registration are left out. Gestures are explicit state machines, and an effect runs when one of its dependencies changes.
- html2canvas rasterisation, `toDataURL` and jsPDF's `addPage`/`addImage`/`save` are foreign libraries. Export takes the raster size, or a failure, as a parameter.
- `FileReader`, `setTimeout`, `localStorage`, `prompt`, `confirm`, `alert` and the toasts are left out; their outcomes are parameters. The JSON encoding of stored templates is assumed to round-trip.
- `Date.now()` and `new Date().toISOString()` are parameters. Id freshness is a precondition (`Editor.Allowed`), because the clock gives no such guarantee.
- Floating point is not modelled: coordinates, sizes and zoom are exact reals. The 0.1 zoom steps therefore do not drift as they do in binary floating point. The zoom percentage is display only.
- `String(n)` for numbers is carried as the number's text. `JSON.stringify` of nested values is a function parameter (`serialize`).
- `toLowerCase` covers ASCII letters only. `parseInt` skips ASCII whitespace only. Unicode case mapping and Unicode spaces are left out.
- The `length` property and prototype members reached through `row[key]` are left out, and so is the 2^32 limit on array indices.
- `Document.Merge` ignores `content` on a non-text element and `columns` on a non-table. The code's spread would add the field, but no caller sends it.
- `TableElement.Initial`: the two prop-sync effects (src/components/elements/TableElement.tsx:41-58) that copy a changed `x`/`y`/`width`/`height` back into local state are not modelled. The text element has no such effect.
- `PdfExport.Export` requires a raster of positive width. A zero-width raster makes the image height infinite or NaN, and that path is not modelled.
- `Upload.Step` treats the `onFileUploaded` callback as not throwing. In the code, a throw inside it would be reported as invalid JSON.
- `Upload.StepKeepsConsistent` holds only for orderly runs. A stale timer that finishes after a newer selection can leave the uploader idle with a message; the message is not shown while idle.
- `Editor.LoadTemplate`: nothing in src/components/editor.tsx calls `loadTemplate` (defined at line 88) and no control lists the templates, so in the program as written a saved template is never loaded. `Editor.SaveThenLoad` and `Editor.SaveRestoreLoad` describe the handler as if a control called it.
- `Editor.SaveThenLoad` is about the editor's element list only. A text element that stays mounted across a load keeps its local `content`. Its effect (src/components/elements/TextElement.tsx:31-35) would then commit the edited text again over the loaded one. The model does not compose the element components with a load.
- `Editor.SaveTemplate` also accepts an empty element list. In the page the save button is disabled while there are no elements (src/components/editor.tsx:153), so that case never arises there.
- Strings are sequences of Unicode scalar values, while JavaScript's `length` and indexing count UTF-16 code units. For text outside the Basic Multilingual Plane (emoji, for example), `FieldExplorer.Truncate` keeps more than the page does, and `Json.Property` on a string row picks a whole character where the page picks half of a surrogate pair.
- `JObject` admits repeated keys, which `JSON.parse` never produces. On such an object `Json.MemberValue` returns the first value, where a parsed object would keep the last.
- The Image variant is in the data model, but no operation creates one and the canvas renders nothing for it.
- `src/components/json-preview-panel.tsx`, `src/app/page.tsx` and `src/app/layout.tsx` are not part of this model; they are layout and display only.

## Findings

| source | as written | input that shows it | evidently intended | confidence | as-written member | corrected member |
|---|---|---|---|---|---|---|
| src/components/elements/TableElement.tsx:101-120 | the mouse-up listener reads `position` from the closure made when the effect last ran; `position` is not among its dependencies | a selected table at (0, 0), pressed at (10, 10), moved to (60, 60), released: shown at (50, 50), commits {x: 0, y: 0} | commit the position shown at release | not executed; assumes the parent does not re-render during the drag | `TableElement.DragGestureAsWritten` | `TableElement.DragGesture` |
| src/components/elements/TableElement.tsx:105-120 | the mouse-up listener reads `size` from the same stale closure | a 400x200 table resized from (0, 0) to (50, 50): shown 450x250, commits {width: 400, height: 200} | commit the size shown at release | not executed; assumes the parent does not re-render during the resize | `TableElement.ResizeGestureAsWritten` | `TableElement.ResizeGesture` |
| src/components/elements/TextElement.tsx:59-73 | the mouse-up listener reads `position` from a closure re-created only when `isDragging`, `dragStart` or `onUpdate` change | a selected text at (0, 0), pressed at (10, 10), moved to (60, 60), released: commits {x: 0, y: 0} | commit the position shown at release | not executed; assumes the parent does not re-render during the drag | `TextElement.DragGestureAsWritten` | `TextElement.DragGesture` |
| src/components/editor.tsx:205 | the canvas ref is passed as `ref` to `EditorCanvas`, a function component that neither forwards nor uses it, so `canvasRef.current` stays null | any press of the export button, with any elements on the canvas: the "no content" error, no PDF | the ref reaches the canvas node and the PDF is saved | not executed | `Editor.ExportAsWritten` | `Editor.Export` |
