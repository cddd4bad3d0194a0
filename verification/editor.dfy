/**
 * The editor page (src/components/editor.tsx): the state it owns and the
 * handlers that change it, wired to the canvas, the element components and
 * the properties panel. Browser dialogs and storage enter as parameters:
 * the answer typed at the template-name prompt, the outcome of a confirm,
 * whether writing to local storage succeeded, the result of JSON.parse.
 */
module Editor {
  import opened Wrappers
  import opened Json
  import opened Document
  import opened Collection
  import Canvas
  import PropertiesPanel
  import PdfExport

  /**
   * Everything the editor keeps: the loaded JSON, the elements and the
   * selected id, the canvas zoom, the document name, the in-memory template
   * list and the list last written to local storage.
   */
  datatype State = State(
    json: Option<JsonValue>,
    scene: Canvas.Scene,
    scale: real,
    documentName: string,
    templates: seq<Template>,
    stored: seq<Template>)

  const InitialName: string := "Documento sin título"

  function Init(): (s: State)
    ensures s.scene.elements == [] && s.scene.selected.None? && s.scale == 1.0
  {
    State(None, Canvas.Scene([], None), 1.0, InitialName, [], [])
  }

  /** The ids are unique in the document and in every template; the zoom is in range. */
  predicate Valid(s: State) {
    && UniqueIds(s.scene.elements)
    && (forall i :: 0 <= i < |s.templates| ==> UniqueIds(s.templates[i].elements))
    && Canvas.ScaleInRange(s.scale)
  }

  /** `elements.find(el => el.id === selectedElementId) || null`. */
  function SelectedElement(s: State): (r: Option<Element>)
    ensures r.Some? ==> s.scene.selected == Some(r.value.id) && r.value in s.scene.elements
    ensures r.None? <==> s.scene.selected.None? || !HasId(s.scene.elements, s.scene.selected.value)
    ensures r.Some? ==> exists i :: 0 <= i < |s.scene.elements| && s.scene.elements[i] == r.value &&
                          forall j :: 0 <= j < i ==> s.scene.elements[j].id != r.value.id
  {
    if s.scene.selected.None? then None else FindById(s.scene.elements, s.scene.selected.value)
  }

  /**
   * `handleElementUpdate(updates)`: merge into every element with the
   * selected id; nothing when no id is selected (`null` or the empty string).
   */
  function UpdateSelected(s: State, p: Patch): (r: State)
    ensures s.scene.selected.None? || s.scene.selected == Some("") ==> r == s
    ensures r == s.(scene := r.scene) && r.scene.selected == s.scene.selected
    ensures |r.scene.elements| == |s.scene.elements|
    ensures s.scene.selected.Some? && s.scene.selected.value != "" ==>
              forall i :: 0 <= i < |s.scene.elements| ==>
                r.scene.elements[i] == (if s.scene.elements[i].id == s.scene.selected.value
                                        then Merge(s.scene.elements[i], p) else s.scene.elements[i])
  {
    if s.scene.selected.None? || s.scene.selected.value == "" then s
    else s.(scene := s.scene.(elements := UpdateById(s.scene.elements, s.scene.selected.value, p)))
  }

  /** A panel edit: the panel's patch for the selected element, applied to it. */
  function PanelEdit(s: State, c: PropertiesPanel.Control): (r: State)
    requires var e := SelectedElement(s);
             e.Some? && e.value.kind.Table? && PropertiesPanel.ColumnControl(c) ==> c.index < |e.value.kind.columns|
    ensures SelectedElement(s).None? ==> r == s
  {
    match PropertiesPanel.Handle(SelectedElement(s), c)
    case None => s
    case Some(p) => UpdateSelected(s, p)
  }

  /** A panel edit changes only the selected element, and it stays selected and findable. */
  lemma PanelEditTargetsSelection(s: State, c: PropertiesPanel.Control)
    requires SelectedElement(s).Some?
    requires var e := SelectedElement(s).value;
             e.kind.Table? && PropertiesPanel.ColumnControl(c) ==> c.index < |e.kind.columns|
    ensures var r := PanelEdit(s, c);
            r.scene.selected == s.scene.selected && |r.scene.elements| == |s.scene.elements| &&
            (forall i :: 0 <= i < |s.scene.elements| && s.scene.elements[i].id != s.scene.selected.value ==>
               r.scene.elements[i] == s.scene.elements[i]) &&
            SelectedElement(r).Some?
  {
    var r := PanelEdit(s, c);
    var e := SelectedElement(s).value;
    var i :| 0 <= i < |s.scene.elements| && s.scene.elements[i] == e;
    if s.scene.selected.value == "" {
      assert r == s;
    } else {
      assert r.scene.elements[i].id == e.id;
    }
  }

  // ---------------------------------------------------------------------
  // Templates

  /**
   * `saveTemplate`: a cancelled or empty name changes nothing; otherwise
   * `{name, elements}` is appended to the list, duplicates allowed, and the
   * same list is written to local storage when writing succeeds.
   */
  function SaveTemplate(s: State, answer: Option<string>, written: bool): (r: State)
    ensures answer.None? || answer == Some("") ==> r == s
    ensures answer.Some? && answer.value != "" ==>
              r == s.(templates := r.templates, stored := r.stored) &&
              r.templates == s.templates + [Template(answer.value, s.scene.elements)] &&
              r.stored == (if written then r.templates else s.stored)
  {
    if answer.None? || answer.value == "" then s
    else
      var t := Template(answer.value, s.scene.elements);
      s.(templates := s.templates + [t], stored := if written then s.templates + [t] else s.stored)
  }

  /**
   * `loadTemplate(index)`: an index with no template changes nothing; when
   * the user confirms, the template's elements and name replace the
   * current ones. The selected id is left as it was.
   */
  function LoadTemplate(s: State, index: int, confirmed: bool): (r: State)
    ensures !(0 <= index < |s.templates|) || !confirmed ==> r == s
    ensures 0 <= index < |s.templates| && confirmed ==>
              r == s.(scene := s.scene.(elements := s.templates[index].elements), documentName := s.templates[index].name)
  {
    if 0 <= index < |s.templates| && confirmed then
      s.(scene := s.scene.(elements := s.templates[index].elements), documentName := s.templates[index].name)
    else s
  }

  /** Saving under a name and loading the new entry restores the saved elements and names the document. */
  lemma SaveThenLoad(s: State, name: string, written: bool, edits: seq<Element>)
    requires name != ""
    ensures var saved := SaveTemplate(s, Some(name), written);
            var loaded := LoadTemplate(saved.(scene := saved.scene.(elements := edits)), |s.templates|, true);
            loaded.scene.elements == s.scene.elements && loaded.documentName == name
  {
  }

  /** The startup effect: a list read back from storage replaces the in-memory one. */
  function RestoreTemplates(s: State, saved: Option<seq<Template>>): (r: State)
    ensures saved.None? ==> r == s
    ensures saved.Some? ==> r == s.(templates := saved.value)
  {
    if saved.Some? then s.(templates := saved.value) else s
  }

  /** When storage writes succeed, what is stored is always what is in memory. */
  lemma StoredMirrorsMemory(s: State, answer: Option<string>)
    requires s.stored == s.templates
    ensures SaveTemplate(s, answer, true).stored == SaveTemplate(s, answer, true).templates
  {
  }

  /** A saved template restored from storage at the next start loads back the same elements. */
  lemma SaveRestoreLoad(s: State, name: string, next: State)
    requires name != "" && s.stored == s.templates
    ensures var saved := SaveTemplate(s, Some(name), true);
            var restored := RestoreTemplates(next, Some(saved.stored));
            LoadTemplate(restored, |s.templates|, true).scene.elements == s.scene.elements
  {
  }

  // ---------------------------------------------------------------------
  // Clear and JSON load

  /** `clearEditor`: empties elements and selection if there was nothing to lose or the user confirms. */
  function Clear(s: State, confirmed: bool): (r: State)
    ensures |s.scene.elements| == 0 || confirmed ==> r == s.(scene := Canvas.Scene([], None))
    ensures |s.scene.elements| > 0 && !confirmed ==> r == s
  {
    if |s.scene.elements| == 0 || confirmed then s.(scene := Canvas.Scene([], None)) else s
  }

  /** A JSON file read: a parsed value replaces the data and resets the document; a parse failure changes nothing. */
  function LoadJson(s: State, parsed: Option<JsonValue>): (r: State)
    ensures parsed.None? ==> r == s
    ensures parsed.Some? ==> r == s.(json := parsed, scene := Canvas.Scene([], None))
  {
    if parsed.Some? then s.(json := parsed, scene := Canvas.Scene([], None)) else s
  }

  /** The field explorer replaces the load prompt only while the loaded value is truthy. */
  predicate ShowsExplorer(s: State) {
    s.json.Some? && Truthy(s.json.value)
  }

  /** Loading a file whose JSON is null, false, 0 or "" keeps the load prompt on screen. */
  lemma LoadedValueShown(s: State, v: JsonValue)
    ensures ShowsExplorer(LoadJson(s, Some(v))) <==> Truthy(v)
    ensures ShowsExplorer(LoadJson(s, Some(JArray([]))))
    ensures !ShowsExplorer(LoadJson(s, Some(JNumber("0"))))
  {
  }

  // ---------------------------------------------------------------------
  // Canvas callbacks

  function ZoomOut(s: State): State {
    s.(scale := Canvas.ZoomOut(s.scale))
  }

  function ZoomIn(s: State): State {
    s.(scale := Canvas.ZoomIn(s.scale))
  }

  function Drop(s: State, fieldPath: string, value: JsonValue, rect: Option<Canvas.Rect>, pointer: Option<Canvas.Point>,
                now: nat): State
    requires s.scale > 0.0
  {
    s.(scene := Canvas.Drop(s.scene, fieldPath, value, rect, pointer, s.scale, now))
  }

  function Select(s: State, e: Element): State {
    s.(scene := s.scene.(selected := Canvas.SelectionOf(Some(e))))
  }

  function UpdateElement(s: State, id: string, p: Patch): State {
    s.(scene := Canvas.UpdateElement(s.scene, id, p))
  }

  function DeleteElement(s: State, id: string): State {
    s.(scene := Canvas.DeleteElement(s.scene, id))
  }

  /** Deleting the selected element leaves nothing selected, and so does deleting any other. */
  lemma DeleteClearsSelection(s: State, id: string)
    ensures DeleteElement(s, id).scene.selected.None?
    ensures !HasId(DeleteElement(s, id).scene.elements, id)
  {
  }

  // ---------------------------------------------------------------------
  // PDF export

  /**
   * The export button as the editor wires it. The editor hands its canvas
   * ref to `EditorCanvas` as `ref`, but that component is a plain function
   * component that neither forwards nor reads it: the ref never reaches a
   * DOM node, so the exporter always finds no canvas.
   */
  method ExportAsWritten(s: State, rendered: Option<PdfExport.Raster>, iso: string)
    returns (outcome: PdfExport.Outcome, busy: seq<bool>)
    requires rendered.Some? ==> rendered.value.width > 0
    ensures outcome.NoContent? && busy == []
  {
    outcome, busy := PdfExport.Export(false, false, rendered, Some(s.documentName), iso);
  }

  /**
   * The export with the ref attached to the canvas node: the rasterised
   * canvas is saved under the document's name, and the busy flag is raised
   * and lowered once.
   */
  method Export(s: State, rendered: Option<PdfExport.Raster>, iso: string)
    returns (outcome: PdfExport.Outcome, busy: seq<bool>)
    requires rendered.Some? ==> rendered.value.width > 0
    ensures busy == [true, false]
    ensures rendered.None? ==> outcome.Failed?
    ensures rendered.Some? ==>
              outcome.Saved? && outcome.fileName == PdfExport.FileName(Some(s.documentName), iso) &&
              |outcome.offsets| == PdfExport.PageCount(PdfExport.ImageHeight(rendered.value))
  {
    outcome, busy := PdfExport.Export(false, true, rendered, Some(s.documentName), iso);
  }

  /** The editor's operations, as one event type. */
  datatype Op =
    | OpDrop(fieldPath: string, value: JsonValue, rect: Option<Canvas.Rect>, pointer: Option<Canvas.Point>, now: nat)
    | OpSelect(e: Element)
    | OpUpdate(id: string, p: Patch)
    | OpDelete(id: string)
    | OpPanel(p: Patch)
    | OpZoomIn
    | OpZoomOut
    | OpSave(answer: Option<string>, written: bool)
    | OpLoad(index: int, confirmed: bool)
    | OpClear(confirmed: bool)
    | OpLoadJson(parsed: Option<JsonValue>)

  /** An operation may run: the zoom is positive, and a drop's clock reading is not an id already present. */
  predicate Allowed(s: State, op: Op) {
    s.scale > 0.0 && (op.OpDrop? ==> !HasId(s.scene.elements, Canvas.ElementId(op.now)))
  }

  function Apply(s: State, op: Op): State
    requires Allowed(s, op)
  {
    match op
    case OpDrop(path, v, rect, pointer, now) => Drop(s, path, v, rect, pointer, now)
    case OpSelect(e) => Select(s, e)
    case OpUpdate(id, p) => UpdateElement(s, id, p)
    case OpDelete(id) => DeleteElement(s, id)
    case OpPanel(p) => UpdateSelected(s, p)
    case OpZoomIn => ZoomIn(s)
    case OpZoomOut => ZoomOut(s)
    case OpSave(answer, written) => SaveTemplate(s, answer, written)
    case OpLoad(index, confirmed) => LoadTemplate(s, index, confirmed)
    case OpClear(confirmed) => Clear(s, confirmed)
    case OpLoadJson(parsed) => LoadJson(s, parsed)
  }

  /**
   * Every operation keeps ids unique, in the document and in every
   * template, and keeps the zoom in range, provided each drop reads a clock
   * value no present id was made from.
   */
  lemma ApplyKeepsValid(s: State, op: Op)
    requires Valid(s) && Allowed(s, op)
    ensures Valid(Apply(s, op))
  {
    match op
    case OpDrop(path, v, rect, pointer, now) =>
      Canvas.DropKeepsUnique(s.scene, path, v, rect, pointer, s.scale, now);
    case OpUpdate(id, p) =>
      UpdateKeepsIds(s.scene.elements, id, p);
    case OpPanel(p) =>
      if s.scene.selected.Some? {
        UpdateKeepsIds(s.scene.elements, s.scene.selected.value, p);
      }
    case OpDelete(id) =>
      RemoveKeepsUnique(s.scene.elements, id);
    case OpZoomIn =>
      Canvas.ZoomStaysInRange(s.scale);
    case OpZoomOut =>
      Canvas.ZoomStaysInRange(s.scale);
    case OpSave(answer, written) =>
      var r := SaveTemplate(s, answer, written);
      assert forall i :: 0 <= i < |r.templates| ==> UniqueIds(r.templates[i].elements) by {
        forall i | 0 <= i < |r.templates|
          ensures UniqueIds(r.templates[i].elements)
        {
          if i < |s.templates| {
            assert r.templates[i] == s.templates[i];
          }
        }
      }
    case _ =>
  }

  /** A run of operations, each allowed in the state it meets. */
  predicate AllowedRun(s: State, ops: seq<Op>)
    decreases |ops|
  {
    |ops| == 0 || (Allowed(s, ops[0]) && AllowedRun(Apply(s, ops[0]), ops[1..]))
  }

  function Run(s: State, ops: seq<Op>): State
    requires AllowedRun(s, ops)
    decreases |ops|
  {
    if |ops| == 0 then s else Run(Apply(s, ops[0]), ops[1..])
  }

  /** From the initial state, any allowed run ends with unique ids everywhere. */
  lemma {:induction false} RunKeepsValid(s: State, ops: seq<Op>)
    requires Valid(s) && AllowedRun(s, ops)
    ensures Valid(Run(s, ops))
    decreases |ops|
  {
    if |ops| > 0 {
      ApplyKeepsValid(s, ops[0]);
      RunKeepsValid(Apply(s, ops[0]), ops[1..]);
    }
  }

  lemma InitValid()
    ensures Valid(Init())
  {
  }
}
