/**
 * The table element component (src/components/elements/TableElement.tsx):
 * the local move / resize gesture machine, the initial local size, and the
 * five-row preview with its cell-text rule.
 */
module TableElement {
  import opened Wrappers
  import opened Json
  import opened Document
  import Canvas

  type Point = Canvas.Point

  datatype Size = Size(width: real, height: real)

  /** Pointer and size captured when a resize starts. */
  datatype ResizeStart = ResizeStart(x: real, y: real, width: real, height: real)

  /**
   * The component's local state: the position and size it draws, the grab
   * offset of a drag (`dragStart`), the two gesture flags and the resize origin.
   */
  datatype State = State(pos: Point, size: Size, anchor: Point, dragging: bool, resizing: bool, start: ResizeStart)

  datatype Event =
    | MouseDown(pointer: Point, selected: bool)  // on the header bar
    | ResizeDown(pointer: Point)                 // on the corner handle, shown only when selected
    | MouseMove(pointer: Point)
    | MouseUp
    | Click                                      // anywhere on the table

  /** What a step asks of the surrounding editor. */
  datatype Effect = NoEffect | Select | Commit(patch: Patch)

  const DefaultWidth: real := 400.0
  const DefaultHeight: real := 200.0
  const MinWidth: real := 100.0
  const MinHeight: real := 50.0

  function Max(a: real, b: real): real {
    if a >= b then a else b
  }

  function PositionPatch(p: Point): Patch {
    Patch(Some(p.x), Some(p.y), None, None, None, None, None)
  }

  function SizePatch(s: Size): Patch {
    Patch(None, None, Some(s.width), Some(s.height), None, None, None)
  }

  /** The local state a freshly mounted table starts in: idle, size defaulting to 400x200. */
  function Initial(e: Element): (s: State)
    ensures s.pos == Canvas.Point(e.x, e.y) && !s.dragging && !s.resizing
    ensures e.width.None? ==> s.size.width == DefaultWidth
    ensures e.height.None? ==> s.size.height == DefaultHeight
    ensures e.width.Some? && e.width.value != 0.0 ==> s.size.width == e.width.value
    ensures e.height.Some? && e.height.value != 0.0 ==> s.size.height == e.height.value
    ensures e.width == Some(0.0) ==> s.size.width == DefaultWidth
    ensures e.height == Some(0.0) ==> s.size.height == DefaultHeight
  {
    State(Canvas.Point(e.x, e.y), Size(NumberOr(e.width, DefaultWidth), NumberOr(e.height, DefaultHeight)),
          Canvas.Point(0.0, 0.0), false, false, ResizeStart(0.0, 0.0, 0.0, 0.0))
  }

  /**
   * One event, with mouse-up committing what the table currently shows.
   * A press on an unselected table only selects it; a press on a selected
   * one starts a drag; moves follow the drag, or else the resize; mouse-up
   * ends whichever gesture is active and commits its result.
   */
  function Step(s: State, ev: Event): (r: (State, Effect))
    ensures ev.MouseDown? && !ev.selected ==> r == (s, Select)
    ensures ev.Click? ==> r == (s, Select)
    ensures ev.MouseDown? && ev.selected ==>
              r.0.dragging && r.0.anchor == Canvas.Point(ev.pointer.x - s.pos.x, ev.pointer.y - s.pos.y) && r.1 == NoEffect
    ensures ev.MouseMove? && s.dragging ==>
              r.0.pos == Canvas.Point(ev.pointer.x - s.anchor.x, ev.pointer.y - s.anchor.y) && r.0.size == s.size
    ensures ev.MouseMove? && s.resizing && !s.dragging ==>
              r.0.pos == s.pos && r.0.size.width >= MinWidth && r.0.size.height >= MinHeight
    ensures ev.MouseMove? ==> r.1 == NoEffect && r.0.dragging == s.dragging && r.0.resizing == s.resizing
    ensures ev.MouseUp? && s.dragging ==> !r.0.dragging && r.1 == Commit(PositionPatch(s.pos))
    ensures ev.MouseUp? && !s.dragging && s.resizing ==> !r.0.resizing && r.1 == Commit(SizePatch(s.size))
    ensures ev.MouseUp? && !s.dragging && !s.resizing ==> r == (s, NoEffect)
    ensures r.1.Commit? ==> ev.MouseUp?
  {
    match ev
    case MouseDown(p, selected) =>
      if !selected then (s, Select)
      else (s.(dragging := true, anchor := Canvas.Point(p.x - s.pos.x, p.y - s.pos.y)), NoEffect)
    case ResizeDown(p) =>
      (s.(resizing := true, start := ResizeStart(p.x, p.y, s.size.width, s.size.height)), NoEffect)
    case MouseMove(p) =>
      if s.dragging then (s.(pos := Canvas.Point(p.x - s.anchor.x, p.y - s.anchor.y)), NoEffect)
      else if s.resizing then
        (s.(size := Size(Max(MinWidth, s.start.width + (p.x - s.start.x)),
                         Max(MinHeight, s.start.height + (p.y - s.start.y)))), NoEffect)
      else (s, NoEffect)
    case MouseUp =>
      if s.dragging then (s.(dragging := false), Commit(PositionPatch(s.pos)))
      else if s.resizing then (s.(resizing := false), Commit(SizePatch(s.size)))
      else (s, NoEffect)
    case Click => (s, Select)
  }

  /** A run of pointer moves. */
  function Moves(s: State, ps: seq<Point>): State
    decreases |ps|
  {
    if |ps| == 0 then s else Moves(Step(s, MouseMove(ps[0])).0, ps[1..])
  }

  /** During a drag, every move keeps the grab point: the table sits at pointer minus anchor. */
  lemma {:induction false} DragFollowsPointer(s: State, ps: seq<Point>)
    requires s.dragging && |ps| > 0
    ensures var r := Moves(s, ps);
            r.dragging && r.anchor == s.anchor && r.size == s.size &&
            r.pos == Canvas.Point(ps[|ps| - 1].x - s.anchor.x, ps[|ps| - 1].y - s.anchor.y)
    decreases |ps|
  {
    if |ps| > 1 {
      DragFollowsPointer(Step(s, MouseMove(ps[0])).0, ps[1..]);
    }
  }

  /** A run of moves never changes the gesture flags or the drag anchor and never shrinks a resize below the floor. */
  lemma {:induction false} MovesKeepGesture(s: State, ps: seq<Point>)
    ensures var r := Moves(s, ps);
            r.dragging == s.dragging && r.resizing == s.resizing && r.anchor == s.anchor && r.start == s.start
    ensures s.resizing && !s.dragging && |ps| > 0 ==>
              Moves(s, ps).size.width >= MinWidth && Moves(s, ps).size.height >= MinHeight
    ensures s.dragging ==> Moves(s, ps).size == s.size
    decreases |ps|
  {
    if |ps| > 0 {
      MovesKeepGesture(Step(s, MouseMove(ps[0])).0, ps[1..]);
    }
  }

  /**
   * A whole drag of a selected, idle table: press at `p0`, move through
   * `ps`, release. Exactly the position {x, y} is committed, and it is
   * where the grab point puts it: start position plus pointer travel.
   */
  lemma DragGesture(s: State, p0: Point, ps: seq<Point>)
    requires !s.dragging && !s.resizing && |ps| > 0
    ensures var down := Step(s, MouseDown(p0, true)).0;
            var up := Step(Moves(down, ps), MouseUp);
            var last := ps[|ps| - 1];
            !up.0.dragging && !up.0.resizing && up.0.size == s.size &&
            up.1 == Commit(PositionPatch(Canvas.Point(s.pos.x + (last.x - p0.x), s.pos.y + (last.y - p0.y))))
  {
    var down := Step(s, MouseDown(p0, true)).0;
    DragFollowsPointer(down, ps);
    MovesKeepGesture(down, ps);
  }

  /** During a resize, the size follows the pointer's travel from the press, clamped to the floor. */
  lemma {:induction false} ResizeFollowsPointer(s: State, ps: seq<Point>)
    requires s.resizing && !s.dragging && |ps| > 0
    ensures var r := Moves(s, ps);
            var last := ps[|ps| - 1];
            r.resizing && !r.dragging && r.pos == s.pos && r.start == s.start &&
            r.size == Size(Max(MinWidth, s.start.width + (last.x - s.start.x)),
                           Max(MinHeight, s.start.height + (last.y - s.start.y)))
    decreases |ps|
  {
    if |ps| > 1 {
      ResizeFollowsPointer(Step(s, MouseMove(ps[0])).0, ps[1..]);
    }
  }

  /**
   * A whole resize: press on the handle at `p0`, move through `ps`,
   * release. Exactly {width, height} is committed: the size at the press
   * plus the pointer's travel, never below 100x50.
   */
  lemma ResizeGesture(s: State, p0: Point, ps: seq<Point>)
    requires !s.dragging && !s.resizing && |ps| > 0
    ensures var down := Step(s, ResizeDown(p0)).0;
            var up := Step(Moves(down, ps), MouseUp);
            var last := ps[|ps| - 1];
            !up.0.dragging && !up.0.resizing && up.0.pos == s.pos &&
            up.1 == Commit(SizePatch(Size(Max(MinWidth, s.size.width + (last.x - p0.x)),
                                          Max(MinHeight, s.size.height + (last.y - p0.y)))))
  {
    ResizeFollowsPointer(Step(s, ResizeDown(p0)).0, ps);
  }

  // ---------------------------------------------------------------------
  // The machine as written: the listeners see a stale position and size.

  /**
   * The document listeners are closures created when the effect last ran,
   * which is when `isDragging`, `isResizing`, `dragStart` or `resizeStart`
   * last changed (the parent does not re-render during a gesture, so
   * `onUpdate` keeps its identity). `seenPos` and `seenSize` are the
   * position and size those closures captured.
   */
  datatype Listeners = Listeners(s: State, seenPos: Point, seenSize: Size)

  predicate DepsChanged(a: State, b: State) {
    a.dragging != b.dragging || a.resizing != b.resizing || a.anchor != b.anchor || a.start != b.start
  }

  function Mount(e: Element): (l: Listeners)
    ensures l.s == Initial(e) && l.seenPos == l.s.pos && l.seenSize == l.s.size
  {
    var s := Initial(e);
    Listeners(s, s.pos, s.size)
  }

  /** One event as the component actually handles it: mouse-up commits the captured values. */
  function StepAsWritten(l: Listeners, ev: Event): (r: (Listeners, Effect))
    ensures r.0.s == Step(l.s, ev).0
    ensures ev.MouseUp? && l.s.dragging ==> r.1 == Commit(PositionPatch(l.seenPos))
    ensures ev.MouseUp? && !l.s.dragging && l.s.resizing ==> r.1 == Commit(SizePatch(l.seenSize))
    ensures !ev.MouseUp? ==> r.1 == Step(l.s, ev).1
  {
    var (s', eff) := Step(l.s, ev);
    var eff' :=
      if ev.MouseUp? && l.s.dragging then Commit(PositionPatch(l.seenPos))
      else if ev.MouseUp? && l.s.resizing then Commit(SizePatch(l.seenSize))
      else eff;
    if DepsChanged(l.s, s') then (Listeners(s', s'.pos, s'.size), eff') else (Listeners(s', l.seenPos, l.seenSize), eff')
  }

  function MovesAsWritten(l: Listeners, ps: seq<Point>): Listeners
    decreases |ps|
  {
    if |ps| == 0 then l else MovesAsWritten(StepAsWritten(l, MouseMove(ps[0])).0, ps[1..])
  }

  /** Moves never re-subscribe the listeners, so what they captured stays as it was. */
  lemma {:induction false} MovesKeepCapture(l: Listeners, ps: seq<Point>)
    ensures MovesAsWritten(l, ps).seenPos == l.seenPos && MovesAsWritten(l, ps).seenSize == l.seenSize
    ensures MovesAsWritten(l, ps).s == Moves(l.s, ps)
    decreases |ps|
  {
    if |ps| > 0 {
      MovesKeepCapture(StepAsWritten(l, MouseMove(ps[0])).0, ps[1..]);
    }
  }

  /**
   * As written, a whole drag commits the position the table had when the
   * drag started, whatever the pointer did in between.
   */
  lemma DragGestureAsWritten(l: Listeners, p0: Point, ps: seq<Point>)
    requires !l.s.dragging && !l.s.resizing
    ensures var down := StepAsWritten(l, MouseDown(p0, true)).0;
            StepAsWritten(MovesAsWritten(down, ps), MouseUp).1 == Commit(PositionPatch(l.s.pos))
  {
    var down := StepAsWritten(l, MouseDown(p0, true)).0;
    MovesKeepCapture(down, ps);
    MovesKeepGesture(down.s, ps);
  }

  /** As written, a whole resize commits the size the table had when the resize started. */
  lemma ResizeGestureAsWritten(l: Listeners, p0: Point, ps: seq<Point>)
    requires !l.s.dragging && !l.s.resizing
    ensures var down := StepAsWritten(l, ResizeDown(p0)).0;
            StepAsWritten(MovesAsWritten(down, ps), MouseUp).1 == Commit(SizePatch(l.s.size))
  {
    var down := StepAsWritten(l, ResizeDown(p0)).0;
    MovesKeepCapture(down, ps);
    MovesKeepGesture(down.s, ps);
  }

  /**
   * A concrete drag: the table at (0, 0) is grabbed at (10, 10) and released
   * after moving to (60, 60). It is shown at (50, 50), the intended commit
   * is (50, 50), and the component as written commits (0, 0).
   */
  lemma StaleDragCommitExample()
    ensures var e := Element("element-1", 0.0, 0.0, None, None, map[], Table([], [], "rows"));
            var l := Mount(e);
            var down := StepAsWritten(l, MouseDown(Canvas.Point(10.0, 10.0), true)).0;
            var moved := StepAsWritten(down, MouseMove(Canvas.Point(60.0, 60.0))).0;
            moved.s.pos == Canvas.Point(50.0, 50.0) &&
            Step(moved.s, MouseUp).1 == Commit(PositionPatch(Canvas.Point(50.0, 50.0))) &&
            StepAsWritten(moved, MouseUp).1 == Commit(PositionPatch(Canvas.Point(0.0, 0.0)))
  {
  }

  // ---------------------------------------------------------------------
  // Preview

  const PreviewRows: nat := 5

  function Min(a: nat, b: nat): nat {
    if a <= b then a else b
  }

  /**
   * The text of one cell, `row[field]`: undefined is shown as "", a value
   * of type "object" through `JSON.stringify` (`serialize`; null prints as
   * "null"), anything else through `String`. A null row throws.
   */
  function CellText(row: JsonValue, field: string, serialize: JsonValue -> string): (r: Result<string, TypeError>)
    ensures r.Failure? <==> row.JNull?
    ensures r.Success? && Property(row, field).value.None? ==> r.value == ""
    ensures r.Success? && Property(row, field).value.Some? && IsScalar(Property(row, field).value.value) ==>
              r.value == ToText(Property(row, field).value.value)
    ensures r.Success? && Property(row, field).value == Some(JNull) ==> r.value == "null"
    ensures r.Success? && Property(row, field).value.Some? && IsContainer(Property(row, field).value.value) ==>
              r.value == serialize(Property(row, field).value.value)
  {
    match Property(row, field)
    case Failure(e) => Failure(e)
    case Success(None) => Success("")
    case Success(Some(v)) =>
      Success(if v.JNull? then "null" else if IsContainer(v) then serialize(v) else ToText(v))
  }

  /**
   * Under the single "0"/"Value" column an array of numbers shows empty
   * cells, and an array of strings shows each string's first character.
   */
  lemma ScalarRowsUnderValueColumn(serialize: JsonValue -> string)
    ensures CellText(JNumber("10"), "0", serialize) == Success("")
    ensures CellText(JBool(true), "0", serialize) == Success("")
    ensures CellText(JString("abc"), "0", serialize) == Success("a")
  {
    Decimal.ParseIndexOfDecimal(0);
  }

  datatype Preview = Preview(headers: seq<string>, rows: seq<seq<string>>, moreRows: Option<nat>)

  /**
   * The rendered body: the headers, the cells of the first five rows, and
   * a footer counting the rows left out. Rendering throws if a shown row is
   * null and there is at least one column.
   */
  function TablePreview(data: seq<JsonValue>, columns: seq<Column>, serialize: JsonValue -> string)
    : (r: Result<Preview, TypeError>)
    ensures r.Failure? <==> |columns| > 0 && exists i :: 0 <= i < Min(PreviewRows, |data|) && data[i].JNull?
    ensures r.Success? ==>
              |r.value.headers| == |columns| &&
              (forall j :: 0 <= j < |columns| ==> r.value.headers[j] == columns[j].header) &&
              |r.value.rows| == Min(PreviewRows, |data|) &&
              (forall i :: 0 <= i < |r.value.rows| ==> |r.value.rows[i]| == |columns|) &&
              (forall i, j :: 0 <= i < |r.value.rows| && 0 <= j < |columns| ==>
                 CellText(data[i], columns[j].field, serialize) == Success(r.value.rows[i][j]))
    ensures r.Success? ==> (r.value.moreRows.Some? <==> |data| > PreviewRows)
    ensures r.Success? && r.value.moreRows.Some? ==> r.value.moreRows.value + PreviewRows == |data|
  {
    var n := Min(PreviewRows, |data|);
    if |columns| > 0 && exists i :: 0 <= i < n && data[i].JNull? then Failure(TypeError)
    else
      var headers := seq(|columns|, j requires 0 <= j < |columns| => columns[j].header);
      var rows := seq(n, i requires 0 <= i < n =>
                        seq(|columns|, j requires 0 <= j < |columns| => CellText(data[i], columns[j].field, serialize).value));
      Success(Preview(headers, rows, if |data| > PreviewRows then Some(|data| - PreviewRows) else None))
  }
}
