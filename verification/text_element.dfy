/**
 * The text element component (src/components/elements/TextElement.tsx):
 * a drag machine gated on selection, in-place editing entered by double
 * click, and the rule that commits edited content.
 */
module TextElement {
  import opened Wrappers
  import opened Document
  import Canvas

  type Point = Canvas.Point

  /** Local state: editing flag, edited content, drawn position, grab offset and drag flag. */
  datatype State = State(editing: bool, content: string, pos: Point, anchor: Point, dragging: bool)

  datatype Event =
    | MouseDown(pointer: Point, selected: bool)
    | MouseMove(pointer: Point)
    | MouseUp
    | Click
    | DoubleClick
    | Input(text: string)
    | Blur
    | KeyDown(key: string, shift: bool)

  datatype Effect = NoEffect | Select | Commit(patch: Patch)

  function PositionPatch(p: Point): Patch {
    Patch(Some(p.x), Some(p.y), None, None, None, None, None)
  }

  function ContentPatch(c: string): Patch {
    Patch(None, None, None, None, None, Some(c), None)
  }

  /** A freshly mounted text element: not editing, showing the element's content at its position. */
  function Initial(e: Element): (s: State)
    requires e.kind.Text?
    ensures !s.editing && !s.dragging && s.content == e.kind.content && s.pos == Canvas.Point(e.x, e.y)
  {
    State(false, e.kind.content, Canvas.Point(e.x, e.y), Canvas.Point(0.0, 0.0), false)
  }

  /**
   * One event, with mouse-up committing the position the element shows.
   * A press drags only a selected element; selection itself comes from the
   * click. Double click starts editing; blur, or Enter without Shift, ends it.
   */
  function Step(s: State, ev: Event): (r: (State, Effect))
    ensures ev.MouseDown? && !ev.selected ==> r == (s, NoEffect)
    ensures ev.MouseDown? && ev.selected ==>
              r.0.dragging && r.0.anchor == Canvas.Point(ev.pointer.x - s.pos.x, ev.pointer.y - s.pos.y)
    ensures ev.MouseMove? && s.dragging ==> r.0.pos == Canvas.Point(ev.pointer.x - s.anchor.x, ev.pointer.y - s.anchor.y)
    ensures ev.MouseMove? && !s.dragging ==> r == (s, NoEffect)
    ensures ev.MouseUp? && s.dragging ==> !r.0.dragging && r.1 == Commit(PositionPatch(s.pos))
    ensures ev.MouseUp? && !s.dragging ==> r == (s, NoEffect)
    ensures ev.Click? ==> r == (s, Select)
    ensures ev.DoubleClick? ==> r.0.editing
    ensures ev.Blur? ==> !r.0.editing
    ensures ev.KeyDown? ==> (r.0.editing <==> s.editing && !(ev.key == "Enter" && !ev.shift))
    ensures r.1.Commit? ==> r.1.patch.width.None? && r.1.patch.height.None? && r.1.patch.style.None?
  {
    match ev
    case MouseDown(p, selected) =>
      if selected then (s.(dragging := true, anchor := Canvas.Point(p.x - s.pos.x, p.y - s.pos.y)), NoEffect)
      else (s, NoEffect)
    case MouseMove(p) =>
      if s.dragging then (s.(pos := Canvas.Point(p.x - s.anchor.x, p.y - s.anchor.y)), NoEffect) else (s, NoEffect)
    case MouseUp =>
      if s.dragging then (s.(dragging := false), Commit(PositionPatch(s.pos))) else (s, NoEffect)
    case Click => (s, Select)
    case DoubleClick => (s.(editing := true), NoEffect)
    case Input(text) => (s.(content := text), NoEffect)
    case Blur => (s.(editing := false), NoEffect)
    case KeyDown(key, shift) =>
      if key == "Enter" && !shift then (s.(editing := false), NoEffect) else (s, NoEffect)
  }

  /** Shift+Enter keeps editing; Enter alone and blur both leave it. */
  lemma EditingExits(s: State)
    requires s.editing
    ensures Step(s, KeyDown("Enter", true)).0.editing
    ensures !Step(s, KeyDown("Enter", false)).0.editing
    ensures !Step(s, Blur).0.editing
    ensures Step(s, KeyDown("a", false)).0.editing
  {
  }

  /**
   * The content effect, run after a render in which editing, the local
   * content or the element's content changed: it commits the local
   * content when not editing and it differs from the element's.
   */
  function ContentCommit(s: State, elementContent: string): (r: Option<Patch>)
    ensures r.Some? <==> !s.editing && s.content != elementContent
    ensures r.Some? ==> r.value == ContentPatch(s.content)
  {
    if !s.editing && s.content != elementContent then Some(ContentPatch(s.content)) else None
  }

  /** Typing while editing never commits; leaving the editor commits the typed text once. */
  lemma EditSession(s: State, text: string, elementContent: string)
    requires s.editing && text != elementContent
    ensures var typed := Step(s, Input(text)).0;
            ContentCommit(typed, elementContent).None? &&
            ContentCommit(Step(typed, Blur).0, elementContent) == Some(ContentPatch(text)) &&
            Merge(Element("e", 0.0, 0.0, None, None, map[], Text(elementContent, "p")), ContentPatch(text)).kind.content == text
  {
  }

  function Moves(s: State, ps: seq<Point>): State
    decreases |ps|
  {
    if |ps| == 0 then s else Moves(Step(s, MouseMove(ps[0])).0, ps[1..])
  }

  lemma {:induction false} DragFollowsPointer(s: State, ps: seq<Point>)
    requires s.dragging && |ps| > 0
    ensures var r := Moves(s, ps);
            r.dragging && r.anchor == s.anchor && r.editing == s.editing && r.content == s.content &&
            r.pos == Canvas.Point(ps[|ps| - 1].x - s.anchor.x, ps[|ps| - 1].y - s.anchor.y)
    decreases |ps|
  {
    if |ps| > 1 {
      DragFollowsPointer(Step(s, MouseMove(ps[0])).0, ps[1..]);
    }
  }

  /**
   * A whole drag of a selected text element: the commit is exactly {x, y},
   * the start position plus the pointer's travel.
   */
  lemma DragGesture(s: State, p0: Point, ps: seq<Point>)
    requires !s.dragging && |ps| > 0
    ensures var down := Step(s, MouseDown(p0, true)).0;
            var up := Step(Moves(down, ps), MouseUp);
            var last := ps[|ps| - 1];
            !up.0.dragging &&
            up.1 == Commit(PositionPatch(Canvas.Point(s.pos.x + (last.x - p0.x), s.pos.y + (last.y - p0.y))))
  {
    DragFollowsPointer(Step(s, MouseDown(p0, true)).0, ps);
  }

  /** A press on an unselected element starts nothing: later moves and release leave it in place. */
  lemma UnselectedPressDoesNotDrag(s: State, p0: Point, ps: seq<Point>)
    requires !s.dragging
    ensures Moves(Step(s, MouseDown(p0, false)).0, ps) == s
    ensures Step(Moves(Step(s, MouseDown(p0, false)).0, ps), MouseUp) == (s, NoEffect)
  {
    UnselectedMoves(s, ps);
  }

  lemma {:induction false} UnselectedMoves(s: State, ps: seq<Point>)
    requires !s.dragging
    ensures Moves(s, ps) == s
    decreases |ps|
  {
    if |ps| > 0 {
      UnselectedMoves(Step(s, MouseMove(ps[0])).0, ps[1..]);
    }
  }

  // ---------------------------------------------------------------------
  // The machine as written: the listeners see a stale position.

  /**
   * The document listeners are re-created only when `isDragging` or
   * `dragStart` change (and `onUpdate`, which keeps its identity while the
   * parent does not re-render); `seenPos` is the position they captured.
   */
  datatype Listeners = Listeners(s: State, seenPos: Point)

  function StepAsWritten(l: Listeners, ev: Event): (r: (Listeners, Effect))
    ensures r.0.s == Step(l.s, ev).0
    ensures ev.MouseUp? && l.s.dragging ==> r.1 == Commit(PositionPatch(l.seenPos))
    ensures !ev.MouseUp? ==> r.1 == Step(l.s, ev).1
  {
    var (s', eff) := Step(l.s, ev);
    var eff' := if ev.MouseUp? && l.s.dragging then Commit(PositionPatch(l.seenPos)) else eff;
    if l.s.dragging != s'.dragging || l.s.anchor != s'.anchor then (Listeners(s', s'.pos), eff')
    else (Listeners(s', l.seenPos), eff')
  }

  function MovesAsWritten(l: Listeners, ps: seq<Point>): Listeners
    decreases |ps|
  {
    if |ps| == 0 then l else MovesAsWritten(StepAsWritten(l, MouseMove(ps[0])).0, ps[1..])
  }

  lemma {:induction false} MovesKeepCapture(l: Listeners, ps: seq<Point>)
    ensures MovesAsWritten(l, ps).seenPos == l.seenPos
    ensures MovesAsWritten(l, ps).s.dragging == l.s.dragging
    decreases |ps|
  {
    if |ps| > 0 {
      MovesKeepCapture(StepAsWritten(l, MouseMove(ps[0])).0, ps[1..]);
    }
  }

  /** As written, a whole drag commits the position the element had when the drag started. */
  lemma DragGestureAsWritten(l: Listeners, p0: Point, ps: seq<Point>)
    requires !l.s.dragging
    ensures var down := StepAsWritten(l, MouseDown(p0, true)).0;
            StepAsWritten(MovesAsWritten(down, ps), MouseUp).1 == Commit(PositionPatch(l.s.pos))
  {
    MovesKeepCapture(StepAsWritten(l, MouseDown(p0, true)).0, ps);
  }
}
