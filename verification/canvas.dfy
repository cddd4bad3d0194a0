/**
 * The canvas (src/components/editor-canvas.tsx): zoom, mapping a drop
 * from viewport to document coordinates, turning a dropped JSON field into
 * a new element, and the add / update / delete callbacks it hands to the
 * element components.
 */
module Canvas {
  import opened Wrappers
  import opened Json
  import opened Document
  import opened Collection
  import Decimal

  datatype Point = Point(x: real, y: real)

  /** The part of the canvas's bounding rectangle the drop handler reads. */
  datatype Rect = Rect(left: real, top: real)

  /** The element collection together with the selected id (editor state the canvas drives). */
  datatype Scene = Scene(elements: seq<Element>, selected: Option<string>)

  // ---------------------------------------------------------------------
  // Zoom

  const MinScale: real := 0.5
  const MaxScale: real := 2.0
  const ScaleStep: real := 0.1

  predicate ScaleInRange(s: real) {
    MinScale <= s <= MaxScale
  }

  /** The "-" button: one step down, never below the minimum. */
  function ZoomOut(s: real): (r: real)
    ensures r >= MinScale
    ensures r == MinScale || r == s - ScaleStep
    ensures s >= MinScale ==> r <= s
    ensures s - ScaleStep >= MinScale ==> r == s - ScaleStep
    ensures s - ScaleStep <= MinScale ==> r == MinScale
  {
    if s - ScaleStep > MinScale then s - ScaleStep else MinScale
  }

  /** The "+" button: one step up, never above the maximum. */
  function ZoomIn(s: real): (r: real)
    ensures r <= MaxScale
    ensures r == MaxScale || r == s + ScaleStep
    ensures s <= MaxScale ==> r >= s
    ensures s + ScaleStep <= MaxScale ==> r == s + ScaleStep
    ensures s + ScaleStep >= MaxScale ==> r == MaxScale
  {
    if s + ScaleStep < MaxScale then s + ScaleStep else MaxScale
  }

  /** Starting from the initial scale 1 or any scale in range, zooming keeps the scale in range. */
  lemma ZoomStaysInRange(s: real)
    requires ScaleInRange(s)
    ensures ScaleInRange(ZoomOut(s)) && ScaleInRange(ZoomIn(s))
  {
  }

  // ---------------------------------------------------------------------
  // Drop placement

  /**
   * The document position of a drop: the pointer's offset from the canvas
   * origin, divided by the zoom. Nothing when the canvas rectangle or the
   * pointer offset is unavailable.
   */
  function DropPosition(rect: Option<Rect>, pointer: Option<Point>, scale: real): (r: Option<Point>)
    requires scale > 0.0
    ensures r.Some? <==> rect.Some? && pointer.Some?
    ensures r.Some? ==> r.value.x * scale == pointer.value.x - rect.value.left
    ensures r.Some? ==> r.value.y * scale == pointer.value.y - rect.value.top
  {
    if rect.None? || pointer.None? then None
    else Some(Point((pointer.value.x - rect.value.left) / scale, (pointer.value.y - rect.value.top) / scale))
  }

  /** At zoom 2 a viewport offset of 200 is document offset 100; at zoom 0.5 it is 400. */
  lemma DropPositionExamples()
    ensures DropPosition(Some(Rect(0.0, 0.0)), Some(Point(200.0, 200.0)), 2.0) == Some(Point(100.0, 100.0))
    ensures DropPosition(Some(Rect(0.0, 0.0)), Some(Point(200.0, 200.0)), 0.5) == Some(Point(400.0, 400.0))
    ensures DropPosition(Some(Rect(50.0, 10.0)), Some(Point(250.0, 210.0)), 2.0) == Some(Point(100.0, 100.0))
  {
  }

  // ---------------------------------------------------------------------
  // Field-to-element mapping

  /** `element-${Date.now()}`: the clock reading is a parameter. */
  function ElementId(now: nat): (id: string)
    ensures |id| > 8 && id[..8] == "element-"
    ensures id[8..] == Decimal.NatToDecimal(now)
    ensures Decimal.ParseIndex(id[8..]) == Some(now)
  {
    Decimal.ParseIndexOfDecimal(now);
    "element-" + Decimal.NatToDecimal(now)
  }

  /** Distinct clock readings give distinct ids; equal readings collide. */
  lemma ElementIdInjective(a: nat, b: nat)
    ensures ElementId(a) == ElementId(b) <==> a == b
  {
    if ElementId(a) == ElementId(b) {
      assert ElementId(a)[8..] == Decimal.NatToDecimal(a);
      assert ElementId(b)[8..] == Decimal.NatToDecimal(b);
      Decimal.DecimalInjective(a, b);
    }
  }

  const KeyColumnWidth: real := 100.0
  const FallbackColumn: Column := Column("0", "Value", 200.0, None)
  const TableWidth: real := 400.0
  const TableHeight: real := 200.0

  const TableStyle: Style := map[Border := "1px solid #ccc", BorderRadius := "4px", BackgroundColor := "#ffffff"]
  const TextStyle: Style := map[Color := "#000000", FontSize := "16px", FontFamily := "Arial"]

  /** One column per key: field and header are the key, width 100. */
  function KeyColumns(keys: seq<string>): (cols: seq<Column>)
    ensures |cols| == |keys|
    ensures forall i :: 0 <= i < |keys| ==>
              cols[i].field == keys[i] && cols[i].header == keys[i] && cols[i].width == KeyColumnWidth && cols[i].style.None?
  {
    seq(|keys|, i requires 0 <= i < |keys| => Column(keys[i], keys[i], KeyColumnWidth, None))
  }

  /**
   * The columns of a table made from an array: when the first item is of
   * type "object", the keys of that item (which throws for null); otherwise,
   * including the empty array, the single column "0"/"Value".
   */
  function DeriveColumns(items: seq<JsonValue>): (r: Result<seq<Column>, TypeError>)
    ensures r.Failure? <==> |items| > 0 && items[0].JNull?
    ensures r.Success? && |items| > 0 && IsContainer(items[0]) ==>
              |r.value| == |Keys(items[0])| &&
              forall i :: 0 <= i < |r.value| ==>
                r.value[i].field == Keys(items[0])[i] && r.value[i].header == Keys(items[0])[i] &&
                r.value[i].width == KeyColumnWidth && r.value[i].style.None?
    ensures r.Success? && (|items| == 0 || IsScalar(items[0])) ==> r.value == [FallbackColumn]
  {
    if |items| > 0 && TypeofObject(items[0]) then
      if items[0].JNull? then Failure(TypeError) else Success(KeyColumns(Keys(items[0])))
    else Success([FallbackColumn])
  }

  /**
   * `addElement`'s mapping rule: an array becomes a 400x200 table holding
   * the array as its data, anything else a text element showing
   * `String(value)`, both at `pos` with id `ElementId(now)`.
   */
  function MapField(fieldPath: string, value: JsonValue, pos: Point, now: nat): (r: Result<Element, TypeError>)
    ensures r.Failure? <==> value.JArray? && |value.items| > 0 && value.items[0].JNull?
    ensures r.Success? ==> r.value.id == ElementId(now) && r.value.x == pos.x && r.value.y == pos.y
    ensures r.Success? ==> (r.value.kind.Table? <==> value.JArray?)
    ensures r.Success? && value.JArray? ==>
              r.value.kind == Table(value.items, DeriveColumns(value.items).value, fieldPath) &&
              r.value.width == Some(TableWidth) && r.value.height == Some(TableHeight) && r.value.style == TableStyle
    ensures r.Success? && !value.JArray? ==>
              r.value.kind == Text(ToText(value), fieldPath) &&
              r.value.width.None? && r.value.height.None? && r.value.style == TextStyle
  {
    if value.JArray? then
      match DeriveColumns(value.items)
      case Failure(e) => Failure(e)
      case Success(cols) =>
        Success(Element(ElementId(now), pos.x, pos.y, Some(TableWidth), Some(TableHeight), TableStyle,
                        Table(value.items, cols, fieldPath)))
    else
      Success(Element(ElementId(now), pos.x, pos.y, None, None, TextStyle, Text(ToText(value), fieldPath)))
  }

  /** An array of objects yields one column per key of its first item and keeps every row. */
  lemma ArrayOfObjectsExample()
    ensures var rows := [JObject([Member("a", JNumber("1")), Member("b", JNumber("2"))]),
                         JObject([Member("a", JNumber("3")), Member("b", JNumber("4"))])];
            var r := MapField("items", JArray(rows), Point(0.0, 0.0), 1);
            r.Success? && r.value.kind.columns == [Column("a", "a", 100.0, None), Column("b", "b", 100.0, None)]
            && |r.value.kind.data| == 2
  {
    var rows := [JObject([Member("a", JNumber("1")), Member("b", JNumber("2"))]),
                 JObject([Member("a", JNumber("3")), Member("b", JNumber("4"))])];
    assert Keys(rows[0]) == ["a", "b"];
  }

  /** An array of scalars, and the empty array, get the single "0"/"Value" column. */
  lemma ScalarArrayExample()
    ensures var r := MapField("n", JArray([JNumber("10"), JNumber("20"), JNumber("30")]), Point(0.0, 0.0), 1);
            r.Success? && r.value.kind.columns == [Column("0", "Value", 200.0, None)] && |r.value.kind.data| == 3
    ensures var r := MapField("n", JArray([]), Point(0.0, 0.0), 1);
            r.Success? && r.value.kind.columns == [FallbackColumn] && r.value.kind.data == []
  {
  }

  // ---------------------------------------------------------------------
  // Callbacks on the scene

  /** `onElementSelect(element)` as the editor implements it: `element?.id || null`. */
  function SelectionOf(e: Option<Element>): (r: Option<string>)
    ensures r.Some? <==> e.Some? && e.value.id != ""
    ensures r.Some? ==> r.value == e.value.id
  {
    if e.Some? && e.value.id != "" then Some(e.value.id) else None
  }

  /**
   * The drop handler: place the dropped field at the document position,
   * append it and select it. A missing rectangle or pointer, or a mapping
   * that throws, leaves the scene as it was.
   */
  function Drop(sc: Scene, fieldPath: string, value: JsonValue, rect: Option<Rect>, pointer: Option<Point>,
                scale: real, now: nat): (r: Scene)
    requires scale > 0.0
    ensures DropPosition(rect, pointer, scale).None? ==> r == sc
    ensures var pos := DropPosition(rect, pointer, scale);
            pos.Some? && MapField(fieldPath, value, pos.value, now).Success? ==>
              var e := MapField(fieldPath, value, pos.value, now).value;
              |r.elements| == |sc.elements| + 1 && r.elements[..|sc.elements|] == sc.elements &&
              r.elements[|sc.elements|] == e && r.selected == Some(e.id)
    ensures MapField(fieldPath, value, Point(0.0, 0.0), now).Failure? ==> r == sc
  {
    var pos := DropPosition(rect, pointer, scale);
    if pos.None? then sc
    else
      match MapField(fieldPath, value, pos.value, now)
      case Failure(_) => sc
      case Success(e) => Scene(Append(sc.elements, e), SelectionOf(Some(e)))
  }

  /** A drop whose clock reading differs from every id already present keeps the ids unique. */
  lemma DropKeepsUnique(sc: Scene, fieldPath: string, value: JsonValue, rect: Option<Rect>, pointer: Option<Point>,
                        scale: real, now: nat)
    requires scale > 0.0
    requires UniqueIds(sc.elements) && !HasId(sc.elements, ElementId(now))
    ensures UniqueIds(Drop(sc, fieldPath, value, rect, pointer, scale, now).elements)
  {
    var pos := DropPosition(rect, pointer, scale);
    if pos.Some? && MapField(fieldPath, value, pos.value, now).Success? {
      AppendKeepsUnique(sc.elements, MapField(fieldPath, value, pos.value, now).value);
    }
  }

  /** `updateElement(id, updates)`: merge into every element with that id; selection untouched. */
  function UpdateElement(sc: Scene, id: string, p: Patch): (r: Scene)
    ensures r.selected == sc.selected
    ensures |r.elements| == |sc.elements|
    ensures forall i :: 0 <= i < |r.elements| ==> r.elements[i].id == sc.elements[i].id
    ensures forall i :: 0 <= i < |sc.elements| && sc.elements[i].id == id ==> r.elements[i] == Merge(sc.elements[i], p)
    ensures forall i :: 0 <= i < |sc.elements| && sc.elements[i].id != id ==> r.elements[i] == sc.elements[i]
  {
    Scene(UpdateById(sc.elements, id, p), sc.selected)
  }

  /** `handleDeleteElement(id)`: drop every element with that id and always clear the selection. */
  function DeleteElement(sc: Scene, id: string): (r: Scene)
    ensures r.selected.None?
    ensures !HasId(r.elements, id)
    ensures forall e :: e in sc.elements && e.id != id ==> e in r.elements
    ensures forall e :: e in r.elements ==> e in sc.elements
  {
    Scene(RemoveById(sc.elements, id), None)
  }
}
