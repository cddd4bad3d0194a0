/**
 * The properties panel (src/components/propierties-panel.tsx): the patch
 * each control sends for the selected element. Style edits copy the whole
 * style with one key replaced; position and size edits name one field;
 * column edits replace one column with its merge.
 */
module PropertiesPanel {
  import opened Wrappers
  import opened Document
  import Decimal

  datatype Axis = X | Y
  datatype Dimension = Width | Height

  /** The fields a column edit can set. */
  datatype ColumnPatch = ColumnPatch(header: Option<string>, width: Option<real>)

  /** `handleStyleChange(key, value)`: the element's style with `key` set to `value`. */
  function StyleChange(e: Element, key: StyleKey, value: string): (p: Patch)
    ensures p.style.Some? && p == NoChange.(style := p.style)
    ensures p.style.value.Keys == e.style.Keys + {key}
    ensures p.style.value[key] == value
    ensures forall k :: k in e.style && k != key ==> p.style.value[k] == e.style[k]
  {
    NoChange.(style := Some(e.style[key := value]))
  }

  /** `handlePositionChange(axis, v)`: a patch naming only `x` or only `y`. */
  function PositionChange(axis: Axis, v: real): (p: Patch)
    ensures axis == X ==> p == NoChange.(x := Some(v))
    ensures axis == Y ==> p == NoChange.(y := Some(v))
  {
    if axis == X then NoChange.(x := Some(v)) else NoChange.(y := Some(v))
  }

  /** `handleSizeChange(dim, v)`: a patch naming only `width` or only `height`. */
  function SizeChange(dim: Dimension, v: real): (p: Patch)
    ensures dim == Width ==> p == NoChange.(width := Some(v))
    ensures dim == Height ==> p == NoChange.(height := Some(v))
  {
    if dim == Width then NoChange.(width := Some(v)) else NoChange.(height := Some(v))
  }

  function MergeColumn(c: Column, cp: ColumnPatch): Column {
    c.(header := cp.header.GetOr(c.header), width := cp.width.GetOr(c.width))
  }

  /**
   * `handleColumnUpdate(index, updates)`: for a table, the columns with
   * column `index` merged with the update; nothing for other elements.
   * Indices come from the rendered column list, so they are in range.
   */
  function ColumnUpdate(e: Element, index: nat, cp: ColumnPatch): (r: Option<Patch>)
    requires e.kind.Table? ==> index < |e.kind.columns|
    ensures r.Some? <==> e.kind.Table?
    ensures r.Some? ==> r.value.columns.Some? && r.value == NoChange.(columns := r.value.columns)
    ensures r.Some? ==> |r.value.columns.value| == |e.kind.columns|
    ensures r.Some? ==> r.value.columns.value[index] == MergeColumn(e.kind.columns[index], cp)
    ensures r.Some? ==> forall j :: 0 <= j < |e.kind.columns| && j != index ==> r.value.columns.value[j] == e.kind.columns[j]
  {
    if e.kind.Table? then
      Some(NoChange.(columns := Some(e.kind.columns[index := MergeColumn(e.kind.columns[index], cp)])))
    else None
  }

  /** The bold button: "bold" becomes "normal", anything else (absent included) "bold". */
  function ToggleBold(st: Style): (v: string)
    ensures v == "bold" || v == "normal"
    ensures v == "normal" <==> FontWeight in st && st[FontWeight] == "bold"
  {
    if FontWeight in st && st[FontWeight] == "bold" then "normal" else "bold"
  }

  /** The italic button: "italic" becomes "normal", anything else "italic". */
  function ToggleItalic(st: Style): (v: string)
    ensures v == "italic" || v == "normal"
    ensures v == "normal" <==> FontStyle in st && st[FontStyle] == "italic"
  {
    if FontStyle in st && st[FontStyle] == "italic" then "normal" else "italic"
  }

  /**
   * `parseInt(text) || fallback`: NaN and 0 are both falsy, so they give
   * the fallback; any other parsed integer is used.
   */
  function NumberInput(text: string, fallback: int): (r: int)
    ensures r == fallback || Decimal.ParseInt(text) == Some(r)
    ensures r == 0 ==> fallback == 0
    ensures Decimal.ParseInt(text).None? ==> r == fallback
    ensures Decimal.ParseInt(text) == Some(0) ==> r == fallback
    ensures Decimal.ParseInt(text).Some? && Decimal.ParseInt(text).value != 0 ==> r == Decimal.ParseInt(text).value
  {
    var n := Decimal.ParseInt(text);
    if n.None? || n.value == 0 then fallback else n.value
  }

  const XFallback: int := 0
  const YFallback: int := 0
  const WidthFallback: int := 100
  const HeightFallback: int := 50
  const ColumnWidthFallback: int := 50

  /** Typing the decimal text of a non-zero integer, with or without a minus sign, enters it. */
  lemma NumberInputReadsDecimals(n: nat, fallback: int)
    requires n > 0
    ensures NumberInput(Decimal.NatToDecimal(n), fallback) == n
    ensures NumberInput("-" + Decimal.NatToDecimal(n), fallback) == -(n as int)
  {
    Decimal.ParseIntOfDecimal(n);
  }

  /** An empty field and "0" both give the fallback. */
  lemma NumberInputFallbacks(fallback: int)
    ensures NumberInput("0", fallback) == fallback
    ensures NumberInput("", fallback) == fallback
  {
    Decimal.ParseIntOfDecimal(0);
    assert Decimal.NatToDecimal(0) == "0";
    assert Decimal.DigitPrefix("", 10) == "";
    assert Decimal.ParseUnsigned("") == None;
    assert Decimal.TrimStart("") == "";
  }

  const DisplayedWidthDefault: real := 400.0
  const DisplayedHeightDefault: real := 200.0

  /** The width the panel shows: `width || 400`. */
  function DisplayedWidth(e: Element): (w: real)
    ensures e.width.None? ==> w == DisplayedWidthDefault
    ensures e.width.Some? && e.width.value != 0.0 ==> w == e.width.value
  {
    NumberOr(e.width, DisplayedWidthDefault)
  }

  /** The height the panel shows: `height || 200`. */
  function DisplayedHeight(e: Element): (h: real)
    ensures e.height.None? ==> h == DisplayedHeightDefault
    ensures e.height.Some? && e.height.value != 0.0 ==> h == e.height.value
  {
    NumberOr(e.height, DisplayedHeightDefault)
  }

  /** The style keys whose controls only text elements show. */
  predicate TextOnly(k: StyleKey) {
    k == FontSize || k == FontFamily || k == TextAlign || k == FontWeight || k == FontStyle
  }

  /** One edit in the panel. */
  datatype Control =
    | SetStyle(key: StyleKey, value: string)  // colour pickers and selects
    | BoldButton
    | ItalicButton
    | PositionInput(axis: Axis, text: string)
    | PositionSlider(axis: Axis, v: real)
    | SizeInput(dim: Dimension, text: string)
    | SizeSlider(dim: Dimension, v: real)
    | ColumnHeaderInput(index: nat, text: string)
    | ColumnWidthInput(index: nat, text: string)

  predicate ColumnControl(c: Control) {
    c.ColumnHeaderInput? || c.ColumnWidthInput?
  }

  /** A control is on screen: text-only style controls for text, size and column controls for tables. */
  predicate Shown(e: Element, c: Control) {
    match c
    case SetStyle(k, _) => TextOnly(k) ==> e.kind.Text?
    case BoldButton => e.kind.Text?
    case ItalicButton => e.kind.Text?
    case SizeInput(_, _) => e.kind.Table?
    case SizeSlider(_, _) => e.kind.Table?
    case ColumnHeaderInput(i, _) => e.kind.Table? && i < |e.kind.columns|
    case ColumnWidthInput(i, _) => e.kind.Table? && i < |e.kind.columns|
    case _ => true
  }

  /**
   * The update the panel sends for `c`, if any. With nothing selected the
   * panel shows only a hint, so no control exists and nothing is sent.
   */
  function Handle(selected: Option<Element>, c: Control): (r: Option<Patch>)
    ensures selected.None? ==> r.None?
    ensures selected.Some? ==> (r.Some? <==> Shown(selected.value, c))
    ensures r.Some? && (c.PositionInput? || c.PositionSlider?) ==>
              r.value.width.None? && r.value.height.None? && r.value.style.None? && r.value.columns.None?
    ensures r.Some? && c.SizeInput? && c.dim == Width ==>
              r.value == NoChange.(width := Some(NumberInput(c.text, WidthFallback) as real))
    ensures r.Some? && c.SizeInput? && c.dim == Height ==>
              r.value == NoChange.(height := Some(NumberInput(c.text, HeightFallback) as real))
  {
    if selected.None? || !Shown(selected.value, c) then None
    else
      var e := selected.value;
      match c
      case SetStyle(k, v) => Some(StyleChange(e, k, v))
      case BoldButton => Some(StyleChange(e, FontWeight, ToggleBold(e.style)))
      case ItalicButton => Some(StyleChange(e, FontStyle, ToggleItalic(e.style)))
      case PositionInput(axis, text) =>
        Some(PositionChange(axis, NumberInput(text, if axis == X then XFallback else YFallback) as real))
      case PositionSlider(axis, v) => Some(PositionChange(axis, v))
      case SizeInput(dim, text) =>
        Some(SizeChange(dim, NumberInput(text, if dim == Width then WidthFallback else HeightFallback) as real))
      case SizeSlider(dim, v) => Some(SizeChange(dim, v))
      case ColumnHeaderInput(i, text) => ColumnUpdate(e, i, ColumnPatch(Some(text), None))
      case ColumnWidthInput(i, text) =>
        ColumnUpdate(e, i, ColumnPatch(None, Some(NumberInput(text, ColumnWidthFallback) as real)))
  }

  /**
   * The patch each control sends for the selected element: style controls
   * the style with one key set, position inputs the typed number or 0,
   * sliders their value, column inputs the column with its header or its
   * typed width (or 50) replaced and every other column kept.
   */
  lemma HandleSends(e: Element, c: Control)
    requires Shown(e, c)
    ensures c.SetStyle? ==> Handle(Some(e), c) == Some(NoChange.(style := Some(e.style[c.key := c.value])))
    ensures c.BoldButton? ==>
              Handle(Some(e), c) == Some(NoChange.(style := Some(e.style[FontWeight := ToggleBold(e.style)])))
    ensures c.ItalicButton? ==>
              Handle(Some(e), c) == Some(NoChange.(style := Some(e.style[FontStyle := ToggleItalic(e.style)])))
    ensures c.PositionInput? && c.axis == X ==>
              Handle(Some(e), c) == Some(NoChange.(x := Some(NumberInput(c.text, XFallback) as real)))
    ensures c.PositionInput? && c.axis == Y ==>
              Handle(Some(e), c) == Some(NoChange.(y := Some(NumberInput(c.text, YFallback) as real)))
    ensures c.PositionSlider? && c.axis == X ==> Handle(Some(e), c) == Some(NoChange.(x := Some(c.v)))
    ensures c.PositionSlider? && c.axis == Y ==> Handle(Some(e), c) == Some(NoChange.(y := Some(c.v)))
    ensures c.SizeSlider? && c.dim == Width ==> Handle(Some(e), c) == Some(NoChange.(width := Some(c.v)))
    ensures c.SizeSlider? && c.dim == Height ==> Handle(Some(e), c) == Some(NoChange.(height := Some(c.v)))
    ensures ColumnControl(c) ==>
              var r := Handle(Some(e), c).value;
              r == NoChange.(columns := r.columns) && r.columns.Some? &&
              |r.columns.value| == |e.kind.columns| &&
              (forall j :: 0 <= j < |e.kind.columns| && j != c.index ==> r.columns.value[j] == e.kind.columns[j])
    ensures c.ColumnHeaderInput? ==>
              Handle(Some(e), c).value.columns.value[c.index] == e.kind.columns[c.index].(header := c.text)
    ensures c.ColumnWidthInput? ==>
              Handle(Some(e), c).value.columns.value[c.index] ==
              e.kind.columns[c.index].(width := NumberInput(c.text, ColumnWidthFallback) as real)
  {
    match c
    case SetStyle(_, _) =>
    case BoldButton =>
    case ItalicButton =>
    case PositionInput(_, _) =>
    case PositionSlider(_, _) =>
    case SizeInput(_, _) =>
    case SizeSlider(_, _) =>
    case ColumnHeaderInput(i, _) =>
    case ColumnWidthInput(i, _) =>
  }

  /**
   * Style edits are shallow and additive: two edits of different keys
   * both survive, and every other key keeps its value.
   */
  lemma StyleEditsAccumulate(e: Element, k1: StyleKey, v1: string, k2: StyleKey, v2: string)
    requires k1 != k2
    ensures var e1 := Merge(e, StyleChange(e, k1, v1));
            var e2 := Merge(e1, StyleChange(e1, k2, v2));
            e2.style[k1] == v1 && e2.style[k2] == v2 &&
            e2.style.Keys == e.style.Keys + {k1, k2} &&
            (forall k :: k in e.style && k != k1 && k != k2 ==> e2.style[k] == e.style[k]) &&
            e2.x == e.x && e2.y == e.y && e2.width == e.width && e2.height == e.height && e2.kind == e.kind
  {
  }

  /** The example of a colour edit followed by a font-size edit. */
  lemma ColourThenFontSize()
    ensures var e := Element("element-1", 0.0, 0.0, None, None, map[Color := "#000", FontSize := "16px"], Text("hi", "a"));
            var e1 := Merge(e, StyleChange(e, Color, "#111"));
            var e2 := Merge(e1, StyleChange(e1, FontSize, "20px"));
            e2.style == map[Color := "#111", FontSize := "20px"]
  {
    var e := Element("element-1", 0.0, 0.0, None, None, map[Color := "#000", FontSize := "16px"], Text("hi", "a"));
    StyleEditsAccumulate(e, Color, "#111", FontSize, "20px");
  }

  /** Every edit the panel can make keeps `textAlign` one of left, center or right. */
  lemma PanelKeepsStyleWellFormed(e: Element, c: Control)
    requires WellFormedStyle(e.style)
    requires c.SetStyle? && c.key == TextAlign ==> IsAlignment(c.value)
    requires e.kind.Table? && ColumnControl(c) ==> c.index < |e.kind.columns|
    ensures var r := Handle(Some(e), c);
            r.Some? ==> WellFormedStyle(Merge(e, r.value).style)
  {
  }

  /** The bold button toggles: two presses from "bold" or "normal" return to it. */
  lemma BoldTogglesBack(e: Element)
    requires FontWeight in e.style && (e.style[FontWeight] == "bold" || e.style[FontWeight] == "normal")
    ensures var e1 := Merge(e, StyleChange(e, FontWeight, ToggleBold(e.style)));
            e1.style[FontWeight] != e.style[FontWeight] &&
            Merge(e1, StyleChange(e1, FontWeight, ToggleBold(e1.style))).style == e.style
  {
    var e1 := Merge(e, StyleChange(e, FontWeight, ToggleBold(e.style)));
    var e2 := Merge(e1, StyleChange(e1, FontWeight, ToggleBold(e1.style)));
    assert e2.style == e.style[FontWeight := e.style[FontWeight]];
  }
}
