/**
 * The editor's document model (src/types/editor.types.ts): styles, table
 * columns, the three element variants, partial updates and templates.
 */
module Document {
  import opened Wrappers
  import opened Json

  /** The recognised style properties of `ElementStyle`. */
  datatype StyleKey =
    | Color | FontSize | FontFamily | FontStyle | FontWeight
    | TextAlign | BackgroundColor | Padding | Border | BorderRadius

  /** An `ElementStyle`: each property is optional, every value is a CSS string. */
  type Style = map<StyleKey, string>

  predicate IsAlignment(s: string) {
    s == "left" || s == "center" || s == "right"
  }

  /** The one constraint the type puts on a style: `textAlign` is left, center or right. */
  predicate WellFormedStyle(st: Style) {
    TextAlign in st ==> IsAlignment(st[TextAlign])
  }

  /** One displayed table column. */
  datatype Column = Column(field: string, header: string, width: real, style: Option<Style>)

  /** The variant-specific part of an element; the constructor is the `type` discriminant. */
  datatype Kind =
    | Text(content: string, fieldPath: string)
    | Table(data: seq<JsonValue>, columns: seq<Column>, fieldPath: string)
    | Image(src: string, alt: Option<string>, sourcePath: Option<string>)

  /** An element placed on the canvas: the common `BaseElement` fields and its variant. */
  datatype Element = Element(
    id: string,
    x: real,
    y: real,
    width: Option<real>,
    height: Option<real>,
    style: Style,
    kind: Kind)

  /** The `type` string of an element's variant. */
  function TypeTag(k: Kind): (t: string)
    ensures t == "text" || t == "table" || t == "image"
  {
    match k
    case Text(_, _) => "text"
    case Table(_, _, _) => "table"
    case Image(_, _, _) => "image"
  }

  /** The `type` string determines the variant and the variant determines the string. */
  lemma TypeTagDiscriminates(a: Kind, b: Kind)
    ensures TypeTag(a) == TypeTag(b) <==> (a.Text? && b.Text?) || (a.Table? && b.Table?) || (a.Image? && b.Image?)
  {
  }

  predicate SameVariant(a: Kind, b: Kind) {
    TypeTag(a) == TypeTag(b)
  }

  /**
   * A `Partial<EditorElement>` as the editor builds one: each present field
   * overwrites the element's. `content` only exists on text elements and
   * `columns` only on tables.
   */
  datatype Patch = Patch(
    x: Option<real>,
    y: Option<real>,
    width: Option<real>,
    height: Option<real>,
    style: Option<Style>,
    content: Option<string>,
    columns: Option<seq<Column>>)

  const NoChange: Patch := Patch(None, None, None, None, None, None, None)

  function Override<T>(newer: Option<T>, older: Option<T>): Option<T> {
    if newer.Some? then newer else older
  }

  /** `{ ...el, ...updates }`: a shallow merge; `id` and `type` are never part of a patch. */
  function Merge(e: Element, p: Patch): (r: Element)
    ensures r.id == e.id
    ensures SameVariant(r.kind, e.kind)
    ensures r.kind.Text? ==> r.kind.fieldPath == e.kind.fieldPath
    ensures r.kind.Table? ==> r.kind.fieldPath == e.kind.fieldPath && r.kind.data == e.kind.data
    ensures r.kind.Image? ==> r.kind == e.kind
    ensures r.x == p.x.GetOr(e.x) && r.y == p.y.GetOr(e.y)
    ensures r.width == (if p.width.Some? then p.width else e.width)
    ensures r.height == (if p.height.Some? then p.height else e.height)
    ensures r.style == p.style.GetOr(e.style)
    ensures e.kind.Text? ==> r.kind.content == p.content.GetOr(e.kind.content)
    ensures e.kind.Table? ==> r.kind.columns == p.columns.GetOr(e.kind.columns)
  {
    var kind :=
      match e.kind
      case Text(c, path) => Text(p.content.GetOr(c), path)
      case Table(data, cols, path) => Table(data, p.columns.GetOr(cols), path)
      case Image(_, _, _) => e.kind;
    Element(e.id, p.x.GetOr(e.x), p.y.GetOr(e.y), Override(p.width, e.width), Override(p.height, e.height),
            p.style.GetOr(e.style), kind)
  }

  /** The patch that applies `p` and then `q`: every field `q` names wins. */
  function Then(p: Patch, q: Patch): Patch {
    Patch(Override(q.x, p.x), Override(q.y, p.y), Override(q.width, p.width), Override(q.height, p.height),
          Override(q.style, p.style), Override(q.content, p.content), Override(q.columns, p.columns))
  }

  /** The empty patch changes nothing. */
  lemma MergeNoChange(e: Element)
    ensures Merge(e, NoChange) == e
  {
  }

  /** Two successive merges are one merge of the combined patch. */
  lemma MergeThen(e: Element, p: Patch, q: Patch)
    ensures Merge(Merge(e, p), q) == Merge(e, Then(p, q))
  {
  }

  /** Applying the same patch twice is applying it once. */
  lemma MergeIdempotent(e: Element, p: Patch)
    ensures Merge(Merge(e, p), p) == Merge(e, p)
  {
    MergeThen(e, p, p);
    assert Then(p, p) == p;
  }

  /** `v || d` on an optional number: absent and 0 are both falsy and give `d`. */
  function NumberOr(v: Option<real>, d: real): (r: real)
    ensures v.Some? && v.value != 0.0 ==> r == v.value
    ensures v.None? || v.value == 0.0 ==> r == d
  {
    if v.Some? && v.value != 0.0 then v.value else d
  }

  /** A named snapshot of the element collection, as the editor keeps it. */
  datatype Template = Template(name: string, elements: seq<Element>)
}
