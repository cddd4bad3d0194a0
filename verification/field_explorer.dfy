/**
 * The JSON field explorer (src/components/json-field-explorer.tsx): a tree
 * of the loaded JSON with expandable containers, a search filter on dotted
 * paths, and draggable leaves that carry their path and value to the
 * canvas.
 */
module FieldExplorer {
  import opened Wrappers
  import opened Json

  /** The paths of the expanded containers. */
  type Expanded = set<string>

  /** `togglePath`: a path that was expanded collapses, any other expands. */
  function Toggle(ex: Expanded, path: string): (r: Expanded)
    ensures path in r <==> path !in ex
    ensures forall q :: q != path ==> (q in r <==> q in ex)
  {
    if path in ex then ex - {path} else ex + {path}
  }

  /** Toggling the same path twice restores the set. */
  lemma ToggleTwice(ex: Expanded, path: string)
    ensures Toggle(Toggle(ex, path), path) == ex
  {
  }

  /** The path of a child: its key under the root, `parent.key` below it. */
  function ChildPath(parent: string, key: string): (r: string)
    ensures parent == "" ==> r == key
    ensures parent != "" ==> |r| == |parent| + 1 + |key| && r[..|parent|] == parent &&
                             r[|parent|] == '.' && r[|parent| + 1..] == key
  {
    if parent == "" then key else parent + "." + key
  }

  /** `path.split('.').pop()`: the text after the last dot, or the whole path when it has none. */
  function LastSegment(path: string): (r: string)
    ensures |r| <= |path| && r == path[|path| - |r|..]
    ensures '.' !in r
    ensures |r| < |path| ==> path[|path| - |r| - 1] == '.'
  {
    if |path| == 0 then ""
    else if path[|path| - 1] == '.' then ""
    else LastSegment(path[..|path| - 1]) + [path[|path| - 1]]
  }

  /** A node's label is the key it was reached by, provided the key has no dot. */
  lemma {:induction false} LabelOfChild(parent: string, key: string)
    requires '.' !in key
    ensures LastSegment(ChildPath(parent, key)) == key
    decreases |key|
  {
    if |key| == 0 {
      if parent != "" {
        LastSegmentAfterDot(parent);
      }
    } else {
      var shorter, last := key[..|key| - 1], key[|key| - 1];
      assert key == shorter + [last];
      assert '.' !in shorter by {
        forall i | 0 <= i < |shorter| ensures shorter[i] != '.' {
          assert shorter[i] == key[i];
        }
      }
      LabelOfChild(parent, shorter);
      var q := ChildPath(parent, shorter);
      assert ChildPath(parent, key) == q + [last] by {
        if parent != "" {
          assert parent + "." + key == (parent + "." + shorter) + [last];
        }
      }
      LastSegmentExtend(q, last);
    }
  }

  lemma LastSegmentAfterDot(parent: string)
    ensures LastSegment(parent + ".") == ""
  {
    var p := parent + ".";
    assert p[|p| - 1] == '.';
  }

  lemma LastSegmentExtend(q: string, c: char)
    requires c != '.'
    ensures LastSegment(q + [c]) == LastSegment(q) + [c]
  {
    var p := q + [c];
    assert p[..|p| - 1] == q;
  }

  /** The container label: its last path segment, or "root" when that is empty. */
  function Label(path: string): (r: string)
    ensures r != ""
    ensures LastSegment(path) != "" ==> r == LastSegment(path)
    ensures LastSegment(path) == "" ==> r == "root"
  {
    var last := LastSegment(path);
    if last == "" then "root" else last
  }

  // ---------------------------------------------------------------------
  // Search

  /** `toLowerCase` on the ASCII letters; other characters are kept. */
  function LowerChar(c: char): char {
    if 'A' <= c <= 'Z' then (c as int - 'A' as int + 'a' as int) as char else c
  }

  function Lower(s: string): (r: string)
    ensures |r| == |s|
    ensures forall i :: 0 <= i < |s| ==> r[i] == LowerChar(s[i])
  {
    if |s| == 0 then "" else [LowerChar(s[0])] + Lower(s[1..])
  }

  /** `t` occurs in `s` starting at index `i`. */
  predicate OccursAt(s: string, t: string, i: int) {
    0 <= i && i + |t| <= |s| && s[i..i + |t|] == t
  }

  /** `s.includes(t)`. */
  predicate Contains(s: string, t: string) {
    exists i :: 0 <= i <= |s| && OccursAt(s, t, i)
  }

  /** A node is hidden when a search term is typed and the path does not contain it, ignoring case. */
  predicate Hidden(path: string, term: string) {
    term != "" && !Contains(Lower(path), Lower(term))
  }

  /** The tree is rendered from the root, whose path is empty: any search term hides the whole tree. */
  lemma AnyTermHidesRoot(term: string)
    ensures Hidden("", term) <==> term != ""
  {
  }

  /** With no search term nothing is hidden; a path that contains the term is shown. */
  lemma ShownWhenMatching(path: string, term: string, i: nat)
    requires i + |term| <= |path| && path[i..i + |term|] == term
    ensures !Hidden(path, term)
  {
    var lp := Lower(path);
    assert lp[i..i + |term|] == Lower(term) by {
      forall k | 0 <= k < |term| ensures lp[i..i + |term|][k] == Lower(term)[k] {
        assert path[i..i + |term|][k] == term[k];
      }
    }
    assert OccursAt(lp, Lower(term), i);
  }

  // ---------------------------------------------------------------------
  // Leaves

  /** The text a leaf shows before truncation. */
  function LeafText(v: JsonValue): (r: string)
    requires !IsContainer(v)
    ensures v.JNull? ==> r == "null"
    ensures v.JBool? ==> r == (if v.b then "true" else "false")
    ensures r == ToText(v)
  {
    match v
    case JNull => "null"
    case JBool(b) => if b then "true" else "false"
    case _ => ToText(v)
  }

  const MaxShown: nat := 15
  const Ellipsis: string := "..."

  /** Text longer than 15 characters keeps its first 15 and gains "...". */
  function Truncate(s: string): (r: string)
    ensures |r| <= MaxShown + |Ellipsis|
    ensures |s| <= MaxShown ==> r == s
    ensures |s| > MaxShown ==> |r| == MaxShown + |Ellipsis| && r[..MaxShown] == s[..MaxShown] && r[MaxShown..] == Ellipsis
  {
    if |s| > MaxShown then s[..MaxShown] + Ellipsis else s
  }

  /** Truncated text is a prefix of the original, up to the ellipsis. */
  lemma TruncateKeepsPrefix(s: string)
    ensures var r := Truncate(s); r == s || (r[..MaxShown] <= s && r[MaxShown..] == Ellipsis)
  {
  }

  function LeafDisplay(v: JsonValue): (r: string)
    requires !IsContainer(v)
    ensures |r| <= 18
  {
    Truncate(LeafText(v))
  }

  // ---------------------------------------------------------------------
  // The rendered tree

  datatype Row =
    | Leaf(path: string, value: JsonValue, level: nat, display: string)
    | Branch(path: string, level: nat, caption: string, expanded: bool, arrayLength: Option<nat>)

  /** What a leaf hands to the drag-and-drop layer: `{ fieldPath, fieldValue }`. */
  datatype DragItem = DragItem(fieldPath: string, fieldValue: JsonValue)

  function DragSource(r: Row): (d: DragItem)
    requires r.Leaf?
    ensures d.fieldPath == r.path && d.fieldValue == r.value
  {
    DragItem(r.path, r.value)
  }

  /** Every row shown is on a path that passes the filter and sits at or below `level`. */
  predicate WellShown(rows: seq<Row>, level: nat, term: string) {
    forall k :: 0 <= k < |rows| ==> !Hidden(rows[k].path, term) && rows[k].level >= level
  }

  /** Leaves hold only null, booleans, numbers and strings: containers are never dragged. */
  predicate LeavesAreScalar(rows: seq<Row>) {
    forall k :: 0 <= k < |rows| && rows[k].Leaf? ==> !IsContainer(rows[k].value)
  }

  /**
   * `renderJsonNode(value, path, level)`: nothing if the path is filtered
   * out; a leaf row for a non-container; otherwise a branch row followed,
   * when expanded, by the rows of its entries in order.
   */
  function Render(v: JsonValue, path: string, level: nat, ex: Expanded, term: string): (rows: seq<Row>)
    ensures Hidden(path, term) ==> rows == []
    ensures !Hidden(path, term) ==> |rows| >= 1 && rows[0].path == path && rows[0].level == level &&
                                     (rows[0].Leaf? <==> !IsContainer(v))
    ensures !Hidden(path, term) && IsContainer(v) && path !in ex ==> |rows| == 1
    ensures WellShown(rows, level, term)
    ensures LeavesAreScalar(rows)
    decreases v, 1
  {
    if Hidden(path, term) then []
    else if !IsContainer(v) then [Leaf(path, v, level, LeafDisplay(v))]
    else
      var head := Branch(path, level, Label(path), path in ex, if v.JArray? then Some(|v.items|) else None);
      var children := if path in ex then RenderEntries(v, 0, path, level + 1, ex, term) else [];
      RowsConcat([head], children, level, term);
      [head] + children
  }

  /** The rows of the entries of `v` from index `i` on. */
  function RenderEntries(v: JsonValue, i: nat, path: string, level: nat, ex: Expanded, term: string): (rows: seq<Row>)
    requires IsContainer(v) && i <= |Keys(v)|
    ensures WellShown(rows, level, term)
    ensures LeavesAreScalar(rows)
    decreases v, 0, |Keys(v)| - i
  {
    if i == |Keys(v)| then []
    else
      var m := Entry(v, i);
      var first := Render(m.value, ChildPath(path, m.key), level, ex, term);
      var rest := RenderEntries(v, i + 1, path, level, ex, term);
      RowsConcat(first, rest, level, term);
      first + rest
  }

  /** Both row properties carry over to a concatenation. */
  lemma RowsConcat(a: seq<Row>, b: seq<Row>, level: nat, term: string)
    requires WellShown(a, level, term) && LeavesAreScalar(a)
    requires WellShown(b, level, term) && LeavesAreScalar(b)
    ensures WellShown(a + b, level, term) && LeavesAreScalar(a + b)
  {
    var c := a + b;
    forall k | 0 <= k < |c|
      ensures !Hidden(c[k].path, term) && c[k].level >= level
      ensures c[k].Leaf? ==> !IsContainer(c[k].value)
    {
      if k < |a| {
        assert c[k] == a[k];
      } else {
        assert c[k] == b[k - |a|];
      }
    }
  }

  /** Whatever is expanded and typed, every drag source carries a scalar or null. */
  lemma OnlyLeavesAreDragged(v: JsonValue, ex: Expanded, term: string, k: nat)
    requires k < |Render(v, "", 0, ex, term)| && Render(v, "", 0, ex, term)[k].Leaf?
    ensures !IsContainer(DragSource(Render(v, "", 0, ex, term)[k]).fieldValue)
  {
  }

  /** A search term hides the whole tree. */
  lemma SearchHidesTree(v: JsonValue, ex: Expanded, term: string)
    requires term != ""
    ensures Render(v, "", 0, ex, term) == []
  {
    AnyTermHidesRoot(term);
  }

  /** A scalar document is one draggable row labelled by its value. */
  lemma ScalarDocument(v: JsonValue, ex: Expanded)
    requires !IsContainer(v)
    ensures Render(v, "", 0, ex, "") == [Leaf("", v, 0, LeafDisplay(v))]
  {
  }
}
