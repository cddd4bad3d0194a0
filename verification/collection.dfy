/**
 * The ordered element collection and the operations the canvas and the
 * editor perform on it (src/components/editor-canvas.tsx,
 * src/components/editor.tsx): append, update by id, delete by id and the
 * first-match lookup. Order is creation order and paint order.
 */
module Collection {
  import opened Wrappers
  import opened Document

  predicate HasId(els: seq<Element>, id: string) {
    exists i :: 0 <= i < |els| && els[i].id == id
  }

  /** No two elements share an id. */
  predicate UniqueIds(els: seq<Element>) {
    forall i, j :: 0 <= i < j < |els| ==> els[i].id != els[j].id
  }

  /** `[...elements, newElement]`: the new element goes last, on top of the others. */
  function Append(els: seq<Element>, e: Element): (r: seq<Element>)
    ensures |r| == |els| + 1
    ensures r[..|els|] == els && r[|els|] == e
  {
    els + [e]
  }

  /** Appending an element whose id is fresh keeps the ids unique. */
  lemma AppendKeepsUnique(els: seq<Element>, e: Element)
    requires UniqueIds(els) && !HasId(els, e.id)
    ensures UniqueIds(Append(els, e))
  {
  }

  /**
   * `elements.map(el => el.id === id ? { ...el, ...updates } : el)`: every
   * element carrying `id` is merged with the patch, every other element is
   * kept, in place.
   */
  function UpdateById(els: seq<Element>, id: string, p: Patch): (r: seq<Element>)
    ensures |r| == |els|
    ensures forall i :: 0 <= i < |els| && els[i].id != id ==> r[i] == els[i]
    ensures forall i :: 0 <= i < |els| && els[i].id == id ==> r[i] == Merge(els[i], p)
  {
    if |els| == 0 then []
    else [if els[0].id == id then Merge(els[0], p) else els[0]] + UpdateById(els[1..], id, p)
  }

  /** An update never changes an id, so the id sequence is unchanged. */
  lemma UpdateKeepsIds(els: seq<Element>, id: string, p: Patch)
    ensures forall i :: 0 <= i < |els| ==> UpdateById(els, id, p)[i].id == els[i].id
    ensures UniqueIds(els) ==> UniqueIds(UpdateById(els, id, p))
  {
  }

  /** Updating an id nobody carries returns the collection unchanged. */
  lemma UpdateAbsent(els: seq<Element>, id: string, p: Patch)
    requires !HasId(els, id)
    ensures UpdateById(els, id, p) == els
  {
  }

  /** `elements.filter(el => el.id !== id)`. */
  function RemoveById(els: seq<Element>, id: string): (r: seq<Element>)
    ensures |r| <= |els|
    ensures forall i :: 0 <= i < |r| ==> r[i].id != id
    ensures forall e :: e in r ==> e in els
    ensures forall e :: e in els && e.id != id ==> e in r
    ensures !HasId(els, id) ==> r == els
  {
    if |els| == 0 then []
    else if els[0].id == id then RemoveById(els[1..], id)
    else [els[0]] + RemoveById(els[1..], id)
  }

  /** Deleting distributes over concatenation: the survivors keep their relative order. */
  lemma {:induction false} RemoveConcat(a: seq<Element>, b: seq<Element>, id: string)
    ensures RemoveById(a + b, id) == RemoveById(a, id) + RemoveById(b, id)
  {
    if |a| > 0 {
      assert (a + b)[1..] == a[1..] + b;
      RemoveConcat(a[1..], b, id);
    } else {
      assert a + b == b;
    }
  }

  /** With unique ids, deleting the id at index `i` removes exactly that element. */
  lemma RemoveAt(els: seq<Element>, i: nat)
    requires UniqueIds(els) && i < |els|
    ensures RemoveById(els, els[i].id) == els[..i] + els[i + 1..]
  {
    var id := els[i].id;
    var before, after := els[..i], els[i + 1..];
    assert els == before + [els[i]] + after;
    OnlyHolder(els, i, before, after);
    RemoveConcat(before, [els[i]], id);
    assert RemoveById([els[i]], id) == RemoveById([], id);
    assert RemoveById(before + [els[i]], id) == before;
    RemoveConcat(before + [els[i]], after, id);
  }

  /** The other elements around the holder of a unique id do not carry it. */
  lemma OnlyHolder(els: seq<Element>, i: nat, before: seq<Element>, after: seq<Element>)
    requires UniqueIds(els) && i < |els| && before == els[..i] && after == els[i + 1..]
    ensures !HasId(before, els[i].id) && !HasId(after, els[i].id)
  {
    forall k | 0 <= k < |before|
      ensures before[k].id != els[i].id
    {
      assert before[k] == els[k];
    }
    forall k | 0 <= k < |after|
      ensures after[k].id != els[i].id
    {
      assert after[k] == els[i + 1 + k];
    }
  }

  /** Deleting keeps the remaining ids unique. */
  lemma {:induction false} RemoveKeepsUnique(els: seq<Element>, id: string)
    requires UniqueIds(els)
    ensures UniqueIds(RemoveById(els, id))
  {
    if |els| > 0 {
      RemoveKeepsUnique(els[1..], id);
      var rest := RemoveById(els[1..], id);
      if els[0].id != id {
        forall e | e in rest
          ensures e.id != els[0].id
        {
          var k :| 0 <= k < |els[1..]| && els[1..][k] == e;
          assert els[1 + k] == e;
        }
        var r := [els[0]] + rest;
        forall a, b | 0 <= a < b < |r|
          ensures r[a].id != r[b].id
        {
          if a == 0 {
            assert r[b] in rest;
          } else {
            assert r[a] == rest[a - 1] && r[b] == rest[b - 1];
          }
        }
      }
    }
  }

  /** The index of the first element carrying `id`. */
  function FirstIndex(els: seq<Element>, id: string): (r: Option<nat>)
    ensures r.Some? ==> r.value < |els| && els[r.value].id == id
    ensures r.Some? ==> forall j :: 0 <= j < r.value ==> els[j].id != id
    ensures r.None? <==> !HasId(els, id)
  {
    if |els| == 0 then None
    else if els[0].id == id then Some(0)
    else
      var rest := FirstIndex(els[1..], id);
      if rest.Some? then Some(rest.value + 1)
      else
        assert forall k :: 1 <= k < |els| ==> els[k] == els[1..][k - 1];
        None
  }

  /** An index holding `id` with no earlier holder is the first index. */
  lemma FirstIndexAt(els: seq<Element>, id: string, i: nat)
    requires i < |els| && els[i].id == id
    requires forall k :: 0 <= k < i ==> els[k].id != id
    ensures FirstIndex(els, id) == Some(i)
  {
  }

  /** `elements.find(el => el.id === id)`: the first element carrying `id`. */
  function FindById(els: seq<Element>, id: string): (r: Option<Element>)
    ensures r.Some? ==> r.value in els && r.value.id == id
    ensures r.Some? ==> exists i :: 0 <= i < |els| && els[i] == r.value && forall j :: 0 <= j < i ==> els[j].id != id
    ensures r.None? <==> !HasId(els, id)
  {
    var i := FirstIndex(els, id);
    if i.Some? then Some(els[i.value]) else None
  }

  /** After an update, looking the id up finds the merged element. */
  lemma FindAfterUpdate(els: seq<Element>, id: string, p: Patch)
    requires HasId(els, id)
    ensures FindById(UpdateById(els, id, p), id) == Some(Merge(FindById(els, id).value, p))
  {
    var r := UpdateById(els, id, p);
    var i := FirstIndex(els, id).value;
    assert FindById(els, id) == Some(els[i]);
    assert r[i] == Merge(els[i], p);
    forall k | 0 <= k < i
      ensures r[k].id != id
    {
      assert r[k] == els[k];
    }
    FirstIndexAt(r, id, i);
  }

}
