/** The whole-list transformations the local service path applies to a
    collection before writing it back: `findIndex` by id, the in-place
    merge of `update`, and the `filter` of `delete`. */
module ListOps {
  import opened Records

  /** `items.findIndex(item => item.id === id)`: the first position holding
      the id, or -1 when none does. */
  function FirstMatch(items: seq<Record>, id: string): (i: int)
    ensures -1 <= i < |items|
    ensures i == -1 <==> forall j :: 0 <= j < |items| ==> !HasId(items[j], id)
    ensures 0 <= i ==> HasId(items[i], id) && forall j :: 0 <= j < i ==> !HasId(items[j], id)
  {
    if items == [] then -1
    else if HasId(items[0], id) then 0
    else
      var k := FirstMatch(items[1..], id);
      if k == -1 then -1 else k + 1
  }

  /** The list `update` writes back: the first record with the id replaced by
      its merge with the patch; the list itself when no record has the id. */
  function Patched(items: seq<Record>, id: string, patch: Record, isoNow: string): (r: seq<Record>)
    ensures |r| == |items|
  {
    var i := FirstMatch(items, id);
    if i == -1 then items else items[i := Merge(items[i], patch, isoNow)]
  }

  /** An update whose id is absent changes nothing; otherwise exactly the
      first matching position changes, to the merge of the old record with
      the patch and `updatedAt`, and every other position keeps its record. */
  lemma PatchedAt(items: seq<Record>, id: string, patch: Record, isoNow: string)
    ensures (forall j :: 0 <= j < |items| ==> !HasId(items[j], id)) ==> Patched(items, id, patch, isoNow) == items
    ensures forall i :: 0 <= i < |items| && HasId(items[i], id) && (forall j :: 0 <= j < i ==> !HasId(items[j], id)) ==>
      && Patched(items, id, patch, isoNow)[i] == Merge(items[i], patch, isoNow)
      && forall j :: 0 <= j < |items| && j != i ==> Patched(items, id, patch, isoNow)[j] == items[j]
  {
  }

  /** A patch that carries no `id`, or carries the id being updated (as the
      edit form's whole record does), keeps every record's id, so the updated
      record is still found under the same id at the same position. */
  lemma PatchKeepsIds(items: seq<Record>, id: string, patch: Record, isoNow: string)
    requires IdField in patch ==> patch[IdField] == Str(id)
    ensures forall j :: 0 <= j < |items| ==> Lookup(Patched(items, id, patch, isoNow)[j], IdField) == Lookup(items[j], IdField)
    ensures FirstMatch(Patched(items, id, patch, isoNow), id) == FirstMatch(items, id)
  {
    var r := Patched(items, id, patch, isoNow);
    assert forall j :: 0 <= j < |items| ==> (HasId(r[j], id) <==> HasId(items[j], id));
  }

  /** Applying the same update twice leaves the same list as applying it once. */
  lemma PatchedIdempotent(items: seq<Record>, id: string, patch: Record, isoNow: string)
    requires IdField in patch ==> patch[IdField] == Str(id)
    ensures Patched(Patched(items, id, patch, isoNow), id, patch, isoNow) == Patched(items, id, patch, isoNow)
  {
    var once := Patched(items, id, patch, isoNow);
    PatchKeepsIds(items, id, patch, isoNow);
    var i := FirstMatch(items, id);
    if i != -1 {
      MergeIdempotent(items[i], patch, isoNow);
    }
  }

  /** `items.filter(item => item.id !== id)`. */
  function WithoutId(items: seq<Record>, id: string): (r: seq<Record>)
    ensures |r| <= |items|
    ensures forall x :: x in r <==> x in items && !HasId(x, id)
  {
    if items == [] then []
    else if HasId(items[0], id) then WithoutId(items[1..], id)
    else [items[0]] + WithoutId(items[1..], id)
  }

  /** The filter keeps the relative order of what it keeps: filtering a
      concatenation filters each part in place. */
  lemma {:induction false} WithoutIdConcat(a: seq<Record>, b: seq<Record>, id: string)
    ensures WithoutId(a + b, id) == WithoutId(a, id) + WithoutId(b, id)
  {
    if a == [] {
      assert a + b == b;
    } else {
      assert (a + b)[0] == a[0] && (a + b)[1..] == a[1..] + b;
      WithoutIdConcat(a[1..], b, id);
    }
  }

  /** Every record without the id survives as often as it occurred; every
      record with the id is gone. */
  lemma {:induction false} WithoutIdCounts(items: seq<Record>, id: string, x: Record)
    ensures multiset(WithoutId(items, id))[x] == if HasId(x, id) then 0 else multiset(items)[x]
  {
    if items != [] {
      WithoutIdCounts(items[1..], id, x);
      assert items == [items[0]] + items[1..];
    }
  }

  /** Deleting an id that no record carries leaves the list as it was. */
  lemma {:induction false} WithoutAbsentId(items: seq<Record>, id: string)
    requires forall j :: 0 <= j < |items| ==> !HasId(items[j], id)
    ensures WithoutId(items, id) == items
  {
    if items != [] {
      WithoutAbsentId(items[1..], id);
      assert items == [items[0]] + items[1..];
    }
  }

  /** Deleting twice is deleting once. */
  lemma WithoutIdIdempotent(items: seq<Record>, id: string)
    ensures WithoutId(WithoutId(items, id), id) == WithoutId(items, id)
  {
    var r := WithoutId(items, id);
    forall j | 0 <= j < |r|
      ensures !HasId(r[j], id)
    {
      assert r[j] in r;
    }
    WithoutAbsentId(r, id);
  }
}
