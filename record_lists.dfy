/**
 * The two list transformations the Passwords and Envs pages apply to their
 * stored records: `[newItem, ...items]` and `items.filter(x => x.id !== id)`.
 */
module RecordLists {
  import opened Wrappers
  import opened JsonValue

  /** `x.id === id` for a record read from storage. */
  predicate HasId(x: Json, id: Json)
  {
    StrictEquals(Prop(x, "id"), Some(id))
  }

  /** `[item, ...items]` */
  function Prepend(item: Json, items: seq<Json>): (r: seq<Json>)
    ensures |r| == |items| + 1
    ensures r[0] == item && r[1..] == items
  {
    [item] + items
  }

  /** `items.filter(x => x.id !== id)` */
  function WithoutId(items: seq<Json>, id: Json): (r: seq<Json>)
    ensures |r| <= |items|
    decreases |items|
  {
    if items == [] then []
    else
      var last := items[|items| - 1];
      WithoutId(items[..|items| - 1], id) + (if HasId(last, id) then [] else [last])
  }

  /** Every survivor of the filter is a record of the list without the id. */
  lemma {:induction false} WithoutIdDrops(items: seq<Json>, id: Json)
    ensures forall x :: x in WithoutId(items, id) ==> x in items && !HasId(x, id)
    decreases |items|
  {
    if items != [] {
      var init := items[..|items| - 1];
      WithoutIdDrops(init, id);
      WithoutIdSnoc(items, id);
      assert forall x :: x in init ==> x in items;
    }
  }

  /** Every record without the id survives the filter. */
  lemma {:induction false} WithoutIdKeeps(items: seq<Json>, id: Json, x: Json)
    requires x in items && !HasId(x, id)
    ensures x in WithoutId(items, id)
    decreases |items|
  {
    var init := items[..|items| - 1];
    if x != items[|items| - 1] {
      assert items == init + [items[|items| - 1]];
      WithoutIdKeeps(init, id, x);
    }
  }

  /** One more record at the end is tested on its own. */
  lemma WithoutIdSnoc(items: seq<Json>, id: Json)
    requires items != []
    ensures WithoutId(items, id) == WithoutId(items[..|items| - 1], id)
      + (if HasId(items[|items| - 1], id) then [] else [items[|items| - 1]])
  {
  }

  /** The filter works record by record: it distributes over concatenation, so the survivors keep their order. */
  lemma {:induction false} WithoutIdAppend(a: seq<Json>, b: seq<Json>, id: Json)
    ensures WithoutId(a + b, id) == WithoutId(a, id) + WithoutId(b, id)
    decreases |b|
  {
    if b == [] {
      assert a + b == a;
    } else {
      var init, last := b[..|b| - 1], b[|b| - 1];
      var tail := if HasId(last, id) then [] else [last];
      assert (a + b)[..|a + b| - 1] == a + init;
      assert (a + b)[|a + b| - 1] == last;
      WithoutIdSnoc(a + b, id);
      WithoutIdSnoc(b, id);
      WithoutIdAppend(a, init, id);
      AppendAssoc(WithoutId(a, id), WithoutId(init, id), tail);
    }
  }

  /** A single record is kept exactly when it does not carry the id. */
  lemma WithoutIdSingle(x: Json, id: Json)
    ensures WithoutId([x], id) == if HasId(x, id) then [] else [x]
  {
    assert [x][..0] == [];
  }

  /** Deleting an id no record carries leaves the list as it was. */
  lemma {:induction false} WithoutIdAbsent(items: seq<Json>, id: Json)
    requires forall i :: 0 <= i < |items| ==> !HasId(items[i], id)
    ensures WithoutId(items, id) == items
    decreases |items|
  {
    if items != [] {
      var init, last := items[..|items| - 1], items[|items| - 1];
      assert forall i :: 0 <= i < |init| ==> !HasId(init[i], id) by {
        assert forall i :: 0 <= i < |init| ==> init[i] == items[i];
      }
      WithoutIdAbsent(init, id);
      assert !HasId(last, id);
      WithoutIdSnoc(items, id);
      assert items == init + [last];
    }
  }

  /** Deleting twice is deleting once. */
  lemma WithoutIdIdempotent(items: seq<Json>, id: Json)
    ensures WithoutId(WithoutId(items, id), id) == WithoutId(items, id)
  {
    var r := WithoutId(items, id);
    WithoutIdDrops(items, id);
    assert forall i :: 0 <= i < |r| ==> r[i] in r;
    WithoutIdAbsent(r, id);
  }

  /** Deleting from a list with a new record in front deletes from the rest, and drops the new record only if it carries the id. */
  lemma WithoutIdPrepend(item: Json, items: seq<Json>, id: Json)
    ensures WithoutId(Prepend(item, items), id) == (if HasId(item, id) then [] else [item]) + WithoutId(items, id)
  {
    WithoutIdAppend([item], items, id);
    WithoutIdSingle(item, id);
  }
}
