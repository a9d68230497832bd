/**
 * The list transformations of src/pages/Envs.jsx: adding an environment file
 * in front of the list and deleting one by id, both saved to the page's
 * `sphinx-envs` slot.
 */
module EnvsPage {
  import opened Wrappers
  import opened JsonValue
  import opened Crypto
  import opened VaultState
  import opened RecordLists

  /** The slot the page loads and saves; the vault exports `tamga-envs` instead. */
  const EnvListSlot := "sphinx-envs"

  /** `{ id: Date.now(), projectName, content, createdAt: new Date().toISOString() }` */
  function EnvItem(id: int, projectName: string, content: string, createdAt: string): Json
  {
    JObj([("id", JNum(id)), ("projectName", JStr(projectName)), ("content", JStr(content)),
          ("createdAt", JStr(createdAt))])
  }

  /** What `item.id`, `item.projectName` and `item.content` read back from a new item. */
  lemma EnvItemFields(id: int, projectName: string, content: string, createdAt: string)
    ensures Prop(EnvItem(id, projectName, content, createdAt), "id") == Some(JNum(id))
    ensures Prop(EnvItem(id, projectName, content, createdAt), "projectName") == Some(JStr(projectName))
    ensures Prop(EnvItem(id, projectName, content, createdAt), "content") == Some(JStr(content))
  {
    var m := EnvItem(id, projectName, content, createdAt).members;
    assert m[0].0 != "projectName" && m[0].0 != "content" && m[1].0 != "content";
    assert m[1..][1..][0] == ("content", JStr(content));
    assert Lookup(m[1..][1..], "content") == Some(JStr(content));
    assert Lookup(m[1..], "projectName") == Some(JStr(projectName));
  }

  /** `handleAddEnv({ projectName, content })`: one more item, the new one in front, the old list behind it. */
  function AddedEnv(items: seq<Json>, id: int, projectName: string, content: string, createdAt: string)
    : (r: seq<Json>)
    ensures |r| == |items| + 1 && r[1..] == items
    ensures Prop(r[0], "projectName") == Some(JStr(projectName)) && Prop(r[0], "content") == Some(JStr(content))
    ensures HasId(r[0], JNum(id))
  {
    EnvItemFields(id, projectName, content, createdAt);
    Prepend(EnvItem(id, projectName, content, createdAt), items)
  }

  /** `handleDeleteEnv(id)`: no item with the id remains, every other item does. */
  function DeletedEnv(items: seq<Json>, id: int): (r: seq<Json>)
    ensures forall i :: 0 <= i < |r| ==> !HasId(r[i], JNum(id))
    ensures forall x :: x in items && !HasId(x, JNum(id)) ==> x in r
  {
    var r := WithoutId(items, JNum(id));
    WithoutIdDrops(items, JNum(id));
    assert forall i :: 0 <= i < |r| ==> r[i] in r;
    forall x | x in items && !HasId(x, JNum(id))
      ensures x in r
    {
      WithoutIdKeeps(items, JNum(id), x);
    }
    r
  }

  /** Deleting keeps the other items in their order: a delete applies to each part of a split list alone. */
  lemma DeleteKeepsOrder(front: seq<Json>, back: seq<Json>, id: int)
    ensures DeletedEnv(front + back, id) == DeletedEnv(front, id) + DeletedEnv(back, id)
  {
    WithoutIdAppend(front, back, JNum(id));
  }

  /** Deleting an id no item carries leaves the list unchanged. */
  lemma DeleteAbsent(items: seq<Json>, id: int)
    requires forall i :: 0 <= i < |items| ==> !HasId(items[i], JNum(id))
    ensures DeletedEnv(items, id) == items
  {
    WithoutIdAbsent(items, JNum(id));
  }

  /** Deleting the item just added restores the list when its id was new. */
  lemma AddThenDelete(items: seq<Json>, id: int, projectName: string, content: string, createdAt: string)
    requires forall i :: 0 <= i < |items| ==> !HasId(items[i], JNum(id))
    ensures DeletedEnv(AddedEnv(items, id, projectName, content, createdAt), id) == items
  {
    var item := EnvItem(id, projectName, content, createdAt);
    EnvItemFields(id, projectName, content, createdAt);
    assert HasId(item, JNum(id));
    WithoutIdPrepend(item, items, JNum(id));
    WithoutIdAbsent(items, JNum(id));
  }

  /** `saveEnvs(list)` */
  function SavedEnvs(p: Platform, st: State, list: seq<Json>, iv: Iv): (r: State)
    ensures forall other :: other != EnvListSlot ==> Migration.Slot(r.store, other) == Migration.Slot(st.store, other)
  {
    Updated(p, st, EnvListSlot, JArr(list), iv)
  }

  lemma EnvListSlotNotExported()
    ensures EnvListSlot !in ExportSlots && EnvListSlot != SaltSlot
  {
  }

  /** The page's environment list is never part of a backup. */
  lemma EnvsNeverExported(p: Platform, st: State, list: seq<Json>, iv: Iv, now: int, exportIv: Iv)
    ensures ExportOf(p, SavedEnvs(p, st, list, iv), now, exportIv) == ExportOf(p, st, now, exportIv)
  {
    EnvListSlotNotExported();
    PageSlotsNotExported(p, st, EnvListSlot, JArr(list), now, exportIv, iv);
  }
}
