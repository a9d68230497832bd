/**
 * The merge step of `importData` in src/context/AuthContext.jsx: incoming
 * items of a collection are appended to the local list unless the
 * collection's duplicate rule matches them against the local value as it was
 * before the merge. The local value is a list, or a string that spreads into
 * its characters.
 */
module Merge {
  import opened Wrappers
  import opened JsonValue

  const OtpSlot := "tamga-otp-uris"
  const PasswordsSlot := "tamga-passwords"
  const EnvsSlot := "tamga-envs"
  const PasskeysSlot := "tamga-passkeys"

  /** The properties that identify a record of a collection compared field by field. */
  function IdentityFields(slot: string): Option<seq<string>>
  {
    if slot == PasswordsSlot then Some(["platform", "username", "value"])
    else if slot == EnvsSlot then Some(["projectName", "content"])
    else if slot == PasskeysSlot then Some(["label", "secret"])
    else None
  }

  /** `a.f === b.f && ...` over the named properties. */
  predicate SameFields(a: Json, b: Json, names: seq<string>)
  {
    forall i :: 0 <= i < |names| ==> StrictEquals(Prop(a, names[i]), Prop(b, names[i]))
  }

  /** The collection's test of one local item against an incoming one: `===` for OTP URIs, the identity fields otherwise. */
  predicate Matches(slot: string, x: Json, item: Json)
  {
    if slot == OtpSlot then StrictEquals(Some(x), Some(item))
    else
      match IdentityFields(slot)
      case Some(names) => SameFields(x, item, names)
      case None => false
  }

  /**
   * `isDuplicate`: `localValue.includes(item)` for OTP URIs, a field-by-field
   * `localValue.some(...)` for passwords, environments and passkeys, and
   * `false` for any other collection; both scan the local list.
   */
  predicate IsDuplicate(slot: string, local: seq<Json>, item: Json)
    decreases |local|
  {
    local != [] && (IsDuplicate(slot, local[..|local| - 1], item) || Matches(slot, local[|local| - 1], item))
  }

  /** The scan finds a duplicate exactly when some local item matches. */
  lemma {:induction false} DuplicateIsSomeMatch(slot: string, local: seq<Json>, item: Json)
    ensures IsDuplicate(slot, local, item) <==> exists i :: 0 <= i < |local| && Matches(slot, local[i], item)
    decreases |local|
  {
    if local != [] {
      var init := local[..|local| - 1];
      DuplicateIsSomeMatch(slot, init, item);
      assert forall i :: 0 <= i < |init| ==> init[i] == local[i];
    }
  }

  /** A collection without a rule never reports a duplicate. */
  lemma NoRuleNoDuplicate(slot: string, local: seq<Json>, item: Json)
    requires slot !in {OtpSlot, PasswordsSlot, EnvsSlot, PasskeysSlot}
    ensures !IsDuplicate(slot, local, item)
  {
    DuplicateIsSomeMatch(slot, local, item);
  }

  /** Objects and arrays are never `includes`-equal to a parsed local item: references differ. */
  lemma OtpObjectsNeverDuplicate(local: seq<Json>, item: Json)
    requires !IsPrimitive(item)
    ensures !IsDuplicate(OtpSlot, local, item)
  {
    DuplicateIsSomeMatch(OtpSlot, local, item);
  }

  /** `s.includes(t)`: `t` occurs in `s`. */
  predicate Includes(s: string, t: string)
    decreases |s|
  {
    t <= s || (s != [] && Includes(s[1..], t))
  }

  /** `includes` finds exactly the texts that start at some position of `s`. */
  lemma {:induction false} IncludesAt(s: string, t: string)
    ensures Includes(s, t) <==> exists i :: 0 <= i <= |s| && t <= s[i..]
    decreases |s|
  {
    assert s[0..] == s;
    if s != [] {
      IncludesAt(s[1..], t);
      if Includes(s[1..], t) {
        var j :| 0 <= j <= |s| - 1 && t <= s[1..][j..];
        assert s[1..][j..] == s[j + 1..];
      }
      if exists i :: 0 <= i <= |s| && t <= s[i..] {
        var i :| 0 <= i <= |s| && t <= s[i..];
        if i > 0 {
          assert s[i..] == s[1..][i - 1..];
        }
      }
    }
  }

  /**
   * The local value the inner loop scans: a list, or a string. A string
   * spreads into its characters, `includes` on it is a substring test, and
   * `some` on it throws.
   */
  datatype Local = Items(list: seq<Json>) | Chars(text: string)

  /**
   * `getData(key) || []` as the loop sees it: a falsy value is the empty
   * list, and `None` where `[...localValue]` throws because the value is a
   * truthy number, boolean or object.
   */
  function LocalOf(value: Option<Json>): (r: Option<Local>)
    ensures r == None <==> Present(value) && !value.value.JArr? && !value.value.JStr?
    ensures r.Some? && r.value.Chars? ==> value == Some(JStr(r.value.text)) && r.value.text != ""
    ensures r.Some? && r.value.Items? && Present(value) ==> value == Some(JArr(r.value.list))
    ensures !Present(value) ==> r == Some(Items([]))
  {
    if !Present(value) then Some(Items([]))
    else
      match value.value
      case JArr(xs) => Some(Items(xs))
      case JStr(t) => Some(Chars(t))
      case _ => None
  }

  /** `[...localValue]`: a string spreads into one-character strings. */
  function Spread(local: Local): seq<Json>
  {
    match local
    case Items(xs) => xs
    case Chars(t) => seq(|t|, i requires 0 <= i < |t| => JStr([t[i]]))
  }

  /**
   * `isDuplicate` against the local value: the list rules for a list; for a
   * string, `includes` of the item's text for OTP URIs and `false` for a
   * collection without a rule.
   */
  predicate Duplicate(slot: string, local: Local, item: Json)
  {
    match local
    case Items(xs) => IsDuplicate(slot, xs, item)
    case Chars(t) => slot == OtpSlot && Includes(t, JsString(item))
  }

  /** `localValue.some(...)` on a string throws at the first incoming item. */
  predicate ScanThrows(slot: string, local: Local, items: seq<Json>)
  {
    local.Chars? && IdentityFields(slot).Some? && items != []
  }

  /** `{ ...item, id }` for an object or array item (an array spreads into index keys); other items stay as they are. */
  function NewItem(item: Json, id: Json): Json
  {
    match item
    case JObj(members) => JObj(SetMember(members, "id", id))
    case JArr(_) => JObj(SetMember(Entries(item), "id", id))
    case _ => item
  }

  /** A pushed object or array carries the fresh id; a primitive is pushed as it is. */
  lemma NewItemId(item: Json, id: Json)
    ensures !IsPrimitive(item) ==> NewItem(item, id).JObj? && Lookup(NewItem(item, id).members, "id") == Some(id)
    ensures IsPrimitive(item) ==> NewItem(item, id) == item
  {
    if !IsPrimitive(item) {
      SetMemberLookup(if item.JObj? then item.members else Entries(item), "id", id, "id");
    }
  }

  /** The incoming items that are not duplicates of the local value, in incoming order. */
  function Kept(slot: string, local: Local, items: seq<Json>): seq<Json>
    decreases |items|
  {
    if items == [] then []
    else
      var last := items[|items| - 1];
      Kept(slot, local, items[..|items| - 1]) + (if Duplicate(slot, local, last) then [] else [last])
  }

  /** The kept items in order, each given the next fresh id: the last of them `ids(next + |kept| - 1)`. */
  function Numbered(kept: seq<Json>, ids: nat -> Json, next: nat): (r: seq<Json>)
    ensures |r| == |kept|
    decreases |kept|
  {
    if kept == [] then []
    else Numbered(kept[..|kept| - 1], ids, next) + [NewItem(kept[|kept| - 1], ids(next + |kept| - 1))]
  }

  /** What the loop pushes onto `merged`: the kept items, each object given the next fresh id. */
  function Appended(slot: string, local: Local, items: seq<Json>, ids: nat -> Json, next: nat): seq<Json>
  {
    Numbered(Kept(slot, local, items), ids, next)
  }

  /** Numbering one more kept item gives it the id after the last one used. */
  lemma NumberedSnoc(kept: seq<Json>, x: Json, ids: nat -> Json, next: nat)
    ensures Numbered(kept + [x], ids, next) == Numbered(kept, ids, next) + [NewItem(x, ids(next + |kept|))]
  {
    var longer := kept + [x];
    assert longer != [] && longer[..|longer| - 1] == kept && longer[|longer| - 1] == x;
  }

  /** The i-th kept item is pushed as itself with the id `ids(next + i)`. */
  lemma {:induction false} NumberedAt(kept: seq<Json>, ids: nat -> Json, next: nat, i: nat)
    requires i < |kept|
    ensures Numbered(kept, ids, next)[i] == NewItem(kept[i], ids(next + i))
    decreases |kept|
  {
    var init := kept[..|kept| - 1];
    if i < |init| {
      NumberedAt(init, ids, next, i);
      assert Numbered(kept, ids, next)[i] == Numbered(init, ids, next)[i];
      assert init[i] == kept[i];
    }
  }

  lemma KeptSnoc(slot: string, local: Local, items: seq<Json>)
    requires items != []
    ensures Kept(slot, local, items) == Kept(slot, local, items[..|items| - 1])
      + (if Duplicate(slot, local, items[|items| - 1]) then [] else [items[|items| - 1]])
  {
  }

  /** Keeping is a filter: it distributes over concatenation and tests each item alone. */
  lemma {:induction false} KeptAppend(slot: string, local: Local, a: seq<Json>, b: seq<Json>)
    ensures Kept(slot, local, a + b) == Kept(slot, local, a) + Kept(slot, local, b)
    decreases |b|
  {
    if b == [] {
      assert a + b == a;
    } else {
      assert (a + b)[..|a + b| - 1] == a + b[..|b| - 1];
      assert (a + b)[|a + b| - 1] == b[|b| - 1];
      KeptAppend(slot, local, a, b[..|b| - 1]);
    }
  }

  lemma KeptSingle(slot: string, local: Local, item: Json)
    ensures Kept(slot, local, [item]) == if Duplicate(slot, local, item) then [] else [item]
  {
    assert [item][..0] == [];
  }

  /** Every kept item is an incoming item that is not a duplicate. */
  lemma {:induction false} KeptAreFresh(slot: string, local: Local, items: seq<Json>)
    ensures forall x :: x in Kept(slot, local, items) ==> x in items && !Duplicate(slot, local, x)
    ensures |Kept(slot, local, items)| <= |items|
    decreases |items|
  {
    if items != [] {
      KeptAreFresh(slot, local, items[..|items| - 1]);
      assert forall x :: x in items[..|items| - 1] ==> x in items;
    }
  }

  /** Without a duplicate rule every incoming item is appended. */
  lemma {:induction false} NoRuleKeepsAll(slot: string, local: Local, items: seq<Json>)
    requires slot !in {OtpSlot, PasswordsSlot, EnvsSlot, PasskeysSlot}
    ensures Kept(slot, local, items) == items
    decreases |items|
  {
    if items != [] {
      NoRuleKeepsAll(slot, local, items[..|items| - 1]);
      if local.Items? {
        NoRuleNoDuplicate(slot, local.list, items[|items| - 1]);
      }
      assert items == items[..|items| - 1] + [items[|items| - 1]];
    }
  }

  /**
   * Duplicates are judged against the local value only: an item that occurs
   * twice in the backup and not locally is appended twice.
   */
  lemma RepeatedIncomingKept(slot: string, local: Local, item: Json)
    requires !Duplicate(slot, local, item)
    ensures Kept(slot, local, [item, item]) == [item, item]
  {
    KeptAppend(slot, local, [item], [item]);
    KeptSingle(slot, local, item);
    assert [item] + [item] == [item, item];
  }

  /** One turn of the inner loop: `isDuplicate(item)`, and when it is not, `merged.push` of the item with the next id. */
  method MergeItem(slot: string, local: Local, items: seq<Json>, ids: nat -> Json, next: nat,
                   merged: seq<Json>, added: nat)
    returns (pushed: seq<Json>, isDuplicate: bool)
    requires items != []
    requires merged == Spread(local) + Appended(slot, local, items[..|items| - 1], ids, next)
    requires added == |Kept(slot, local, items[..|items| - 1])|
    ensures pushed == Spread(local) + Appended(slot, local, items, ids, next)
    ensures isDuplicate == Duplicate(slot, local, items[|items| - 1])
    ensures |Kept(slot, local, items)| == added + (if isDuplicate then 0 else 1)
  {
    var init, item := items[..|items| - 1], items[|items| - 1];
    isDuplicate := Duplicate(slot, local, item);
    KeptSnoc(slot, local, items);
    if isDuplicate {
      assert Kept(slot, local, items) == Kept(slot, local, init);
      assert Appended(slot, local, items, ids, next) == Appended(slot, local, init, ids, next);
      pushed := merged;
    } else {
      var newItem := NewItem(item, ids(next + added));
      ghost var kept := Kept(slot, local, init);
      NumberedSnoc(kept, item, ids, next);
      assert Appended(slot, local, items, ids, next) == Appended(slot, local, init, ids, next) + [newItem];
      pushed := merged + [newItem];
      AppendAssoc(Spread(local), Appended(slot, local, init, ids, next), [newItem]);
    }
  }

  /**
   * The inner `for (const item of incomingValue)` loop with its
   * `mergeStats`: `None` where the scan of a string throws, which it does at
   * the first item, before anything is pushed.
   */
  method MergeItems(slot: string, local: Local, incoming: seq<Json>, ids: nat -> Json, next: nat)
    returns (merged: Option<seq<Json>>, added: nat, skipped: nat)
    ensures merged.None? <==> ScanThrows(slot, local, incoming)
    ensures merged.Some? ==> merged.value == Spread(local) + Appended(slot, local, incoming, ids, next)
    ensures merged.Some? ==> added == |Kept(slot, local, incoming)| && added + skipped == |incoming|
  {
    added, skipped := 0, 0;
    if ScanThrows(slot, local, incoming) {
      return None, added, skipped;
    }
    var list := Spread(local);
    assert Appended(slot, local, incoming[..0], ids, next) == [];
    for k := 0 to |incoming|
      invariant list == Spread(local) + Appended(slot, local, incoming[..k], ids, next)
      invariant added == |Kept(slot, local, incoming[..k])| && added + skipped == k
    {
      assert incoming[..k + 1][..k] == incoming[..k];
      var isDuplicate;
      list, isDuplicate := MergeItem(slot, local, incoming[..k + 1], ids, next, list, added);
      if isDuplicate {
        skipped := skipped + 1;
      } else {
        added := added + 1;
      }
    }
    assert incoming[..|incoming|] == incoming;
    return Some(list), added, skipped;
  }

  /**
   * A string local value for OTP URIs: `[..."abc"]` is `["a", "b", "c"]`,
   * `"b"` is a substring and is skipped, and `"x"` is appended.
   */
  lemma StringLocalOtpMerge(ids: nat -> Json, next: nat)
    ensures Spread(Chars("abc")) + Appended(OtpSlot, Chars("abc"), [JStr("b"), JStr("x")], ids, next)
         == [JStr("a"), JStr("b"), JStr("c"), JStr("x")]
  {
    var items := [JStr("b"), JStr("x")];
    SubstringB();
    NoSubstringX();
    KeptSnoc(OtpSlot, Chars("abc"), items);
    assert items[..1] == [JStr("b")];
    KeptSingle(OtpSlot, Chars("abc"), JStr("b"));
    assert Kept(OtpSlot, Chars("abc"), items) == [JStr("x")];
    assert [JStr("x")][..0] == [];
  }

  lemma SubstringB()
    ensures Duplicate(OtpSlot, Chars("abc"), JStr("b"))
  {
    assert "b" <= "abc"[1..];
  }

  lemma NoSubstringX()
    ensures !Duplicate(OtpSlot, Chars("abc"), JStr("x"))
  {
    IncludesAt("abc", "x");
    forall i | 0 <= i <= 3
      ensures !("x" <= "abc"[i..])
    {
      if i < 3 {
        assert "abc"[i..][0] == "abc"[i] != 'x';
      }
    }
  }
}
