/**
 * The logic of src/pages/Passwords.jsx: strength scoring of the shown
 * password, charset-based generation, and the saved-password history kept
 * in the `sphinx-passwords` slot of the vault.
 */
module PasswordsPage {
  import opened Wrappers
  import opened JsonValue
  import opened Crypto
  import opened Migration
  import opened VaultState
  import opened RecordLists
  import Merge

  /** The slot the page loads and saves; the vault exports `tamga-passwords` instead. */
  const HistorySlot := "sphinx-passwords"

  /** The generator settings: `length` and the four include-flags. */
  datatype Options = Options(length: nat, uppercase: bool, lowercase: bool, numbers: bool, symbols: bool)

  /** The settings the page starts with. */
  const InitialOptions := Options(16, true, true, true, true)

  // ---------------------------------------------------------------- strength

  /** `{ text, color }` */
  datatype Strength = Strength(text: string, color: string)

  const NoStrength := Strength("", "")
  const Weak := Strength("Weak", "text-red-500")
  const Medium := Strength("Medium", "text-yellow-500")
  const Strong := Strength("Strong", "text-green-500")

  /** One point per criterion met: length at least 12, length at least 16, both cases, digits, symbols. */
  function Score(password: string, o: Options): (s: nat)
    ensures s <= 5
    ensures s == 5 <==> |password| >= 16 && o.uppercase && o.lowercase && o.numbers && o.symbols
  {
    (if |password| >= 12 then 1 else 0) + (if |password| >= 16 then 1 else 0)
    + (if o.uppercase && o.lowercase then 1 else 0) + (if o.numbers then 1 else 0)
    + (if o.symbols then 1 else 0)
  }

  /** The strength the page shows: none for an empty password, otherwise the band its score falls in. */
  function StrengthOf(password: string, o: Options): (r: Strength)
    ensures password == "" <==> r == NoStrength
    ensures r in {NoStrength, Weak, Medium, Strong}
  {
    if password == "" then NoStrength
    else if Score(password, o) <= 2 then Weak
    else if Score(password, o) <= 4 then Medium
    else Strong
  }

  /** A non-empty password is Strong exactly when it has 16 characters and all four classes are enabled. */
  lemma StrongIff(password: string, o: Options)
    requires password != ""
    ensures StrengthOf(password, o) == Strong <==>
      |password| >= 16 && o.uppercase && o.lowercase && o.numbers && o.symbols
  {
  }

  /** With a single class enabled and fewer than 12 characters the password is Weak; with 12 to 15 characters and every class, Medium. */
  lemma StrengthBands(password: string, o: Options)
    requires password != ""
    ensures |password| < 12 && !o.numbers && !o.symbols ==> StrengthOf(password, o) == Weak
    ensures 12 <= |password| < 16 && o.uppercase && o.lowercase && o.numbers && o.symbols
      ==> StrengthOf(password, o) == Medium
  {
  }

  /** `getPasswordStrength()`, counting the criteria in `strength`. */
  method GetPasswordStrength(password: string, o: Options) returns (r: Strength)
    ensures r == StrengthOf(password, o)
  {
    if password == "" {
      return NoStrength;
    }
    var strength := 0;
    if |password| >= 12 { strength := strength + 1; }
    if |password| >= 16 { strength := strength + 1; }
    if o.uppercase && o.lowercase { strength := strength + 1; }
    if o.numbers { strength := strength + 1; }
    if o.symbols { strength := strength + 1; }
    if strength <= 2 {
      return Weak;
    }
    if strength <= 4 {
      return Medium;
    }
    return Strong;
  }

  // -------------------------------------------------------------- generation

  const Lowercase := "abcdefghijklmnopqrstuvwxyz"
  const Uppercase := "ABCDEFGHIJKLMNOPQRSTUVWXYZ"
  const Digits := "0123456789"
  const Symbols := "!@#$%^&*()_+-=[]{}|;:,.<>?"

  /** The enabled character classes, concatenated lower, upper, digits, symbols. */
  function Charset(o: Options): (c: string)
    ensures |c| == (if o.lowercase then 26 else 0) + (if o.uppercase then 26 else 0)
      + (if o.numbers then 10 else 0) + (if o.symbols then 26 else 0)
  {
    (if o.lowercase then Lowercase else "") + (if o.uppercase then Uppercase else "")
    + (if o.numbers then Digits else "") + (if o.symbols then Symbols else "")
  }

  /** The charset is empty exactly when every class is disabled. */
  lemma CharsetEmpty(o: Options)
    ensures Charset(o) == "" <==> !o.lowercase && !o.uppercase && !o.numbers && !o.symbols
  {
  }

  /** The classes appear in their fixed order: the charset starts with the first enabled one. */
  lemma CharsetOrder(o: Options)
    ensures o.lowercase ==> Lowercase <= Charset(o)
    ensures !o.lowercase && o.uppercase ==> Uppercase <= Charset(o)
    ensures !o.lowercase && !o.uppercase && o.numbers ==> Digits <= Charset(o)
    ensures !o.lowercase && !o.uppercase && !o.numbers && o.symbols ==> Charset(o) == Symbols
  {
  }

  /** The `charset +=` steps of `generatePassword`. */
  method BuildCharset(o: Options) returns (charset: string)
    ensures charset == Charset(o)
  {
    ghost var lower, upper := if o.lowercase then Lowercase else "", if o.uppercase then Uppercase else "";
    ghost var digits, symbols := if o.numbers then Digits else "", if o.symbols then Symbols else "";
    charset := "";
    if o.lowercase { charset := charset + Lowercase; }
    assert charset == lower;
    if o.uppercase { charset := charset + Uppercase; }
    assert charset == lower + upper;
    if o.numbers { charset := charset + Digits; }
    assert charset == lower + upper + digits;
    if o.symbols { charset := charset + Symbols; }
    assert charset == lower + upper + digits + symbols;
  }

  /** A value of `Math.random()`. */
  type Fraction = r: real | 0.0 <= r < 1.0

  /** `Math.floor(r * n)`: always an index into a string of length `n`. */
  function Index(r: Fraction, n: nat): (k: nat)
    requires n > 0
    ensures k < n
  {
    var x := r * n as real;
    assert 0.0 <= x < n as real by {
      assert r * n as real < 1.0 * n as real;
    }
    x.Floor
  }

  /** The password drawing `length` characters from `charset`, the i-th at the i-th random draw. */
  function Drawn(charset: string, random: nat -> Fraction, length: nat): (pwd: string)
    requires charset != ""
    ensures |pwd| == length
    ensures forall i :: 0 <= i < length ==> pwd[i] in charset
  {
    var pwd := seq(length, i requires 0 <= i < length => charset[Index(random(i), |charset|)]);
    assert forall i :: 0 <= i < length ==> pwd[i] == charset[Index(random(i), |charset|)];
    pwd
  }

  /**
   * `generatePassword()` with `random` for the successive values of
   * `Math.random()`; `current` is the password shown before. With no class
   * enabled the function returns early and the shown password stays.
   */
  method GeneratePassword(o: Options, current: string, random: nat -> Fraction) returns (password: string)
    ensures Charset(o) == "" ==> password == current
    ensures Charset(o) != "" ==> password == Drawn(Charset(o), random, o.length)
  {
    var charset := BuildCharset(o);
    var newPassword := "";
    if charset == "" {
      return current;
    }
    for i := 0 to o.length
      invariant |newPassword| == i
      invariant forall k :: 0 <= k < i ==> newPassword[k] == charset[Index(random(k), |charset|)]
    {
      newPassword := newPassword + [charset[Index(random(i), |charset|)]];
    }
    password := newPassword;
  }

  /** A generated password has the requested length and only characters of enabled classes. */
  lemma GeneratedFromEnabledClasses(o: Options, random: nat -> Fraction, i: nat)
    requires Charset(o) != "" && i < o.length
    ensures |Drawn(Charset(o), random, o.length)| == o.length
    ensures var c := Drawn(Charset(o), random, o.length)[i];
      (o.lowercase && c in Lowercase) || (o.uppercase && c in Uppercase)
      || (o.numbers && c in Digits) || (o.symbols && c in Symbols)
  {
    var c := Drawn(Charset(o), random, o.length)[i];
    assert c in Charset(o);
  }

  // ----------------------------------------------------------------- history

  /** `{ id: Date.now(), value, createdAt: new Date().toISOString() }` */
  function HistoryEntry(id: int, value: string, createdAt: string): Json
  {
    JObj([("id", JNum(id)), ("value", JStr(value)), ("createdAt", JStr(createdAt))])
  }

  /** What `p.id`, `p.value` and `p.createdAt` read back from a history entry. */
  lemma HistoryEntryFields(id: int, value: string, createdAt: string)
    ensures Prop(HistoryEntry(id, value, createdAt), "id") == Some(JNum(id))
    ensures Prop(HistoryEntry(id, value, createdAt), "value") == Some(JStr(value))
    ensures Prop(HistoryEntry(id, value, createdAt), "createdAt") == Some(JStr(createdAt))
  {
    var m := HistoryEntry(id, value, createdAt).members;
    assert m[0].0 != "value" && m[0].0 != "createdAt" && m[1].0 != "createdAt";
    assert m[1..][1..] == [("createdAt", JStr(createdAt))];
    assert Lookup(m[1..][1..], "createdAt") == Some(JStr(createdAt));
    assert Lookup(m[1..], "value") == Some(JStr(value));
  }

  /** `savePasswordToHistory(pwd)`: the new entry goes in front of the history. */
  function SavedToHistory(history: seq<Json>, id: int, pwd: string, createdAt: string): (r: seq<Json>)
    ensures |r| == |history| + 1 && r[1..] == history
    ensures Prop(r[0], "id") == Some(JNum(id)) && Prop(r[0], "value") == Some(JStr(pwd))
    ensures Prop(r[0], "createdAt") == Some(JStr(createdAt))
  {
    HistoryEntryFields(id, pwd, createdAt);
    Prepend(HistoryEntry(id, pwd, createdAt), history)
  }

  /** `deletePassword(id)` */
  function DeletedFromHistory(history: seq<Json>, id: int): (r: seq<Json>)
    ensures forall x :: x in r ==> x in history && !HasId(x, JNum(id))
    ensures forall x :: x in history && !HasId(x, JNum(id)) ==> x in r
  {
    forall x | x in history && !HasId(x, JNum(id))
      ensures x in WithoutId(history, JNum(id))
    {
      WithoutIdKeeps(history, JNum(id), x);
    }
    WithoutIdDrops(history, JNum(id));
    WithoutId(history, JNum(id))
  }

  /** Deleting the entry just saved gives the old history back when no older entry has its id. */
  lemma SaveThenDelete(history: seq<Json>, id: int, pwd: string, createdAt: string)
    requires forall i :: 0 <= i < |history| ==> !HasId(history[i], JNum(id))
    ensures DeletedFromHistory(SavedToHistory(history, id, pwd, createdAt), id) == history
  {
    HistoryEntryFields(id, pwd, createdAt);
    assert HasId(HistoryEntry(id, pwd, createdAt), JNum(id));
    WithoutIdPrepend(HistoryEntry(id, pwd, createdAt), history, JNum(id));
    WithoutIdAbsent(history, JNum(id));
  }

  /** `savePasswords(list)`: the list is written to the page's slot through `updateData`. */
  function SavedPasswords(p: Platform, st: State, list: seq<Json>, iv: Iv): (r: State)
    ensures forall other :: other != HistorySlot ==> Slot(r.store, other) == Slot(st.store, other)
  {
    Updated(p, st, HistorySlot, JArr(list), iv)
  }

  /** What the page loads: the stored list when `getData` gives a truthy array, the empty start list otherwise. */
  function LoadedPasswords(p: Platform, st: State): (r: seq<Json>)
    ensures st.key == None ==> r == []
  {
    var data := Read(p, st, HistorySlot);
    if Present(data) && data.value.JArr? then data.value.items else []
  }

  /** An unlocked vault gives the page back the list it saved. */
  lemma SaveThenLoad(p: Platform, st: State, list: seq<Json>, iv: Iv)
    requires ValidPlatform(p) && st.key.Some?
    ensures LoadedPasswords(p, SavedPasswords(p, st, list, iv)) == list
  {
    ReadAfterUpdate(p, st, HistorySlot, HistorySlot, JArr(list), iv);
  }

  lemma HistorySlotNotExported()
    ensures HistorySlot !in ExportSlots && HistorySlot != SaltSlot
  {
  }

  /** The saved history is never part of a backup: saving it does not change what `exportData` produces. */
  lemma HistoryNeverExported(p: Platform, st: State, list: seq<Json>, iv: Iv, now: int, exportIv: Iv)
    ensures ExportOf(p, SavedPasswords(p, st, list, iv), now, exportIv) == ExportOf(p, st, now, exportIv)
  {
    HistorySlotNotExported();
    PageSlotsNotExported(p, st, HistorySlot, JArr(list), now, exportIv, iv);
  }

  /**
   * The first mount after the page saved its history into a store without
   * `tamga-passwords` moves the history there, and the page then loads
   * nothing from its own slot.
   */
  lemma HistoryMovedOnFirstMount(initial: Store)
    requires Filled(initial, HistorySlot) && !Filled(initial, Merge.PasswordsSlot)
    ensures Slot(Mounted(initial).store, HistorySlot) == None
    ensures Slot(Mounted(initial).store, Merge.PasswordsSlot) == Slot(initial, HistorySlot)
  {
    MigrationMoves(initial, 3);
    var store := MigrateAll(initial, MigrationPairs);
    assert Slot(store - {AppLockSlot}, HistorySlot) == Slot(store, HistorySlot);
    assert Slot(store - {AppLockSlot}, Merge.PasswordsSlot) == Slot(store, Merge.PasswordsSlot);
  }
}
