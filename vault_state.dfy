/**
 * The vault of src/context/AuthContext.jsx as a state machine: the store
 * (`localStorage`), the React state `hasPassword`, `isLocked` and
 * `encryptionKey`, and one function per operation giving the state after it.
 * The `Vault` class (module AuthContext) runs the operations step by step and
 * is proved to reach exactly these states.
 */
module VaultState {
  import opened Wrappers
  import opened Bits
  import opened JsonValue
  import opened Crypto
  import opened Migration
  import Merge

  const SaltSlot := "tamga-salt"
  const ValidatorSlot := "tamga-validator"
  const AppLockSlot := "sphinx-app-lock"
  const ValidToken := "tamga-valid-token"
  const LegacyToken := "sphinx-valid-token"
  const BackupVersion := 2

  /** The collections a backup carries (`keysToExport`). */
  const ExportSlots: seq<string> := [Merge.OtpSlot, Merge.PasswordsSlot, Merge.PasskeysSlot, Merge.EnvsSlot]

  datatype State = State(store: Store, hasPassword: bool, isLocked: bool, key: Option<Key>)

  /**
   * What every reachable state satisfies: a locked vault has a password, a
   * key is held exactly when the vault has a password and is unlocked, and
   * a vault has a password exactly when salt and validator are stored.
   */
  predicate Consistent(st: State)
  {
    && (st.isLocked ==> st.hasPassword)
    && (st.key.Some? <==> st.hasPassword && !st.isLocked)
    && (st.hasPassword <==> Filled(st.store, SaltSlot) && Filled(st.store, ValidatorSlot))
  }

  // ---------------------------------------------------------------- mount

  /**
   * The provider after its mount effect: the store migrated, and a vault with
   * salt and validator locked; otherwise the stale app-lock flag is removed.
   */
  function Mounted(initial: Store): (st: State)
    ensures Consistent(st) && st.key == None
    ensures st.isLocked == st.hasPassword
  {
    var store := MigrateAll(initial, MigrationPairs);
    if Filled(store, SaltSlot) && Filled(store, ValidatorSlot) then State(store, true, true, None)
    else
      assert Slot(store - {AppLockSlot}, SaltSlot) == Slot(store, SaltSlot);
      assert Slot(store - {AppLockSlot}, ValidatorSlot) == Slot(store, ValidatorSlot);
      State(store - {AppLockSlot}, false, false, None)
  }

  /** A vault configured under the old `sphinx-*` names is found configured, and locked, after the upgrade. */
  lemma LegacyVaultStaysLocked(initial: Store)
    requires Filled(initial, "sphinx-salt") || Filled(initial, SaltSlot)
    requires Filled(initial, "sphinx-validator") || Filled(initial, ValidatorSlot)
    ensures Mounted(initial).hasPassword && Mounted(initial).isLocked
  {
    MigrationMoves(initial, 0);
    MigrationMoves(initial, 1);
  }

  /**
   * After the upgrade, a vault configured under the old names opens with its
   * password: the moved validator still holds the old token, which `unlock`
   * accepts.
   */
  lemma LegacyVaultUnlocks(p: Platform, initial: Store, password: string, salt: seq<byte>)
    requires Filled(initial, "sphinx-salt") && Filled(initial, "sphinx-validator")
    requires !Filled(initial, SaltSlot) && !Filled(initial, ValidatorSlot)
    requires p.parse(initial["sphinx-salt"]).Some? && JsonToBytes(p.parse(initial["sphinx-salt"]).value) == Some(salt)
    requires Decrypt(p, initial["sphinx-validator"], DeriveKey(password, salt)) == Some(JStr(LegacyToken))
    ensures UnlockVerdict(p, Mounted(initial).store, password) == Accepted(DeriveKey(password, salt))
  {
    MigrationMoves(initial, 0);
    MigrationMoves(initial, 1);
    var store := Mounted(initial).store;
    assert store[SaltSlot] == initial["sphinx-salt"];
    assert store[ValidatorSlot] == initial["sphinx-validator"];
    assert StoredSalt(p, store) == Some(salt);
  }

  // -------------------------------------------------------- set and unlock

  /** `setMasterPassword(password)` with the salt and nonce it draws. */
  function SetPassword(p: Platform, st: State, password: string, salt: Salt, iv: Iv): State
  {
    var key := DeriveKey(password, salt);
    var store := st.store[SaltSlot := p.stringify(BytesToJson(salt))][ValidatorSlot := Encrypt(p, JStr(ValidToken), key, iv)];
    State(store, true, false, Some(key))
  }

  /** The salt `unlock` reads back: `None` where `JSON.parse` or `new Uint8Array` throws. */
  function StoredSalt(p: Platform, store: Store): Option<seq<byte>>
  {
    if SaltSlot !in store then None
    else
      match p.parse(store[SaltSlot])
      case None => None
      case Some(j) => JsonToBytes(j)
  }

  datatype Verdict = NotConfigured | Accepted(key: Key) | Rejected

  /**
   * What `unlock(password)` decides: without salt or validator it answers
   * true and does nothing; otherwise it accepts the derived key exactly when
   * the validator opens to one of the two tokens, and rejects in every other
   * case, including a salt that does not parse.
   */
  function UnlockVerdict(p: Platform, store: Store, password: string): (v: Verdict)
    ensures v == NotConfigured <==> !Filled(store, SaltSlot) || !Filled(store, ValidatorSlot)
    ensures v.Accepted? ==>
      && StoredSalt(p, store).Some?
      && v.key == DeriveKey(password, StoredSalt(p, store).value)
      && Decrypt(p, store[ValidatorSlot], v.key) in {Some(JStr(ValidToken)), Some(JStr(LegacyToken))}
    ensures Filled(store, SaltSlot) && Filled(store, ValidatorSlot) && StoredSalt(p, store).Some?
      && Decrypt(p, store[ValidatorSlot], DeriveKey(password, StoredSalt(p, store).value))
         in {Some(JStr(ValidToken)), Some(JStr(LegacyToken))}
      ==> v == Accepted(DeriveKey(password, StoredSalt(p, store).value))
  {
    if !Filled(store, SaltSlot) || !Filled(store, ValidatorSlot) then NotConfigured
    else
      match StoredSalt(p, store)
      case None => Rejected
      case Some(salt) =>
        var key := DeriveKey(password, salt);
        var validation := Decrypt(p, store[ValidatorSlot], key);
        if validation == Some(JStr(ValidToken)) || validation == Some(JStr(LegacyToken)) then Accepted(key)
        else Rejected
  }

  /** The state after `unlock`: only an accepted key changes it. */
  function Unlocked(st: State, v: Verdict): (r: State)
    ensures v.Accepted? ==> r.key == Some(v.key) && !r.isLocked
    ensures !v.Accepted? ==> r == st
    ensures r.store == st.store && r.hasPassword == st.hasPassword
  {
    if v.Accepted? then st.(key := Some(v.key), isLocked := false) else st
  }

  /** The boolean `unlock` returns. */
  function UnlockAnswer(v: Verdict): bool
  {
    !v.Rejected?
  }

  /** The password that was set unlocks the vault with the key it derived; any other password is rejected. */
  lemma SetThenUnlock(p: Platform, st: State, password: string, other: string, salt: Salt, iv: Iv)
    requires ValidPlatform(p)
    ensures UnlockVerdict(p, SetPassword(p, st, password, salt, iv).store, password) == Accepted(DeriveKey(password, salt))
    ensures other != password ==> UnlockVerdict(p, SetPassword(p, st, password, salt, iv).store, other) == Rejected
  {
    var store := SetPassword(p, st, password, salt, iv).store;
    var key := DeriveKey(password, salt);
    assert store[SaltSlot] == p.stringify(BytesToJson(salt));
    BytesRoundTrip(salt);
    assert StoredSalt(p, store) == Some(salt);
    DecryptEncrypt(p, JStr(ValidToken), key, iv);
    if other != password {
      DecryptWrongKey(p, JStr(ValidToken), key, DeriveKey(other, salt), iv);
    }
  }

  /** `lock()`: only a vault with a password locks, and locking drops the key. */
  function Locked(st: State): (r: State)
    ensures !st.hasPassword ==> r == st
    ensures st.hasPassword ==> r.isLocked && r.key == None && r.store == st.store && r.hasPassword
  {
    if st.hasPassword then st.(isLocked := true, key := None) else st
  }

  lemma LockIdempotent(st: State)
    ensures Locked(Locked(st)) == Locked(st)
  {
  }

  /** Locking a vault whose password was just set and unlocking it again with that password gives the same state back. */
  lemma SetLockUnlock(p: Platform, st: State, password: string, salt: Salt, iv: Iv)
    requires ValidPlatform(p)
    ensures var configured := SetPassword(p, st, password, salt, iv);
      Unlocked(Locked(configured), UnlockVerdict(p, Locked(configured).store, password)) == configured
  {
    SetThenUnlock(p, st, password, password, salt, iv);
  }

  /** `removeMasterPassword()`: `localStorage.clear()` and every state value reset. */
  const Cleared := State(map[], false, false, None)

  // ------------------------------------------------------------ data access

  /** `updateData(name, value)` with the nonce it draws; without a key nothing is written. */
  function Updated(p: Platform, st: State, name: string, value: Json, iv: Iv): (r: State)
    ensures st.key == None ==> r == st
    ensures r.hasPassword == st.hasPassword && r.isLocked == st.isLocked && r.key == st.key
    ensures forall other :: other != name ==> Slot(r.store, other) == Slot(st.store, other)
  {
    match st.key
    case None => st
    case Some(k) => st.(store := st.store[name := Encrypt(p, value, k, iv)])
  }

  /** `getData(name)`: `None` for `null`. */
  function Read(p: Platform, st: State, name: string): (r: Option<Json>)
    ensures st.key == None || !Filled(st.store, name) ==> r == None
  {
    match st.key
    case None => None
    case Some(k) => if Filled(st.store, name) then Decrypt(p, st.store[name], k) else None
  }

  /** Reading a slot gives back what was last written to it, and writing one slot leaves every other reading alone. */
  lemma ReadAfterUpdate(p: Platform, st: State, name: string, other: string, value: Json, iv: Iv)
    requires ValidPlatform(p) && st.key.Some?
    ensures Read(p, Updated(p, st, name, value, iv), name) == Some(value)
    ensures other != name ==> Read(p, Updated(p, st, name, value, iv), other) == Read(p, st, other)
  {
    DecryptEncrypt(p, value, st.key.value, iv);
    var r := Updated(p, st, name, value, iv);
    assert Slot(r.store, other) == Slot(st.store, other) || other == name;
  }

  lemma UpdatedConsistent(p: Platform, st: State, name: string, value: Json, iv: Iv)
    requires ValidPlatform(p) && Consistent(st)
    ensures Consistent(Updated(p, st, name, value, iv))
  {
    var r := Updated(p, st, name, value, iv);
    if st.key.Some? {
      assert r.store[name] != "";
      assert Filled(r.store, SaltSlot) && Filled(r.store, ValidatorSlot);
    }
  }

  lemma OperationsConsistent(p: Platform, st: State, password: string, salt: Salt, iv: Iv)
    requires ValidPlatform(p) && Consistent(st)
    ensures Consistent(SetPassword(p, st, password, salt, iv))
    ensures Consistent(Unlocked(st, UnlockVerdict(p, st.store, password)))
    ensures Consistent(Locked(st))
    ensures Consistent(Cleared)
  {
    var configured := SetPassword(p, st, password, salt, iv);
    assert configured.store[SaltSlot] != "" && configured.store[ValidatorSlot] != "";
  }

  // ----------------------------------------------------------------- export

  /** `exportObj.data`: the collections among `names` whose decrypted value is truthy, in order. */
  function ExportMembers(p: Platform, st: State, names: seq<string>): seq<(string, Json)>
    decreases |names|
  {
    if names == [] then []
    else
      var name := names[|names| - 1];
      var v := Read(p, st, name);
      ExportMembers(p, st, names[..|names| - 1]) + (if Present(v) then [(name, v.value)] else [])
  }

  /** A collection is in the backup exactly when it is exported and reads back truthy; it carries what it reads. */
  lemma {:induction false} ExportMembersExact(p: Platform, st: State, names: seq<string>, name: string, v: Json)
    ensures (name, v) in ExportMembers(p, st, names) <==> name in names && Read(p, st, name) == Some(v) && Truthy(v)
    decreases |names|
  {
    if names != [] {
      var init := names[..|names| - 1];
      ExportMembersExact(p, st, init, name, v);
      assert names == init + [names[|names| - 1]];
      if (name, v) in ExportMembers(p, st, init) {
        assert name in init;
      }
    }
  }

  /** The payload `exportObj`. */
  function Payload(members: seq<(string, Json)>, now: int): Json
  {
    JObj([("version", JNum(BackupVersion)), ("timestamp", JNum(now)), ("data", JObj(members))])
  }

  /** The object the backup file holds: `{ encrypted, salt }`. */
  function BackupObject(encrypted: string, salt: Json): Json
  {
    JObj([("encrypted", JStr(encrypted)), ("salt", salt)])
  }

  /** What `exportData()` yields: `null`, an exception (the stored salt is not JSON), or the backup text. */
  datatype ExportResult = NoBackup | ExportThrows | Backup(text: string)

  function ExportOf(p: Platform, st: State, now: int, iv: Iv): (r: ExportResult)
    ensures r == NoBackup <==> st.key == None || !Filled(st.store, SaltSlot)
  {
    if st.key == None || !Filled(st.store, SaltSlot) then NoBackup
    else
      var encrypted := Encrypt(p, Payload(ExportMembers(p, st, ExportSlots), now), st.key.value, iv);
      match p.parse(st.store[SaltSlot])
      case None => ExportThrows
      case Some(salt) => Backup(p.stringify(BackupObject(encrypted, salt)))
  }

  /** The backup text holds the stored salt and a payload of version 2 that opens under the vault's key. */
  lemma ExportDecrypts(p: Platform, st: State, now: int, iv: Iv)
    requires ValidPlatform(p) && ExportOf(p, st, now, iv).Backup?
    ensures var b := p.parse(ExportOf(p, st, now, iv).text);
      && b.Some?
      && Prop(b.value, "salt") == p.parse(st.store[SaltSlot])
      && Prop(b.value, "encrypted").Some? && Prop(b.value, "encrypted").value.JStr?
      && Decrypt(p, Prop(b.value, "encrypted").value.s, st.key.value) == Some(Payload(ExportMembers(p, st, ExportSlots), now))
  {
    var payload := Payload(ExportMembers(p, st, ExportSlots), now);
    var encrypted := Encrypt(p, payload, st.key.value, iv);
    var salt := p.parse(st.store[SaltSlot]).value;
    BackupFields(encrypted, salt);
    DecryptEncrypt(p, payload, st.key.value, iv);
  }

  lemma BackupFields(encrypted: string, salt: Json)
    ensures Prop(BackupObject(encrypted, salt), "encrypted") == Some(JStr(encrypted))
    ensures Prop(BackupObject(encrypted, salt), "salt") == Some(salt)
  {
    var members := BackupObject(encrypted, salt).members;
    assert members[1..] == [("salt", salt)];
    assert Lookup(members[1..], "salt") == Some(salt);
  }

  /**
   * Writing any slot outside the four `tamga-*` collections and the salt
   * leaves the backup unchanged: what the Passwords and Envs pages save
   * under `sphinx-passwords` and `sphinx-envs` never reaches a backup.
   */
  lemma PageSlotsNotExported(p: Platform, st: State, name: string, value: Json, now: int, iv: Iv, iv': Iv)
    requires name !in ExportSlots && name != SaltSlot
    ensures ExportOf(p, Updated(p, st, name, value, iv'), now, iv) == ExportOf(p, st, now, iv)
  {
    var r := Updated(p, st, name, value, iv');
    ExportMembersFrame(p, st, r, ExportSlots);
    assert Slot(r.store, SaltSlot) == Slot(st.store, SaltSlot);
  }

  lemma {:induction false} ExportMembersFrame(p: Platform, a: State, b: State, names: seq<string>)
    requires forall n :: n in names ==> Read(p, a, n) == Read(p, b, n)
    ensures ExportMembers(p, a, names) == ExportMembers(p, b, names)
    decreases |names|
  {
    if names != [] {
      ExportMembersFrame(p, a, b, names[..|names| - 1]);
      assert names[|names| - 1] in names;
    }
  }

  // ----------------------------------------------------------------- import

  /** What `importData` decrypts: `backup.encrypted` (a string as is, anything else as JSON text), or else the whole file text. */
  function EncryptedContent(p: Platform, backup: Json, text: string): string
  {
    var e := Prop(backup, "encrypted");
    if Present(e) then (if e.value.JStr? then e.value.s else p.stringify(e.value)) else text
  }

  /** A password argument that is truthy: given and not empty. */
  predicate Given(password: Option<string>)
  {
    password.Some? && password.value != ""
  }

  /** The fresh-mode salt source: `backup.salt` when truthy, else a truthy `manualSalt`, else none. */
  function FreshSalt(backup: Json, manualSalt: Option<Json>): (r: Option<Json>)
    ensures Present(Prop(backup, "salt")) ==> r == Prop(backup, "salt")
    ensures !Present(Prop(backup, "salt")) ==> r == (if Present(manualSalt) then manualSalt else None)
  {
    if Present(Prop(backup, "salt")) then Prop(backup, "salt")
    else if Present(manualSalt) then manualSalt
    else None
  }

  /** The restore loop: every entry re-encrypted under the key, in order, the `i`-th with nonce `ivs(next + i)`. */
  function Restore(p: Platform, store: Store, entries: seq<(string, Json)>, key: Key, ivs: nat -> Iv, next: nat): Store
    decreases |entries|
  {
    if entries == [] then store
    else Restore(p, store[entries[0].0 := Encrypt(p, entries[0].1, key, ivs(next))], entries[1..], key, ivs, next + 1)
  }

  predicate DistinctNames(entries: seq<(string, Json)>)
  {
    forall i, j :: 0 <= i < j < |entries| ==> entries[i].0 != entries[j].0
  }

  function Names(entries: seq<(string, Json)>): set<string>
  {
    set i | 0 <= i < |entries| :: entries[i].0
  }

  /** Splitting off the first entry of a list with distinct names. */
  lemma NamesCons(entries: seq<(string, Json)>)
    requires entries != [] && DistinctNames(entries)
    ensures Names(entries) == {entries[0].0} + Names(entries[1..])
    ensures DistinctNames(entries[1..]) && entries[0].0 !in Names(entries[1..])
  {
    var name, rest := entries[0].0, entries[1..];
    forall i, j | 0 <= i < j < |rest|
      ensures rest[i].0 != rest[j].0
    {
      assert rest[i] == entries[i + 1] && rest[j] == entries[j + 1];
    }
    forall n | n in Names(entries)
      ensures n in {name} + Names(rest)
    {
      var i :| 0 <= i < |entries| && entries[i].0 == n;
      if i > 0 {
        assert rest[i - 1] == entries[i];
      }
    }
    forall n | n in Names(rest)
      ensures n in Names(entries) && n != name
    {
      var i :| 0 <= i < |rest| && rest[i].0 == n;
      assert entries[i + 1] == rest[i];
    }
  }

  /** After restoring, every entry's slot opens to the entry's value, and every other slot is as before. */
  lemma {:induction false} RestoreWrites(p: Platform, store: Store, entries: seq<(string, Json)>, key: Key, ivs: nat -> Iv, next: nat)
    requires DistinctNames(entries)
    ensures var r := Restore(p, store, entries, key, ivs, next);
      forall i :: 0 <= i < |entries| ==> entries[i].0 in r && r[entries[i].0] == Encrypt(p, entries[i].1, key, ivs(next + i))
    ensures forall n :: n !in Names(entries) ==> Slot(Restore(p, store, entries, key, ivs, next), n) == Slot(store, n)
    decreases |entries|
  {
    if entries != [] {
      NamesCons(entries);
      var (name, value) := entries[0];
      var written := store[name := Encrypt(p, value, key, ivs(next))];
      var rest := entries[1..];
      RestoreWrites(p, written, rest, key, ivs, next + 1);
      var r := Restore(p, written, rest, key, ivs, next + 1);
      assert r == Restore(p, store, entries, key, ivs, next);
      assert Slot(r, name) == Slot(written, name);
      forall i | 0 <= i < |entries|
        ensures entries[i].0 in r && r[entries[i].0] == Encrypt(p, entries[i].1, key, ivs(next + i))
      {
        if i > 0 {
          assert rest[i - 1] == entries[i];
          assert next + 1 + (i - 1) == next + i;
        }
      }
    }
  }

  /**
   * Fresh-install restoration: no password, no salt, a salt that is a
   * negative number, or a payload that does not open or lacks `data` give
   * false and change nothing; otherwise the entries are restored, then salt
   * and validator, and the vault ends unlocked under the derived key.
   */
  function ImportFresh(p: Platform, st: State, backup: Json, text: string, password: Option<string>,
                       manualSalt: Option<Json>, ivs: nat -> Iv): (r: (bool, State))
    ensures !r.0 ==> r.1 == st
    ensures !Given(password) || FreshSalt(backup, manualSalt) == None ==> !r.0
    ensures r.0 ==>
      && Given(password) && FreshSalt(backup, manualSalt).Some?
      && JsonToBytes(FreshSalt(backup, manualSalt).value).Some?
      && r.1.hasPassword && !r.1.isLocked
      && r.1.key == Some(DeriveKey(password.value, JsonToBytes(FreshSalt(backup, manualSalt).value).value))
    ensures Given(password) && FreshSalt(backup, manualSalt).Some? && JsonToBytes(FreshSalt(backup, manualSalt).value).Some? ==>
      (r.0 <==>
        var d := Decrypt(p, EncryptedContent(p, backup, text),
                         DeriveKey(password.value, JsonToBytes(FreshSalt(backup, manualSalt).value).value));
        Present(d) && Present(Prop(d.value, "data")))
  {
    if !Given(password) then (false, st)
    else
      match FreshSalt(backup, manualSalt)
      case None => (false, st)
      case Some(saltSource) =>
        match JsonToBytes(saltSource)
        case None => (false, st)
        case Some(salt) =>
          var key := DeriveKey(password.value, salt);
          var decrypted := Decrypt(p, EncryptedContent(p, backup, text), key);
          if !Present(decrypted) || !Present(Prop(decrypted.value, "data")) then (false, st)
          else
            var entries := Entries(Prop(decrypted.value, "data").value);
            var restored := Restore(p, st.store, entries, key, ivs, 0);
            var validator := Encrypt(p, JStr(ValidToken), key, ivs(|entries|));
            (true, State(restored[SaltSlot := p.stringify(BytesToJson(salt))][ValidatorSlot := validator], true, false, Some(key)))
  }

  /** The key merge mode decrypts the backup with. */
  datatype KeyChoice = KeyThrows | NoKey | UseKey(key: Key)

  /** `backup.salt || manualSalt` with a given password derives a key; otherwise the vault's current key is used. */
  function MergeKey(st: State, backup: Json, password: Option<string>, manualSalt: Option<Json>): (r: KeyChoice)
    ensures !Given(password) ==> r == (if st.key.Some? then UseKey(st.key.value) else NoKey)
  {
    var effective := if Present(Prop(backup, "salt")) then Prop(backup, "salt") else manualSalt;
    if Given(password) && Present(effective) then
      match JsonToBytes(effective.value)
      case None => KeyThrows
      case Some(salt) => UseKey(DeriveKey(password.value, salt))
    else if st.key.Some? then UseKey(st.key.value)
    else NoKey
  }

  /**
   * One entry of the merge loop with nonce `iv` and the ids from `nextId` on:
   * the state after it and the next unused id, or `None` where it throws. A
   * non-array value overwrites its slot; an array is merged into the local
   * value (a falsy local value counts as `[]`, a string spreads into its
   * characters); a local number, boolean or object makes the spread throw,
   * and so does a local string in a collection compared field by field. Reads
   * and writes use the vault's current key, not the key the backup was
   * decrypted with.
   */
  function MergeStep(p: Platform, st: State, entry: (string, Json), iv: Iv, ids: nat -> Json, nextId: nat)
    : (r: Option<(State, nat)>)
    ensures r.Some? ==> r.value.1 >= nextId
  {
    var (name, incoming) := entry;
    if !incoming.JArr? then Some((Updated(p, st, name, incoming, iv), nextId))
    else
      match Merge.LocalOf(Read(p, st, name))
      case None => None
      case Some(local) =>
        if Merge.ScanThrows(name, local, incoming.items) then None
        else
          var appended := Merge.Appended(name, local, incoming.items, ids, nextId);
          Some((Updated(p, st, name, JArr(Merge.Spread(local) + appended), iv), nextId + |appended|))
  }

  /**
   * The merge loop over `Object.entries(decryptedObj.data)`, entry `i`
   * using nonce `ivs(next + i)`. A throwing entry ends the import with false
   * and keeps what the earlier entries wrote.
   */
  function MergeEntries(p: Platform, st: State, entries: seq<(string, Json)>, ivs: nat -> Iv,
                        ids: nat -> Json, next: nat, nextId: nat): (bool, State)
    decreases |entries|
  {
    if entries == [] then (true, st)
    else
      match MergeStep(p, st, entries[0], ivs(next), ids, nextId)
      case None => (false, st)
      case Some((after, used)) => MergeEntries(p, after, entries[1..], ivs, ids, next + 1, used)
  }

  /** `importData(text, password, manualSalt)` */
  function ImportOf(p: Platform, st: State, text: string, password: Option<string>, manualSalt: Option<Json>,
                    ivs: nat -> Iv, ids: nat -> Json): (bool, State)
  {
    match p.parse(text)
    case None => (false, st)
    case Some(backup) =>
      if backup == JNull then (false, st)
      else if !st.hasPassword then ImportFresh(p, st, backup, text, password, manualSalt, ivs)
      else
        match MergeKey(st, backup, password, manualSalt)
        case KeyThrows => (false, st)
        case NoKey => (false, st)
        case UseKey(key) =>
          var decrypted := Decrypt(p, EncryptedContent(p, backup, text), key);
          if !Present(decrypted) || !Present(Prop(decrypted.value, "data")) then (false, st)
          else MergeEntries(p, st, Entries(Prop(decrypted.value, "data").value), ivs, ids, 0, 0)
  }

  /** An array entry appends the incoming items that are not duplicates to the local list, and touches no other slot. */
  lemma MergeArrayEntry(p: Platform, st: State, name: string, items: seq<Json>, ivs: nat -> Iv, ids: nat -> Json, next: nat, nextId: nat)
    requires ValidPlatform(p) && st.key.Some?
    requires !Present(Read(p, st, name)) || Read(p, st, name).value.JArr?
    ensures var local := if Present(Read(p, st, name)) then Read(p, st, name).value.items else [];
      var r := MergeEntries(p, st, [(name, JArr(items))], ivs, ids, next, nextId);
      && r.0
      && Read(p, r.1, name) == Some(JArr(local + Merge.Appended(name, Merge.Items(local), items, ids, nextId)))
      && forall other :: other != name ==> Read(p, r.1, other) == Read(p, st, other)
  {
    var local := if Present(Read(p, st, name)) then Read(p, st, name).value.items else [];
    var merged := JArr(local + Merge.Appended(name, Merge.Items(local), items, ids, nextId));
    forall other
      ensures Read(p, Updated(p, st, name, merged, ivs(next)), name) == Some(merged)
      ensures other != name ==> Read(p, Updated(p, st, name, merged, ivs(next)), other) == Read(p, st, other)
    {
      ReadAfterUpdate(p, st, name, other, merged, ivs(next));
    }
  }

  /**
   * A truthy local string is spread into its characters, and the incoming
   * items the string rule keeps are appended after them; no other slot is
   * touched.
   */
  lemma MergeStringEntry(p: Platform, st: State, name: string, text: string, items: seq<Json>,
                         ivs: nat -> Iv, ids: nat -> Json, next: nat, nextId: nat)
    requires ValidPlatform(p) && st.key.Some?
    requires Read(p, st, name) == Some(JStr(text)) && text != ""
    requires !Merge.ScanThrows(name, Merge.Chars(text), items)
    ensures var r := MergeEntries(p, st, [(name, JArr(items))], ivs, ids, next, nextId);
      && r.0
      && Read(p, r.1, name) == Some(JArr(Merge.Spread(Merge.Chars(text)) + Merge.Appended(name, Merge.Chars(text), items, ids, nextId)))
      && forall other :: other != name ==> Read(p, r.1, other) == Read(p, st, other)
  {
    var local := Merge.Chars(text);
    var merged := JArr(Merge.Spread(local) + Merge.Appended(name, local, items, ids, nextId));
    var entries := [(name, JArr(items))];
    StringMergeStep(p, st, name, text, items, ivs(next), ids, nextId);
    assert entries[1..] == [];
    forall other
      ensures Read(p, Updated(p, st, name, merged, ivs(next)), name) == Some(merged)
      ensures other != name ==> Read(p, Updated(p, st, name, merged, ivs(next)), other) == Read(p, st, other)
    {
      ReadAfterUpdate(p, st, name, other, merged, ivs(next));
    }
  }

  /** The merge step of an array entry over a truthy local string that the scan does not reject. */
  lemma StringMergeStep(p: Platform, st: State, name: string, text: string, items: seq<Json>,
                        iv: Iv, ids: nat -> Json, nextId: nat)
    requires Read(p, st, name) == Some(JStr(text)) && text != ""
    requires !Merge.ScanThrows(name, Merge.Chars(text), items)
    ensures var appended := Merge.Appended(name, Merge.Chars(text), items, ids, nextId);
      MergeStep(p, st, (name, JArr(items)), iv, ids, nextId)
      == Some((Updated(p, st, name, JArr(Merge.Spread(Merge.Chars(text)) + appended), iv), nextId + |appended|))
  {
    assert Merge.LocalOf(Read(p, st, name)) == Some(Merge.Chars(text));
  }

  /** A non-array entry overwrites its slot. */
  lemma MergeValueEntry(p: Platform, st: State, name: string, value: Json, ivs: nat -> Iv, ids: nat -> Json, next: nat, nextId: nat)
    requires ValidPlatform(p) && st.key.Some? && !value.JArr?
    ensures var r := MergeEntries(p, st, [(name, value)], ivs, ids, next, nextId);
      r.0 && Read(p, r.1, name) == Some(value)
  {
    ReadAfterUpdate(p, st, name, name, value, ivs(next));
  }

  /** A truthy local number, boolean or object aborts the merge before its slot is written. */
  lemma MergeAbortsOnNonArrayLocal(p: Platform, st: State, name: string, items: seq<Json>, rest: seq<(string, Json)>,
                                   ivs: nat -> Iv, ids: nat -> Json, next: nat, nextId: nat)
    requires Present(Read(p, st, name)) && !Read(p, st, name).value.JArr? && !Read(p, st, name).value.JStr?
    ensures MergeEntries(p, st, [(name, JArr(items))] + rest, ivs, ids, next, nextId) == (false, st)
  {
    assert ([(name, JArr(items))] + rest)[0] == (name, JArr(items));
  }

  /**
   * A truthy local string in a collection compared field by field aborts the
   * merge at the first incoming item: a string has no `some`.
   */
  lemma MergeAbortsOnStringScan(p: Platform, st: State, name: string, text: string, items: seq<Json>,
                                rest: seq<(string, Json)>, ivs: nat -> Iv, ids: nat -> Json, next: nat, nextId: nat)
    requires Read(p, st, name) == Some(JStr(text)) && text != ""
    requires name in {Merge.PasswordsSlot, Merge.EnvsSlot, Merge.PasskeysSlot} && items != []
    ensures MergeEntries(p, st, [(name, JArr(items))] + rest, ivs, ids, next, nextId) == (false, st)
  {
    assert ([(name, JArr(items))] + rest)[0] == (name, JArr(items));
  }

  /**
   * Without a key in memory the merge reads nothing and writes nothing, yet
   * reports success: a locked vault given the backup's password and salt
   * decrypts the backup and then silently drops it.
   */
  lemma {:induction false} MergeWithoutKeyChangesNothing(p: Platform, st: State, entries: seq<(string, Json)>,
                                                         ivs: nat -> Iv, ids: nat -> Json, next: nat, nextId: nat)
    requires st.key == None
    ensures MergeEntries(p, st, entries, ivs, ids, next, nextId) == (true, st)
    decreases |entries|
  {
    if entries != [] {
      var step := MergeStep(p, st, entries[0], ivs(next), ids, nextId);
      assert step.Some? && step.value.0 == st;
      MergeWithoutKeyChangesNothing(p, st, entries[1..], ivs, ids, next + 1, step.value.1);
    }
  }

  lemma MergeStepConsistent(p: Platform, st: State, entry: (string, Json), iv: Iv, ids: nat -> Json, nextId: nat)
    requires ValidPlatform(p) && Consistent(st)
    ensures MergeStep(p, st, entry, iv, ids, nextId).Some? ==> Consistent(MergeStep(p, st, entry, iv, ids, nextId).value.0)
  {
    var (name, incoming) := entry;
    if !incoming.JArr? {
      UpdatedConsistent(p, st, name, incoming, iv);
    } else {
      match Merge.LocalOf(Read(p, st, name))
      case None =>
      case Some(local) =>
        if !Merge.ScanThrows(name, local, incoming.items) {
          var appended := Merge.Appended(name, local, incoming.items, ids, nextId);
          UpdatedConsistent(p, st, name, JArr(Merge.Spread(local) + appended), iv);
        }
    }
  }

  lemma {:induction false} MergeEntriesConsistent(p: Platform, st: State, entries: seq<(string, Json)>,
                                                  ivs: nat -> Iv, ids: nat -> Json, next: nat, nextId: nat)
    requires ValidPlatform(p) && Consistent(st)
    ensures Consistent(MergeEntries(p, st, entries, ivs, ids, next, nextId).1)
    decreases |entries|
  {
    if entries != [] {
      MergeStepConsistent(p, st, entries[0], ivs(next), ids, nextId);
      match MergeStep(p, st, entries[0], ivs(next), ids, nextId)
      case None =>
      case Some((after, used)) =>
        MergeEntriesConsistent(p, after, entries[1..], ivs, ids, next + 1, used);
    }
  }

  lemma ImportFreshConsistent(p: Platform, st: State, backup: Json, text: string, password: Option<string>,
                              manualSalt: Option<Json>, ivs: nat -> Iv)
    requires ValidPlatform(p) && Consistent(st)
    ensures Consistent(ImportFresh(p, st, backup, text, password, manualSalt, ivs).1)
  {
    if Given(password) {
      match FreshSalt(backup, manualSalt)
      case None =>
      case Some(saltSource) =>
        match JsonToBytes(saltSource)
        case None =>
        case Some(salt) =>
          var key := DeriveKey(password.value, salt);
          var decrypted := Decrypt(p, EncryptedContent(p, backup, text), key);
          if Present(decrypted) && Present(Prop(decrypted.value, "data")) {
            var entries := Entries(Prop(decrypted.value, "data").value);
            var restored := Restore(p, st.store, entries, key, ivs, 0);
            var validator := Encrypt(p, JStr(ValidToken), key, ivs(|entries|));
            var store := restored[SaltSlot := p.stringify(BytesToJson(salt))][ValidatorSlot := validator];
            FreshSucceeds(p, st, backup, text, password.value, manualSalt, ivs, salt, decrypted.value, entries);
            assert p.stringify(BytesToJson(salt)) != "" && validator != "";
            assert Filled(store, SaltSlot) && Filled(store, ValidatorSlot);
          }
    }
  }

  lemma ImportConsistent(p: Platform, st: State, text: string, password: Option<string>, manualSalt: Option<Json>,
                         ivs: nat -> Iv, ids: nat -> Json)
    requires ValidPlatform(p) && Consistent(st)
    ensures Consistent(ImportOf(p, st, text, password, manualSalt, ivs, ids).1)
  {
    match p.parse(text)
    case None =>
    case Some(backup) =>
      if backup != JNull && st.hasPassword {
        match MergeKey(st, backup, password, manualSalt)
        case KeyThrows =>
        case NoKey =>
        case UseKey(key) =>
          var decrypted := Decrypt(p, EncryptedContent(p, backup, text), key);
          if Present(decrypted) && Present(Prop(decrypted.value, "data")) {
            MergeEntriesConsistent(p, st, Entries(Prop(decrypted.value, "data").value), ivs, ids, 0, 0);
          }
      } else if backup != JNull {
        ImportFreshConsistent(p, st, backup, text, password, manualSalt, ivs);
      }
  }

  lemma ExportNamesDistinct(p: Platform, st: State, names: seq<string>)
    requires forall i, j :: 0 <= i < j < |names| ==> names[i] != names[j]
    ensures DistinctNames(ExportMembers(p, st, names))
    decreases |names|
  {
    if names != [] {
      var init := names[..|names| - 1];
      var last := names[|names| - 1];
      ExportNamesDistinct(p, st, init);
      forall i | 0 <= i < |ExportMembers(p, st, init)|
        ensures ExportMembers(p, st, init)[i].0 != last
      {
        var m := ExportMembers(p, st, init)[i];
        ExportMembersExact(p, st, init, m.0, m.1);
      }
    }
  }

  lemma PayloadData(members: seq<(string, Json)>, now: int)
    ensures Prop(Payload(members, now), "data") == Some(JObj(members))
  {
    var pm := Payload(members, now).members;
    assert pm[2..] == [("data", JObj(members))];
    assert Lookup(pm[2..], "data") == Some(JObj(members));
    assert Lookup(pm[1..], "data") == Lookup(pm[2..], "data");
  }

  /** A file that parses to anything but `null` imports in fresh mode into a vault without a password. */
  lemma ImportIsFresh(p: Platform, st: State, text: string, password: Option<string>, manualSalt: Option<Json>,
                      ivs: nat -> Iv, ids: nat -> Json)
    requires p.parse(text).Some? && p.parse(text).value != JNull && !st.hasPassword
    ensures ImportOf(p, st, text, password, manualSalt, ivs, ids)
         == ImportFresh(p, st, p.parse(text).value, text, password, manualSalt, ivs)
  {
  }

  /** Fresh mode with a usable salt and a payload that opens to a value with truthy `data`: the restored state. */
  lemma FreshSucceeds(p: Platform, st: State, backup: Json, text: string, password: string, manualSalt: Option<Json>,
                      ivs: nat -> Iv, salt: seq<byte>, decrypted: Json, entries: seq<(string, Json)>)
    requires password != "" && FreshSalt(backup, manualSalt).Some?
    requires JsonToBytes(FreshSalt(backup, manualSalt).value) == Some(salt)
    requires Decrypt(p, EncryptedContent(p, backup, text), DeriveKey(password, salt)) == Some(decrypted)
    requires Truthy(decrypted) && Present(Prop(decrypted, "data"))
    requires Entries(Prop(decrypted, "data").value) == entries
    ensures var key := DeriveKey(password, salt);
      ImportFresh(p, st, backup, text, Some(password), manualSalt, ivs)
      == (true, State(Restore(p, st.store, entries, key, ivs, 0)[SaltSlot := p.stringify(BytesToJson(salt))]
                            [ValidatorSlot := Encrypt(p, JStr(ValidToken), key, ivs(|entries|))], true, false, Some(key)))
  {
  }

  /** A backup sealed under another key than the password derives is refused, and nothing changes. */
  lemma FreshWrongPassword(p: Platform, st: State, payload: Json, key: Key, iv: Iv, salt: Salt, text: string,
                           password: string, ivs: nat -> Iv)
    requires ValidPlatform(p) && password != "" && DeriveKey(password, salt) != key
    ensures ImportFresh(p, st, BackupObject(Encrypt(p, payload, key, iv), BytesToJson(salt)), text, Some(password), None, ivs)
         == (false, st)
  {
    var encrypted := Encrypt(p, payload, key, iv);
    var backup := BackupObject(encrypted, BytesToJson(salt));
    BackupFields(encrypted, BytesToJson(salt));
    BytesRoundTrip(salt);
    assert FreshSalt(backup, None) == Some(BytesToJson(salt));
    assert EncryptedContent(p, backup, text) == encrypted;
    DecryptWrongKey(p, payload, key, DeriveKey(password, salt), iv);
  }

  /**
   * Restoring an exported backup file with the wrong password: `importData`
   * answers false and the vault without a password stays as it was.
   */
  lemma RestoreWrongPassword(p: Platform, blank: State, payload: Json, key: Key, iv: Iv, salt: Salt,
                             password: string, ivs: nat -> Iv, ids: nat -> Json)
    requires ValidPlatform(p) && password != "" && DeriveKey(password, salt) != key && !blank.hasPassword
    ensures var text := p.stringify(BackupObject(Encrypt(p, payload, key, iv), BytesToJson(salt)));
      ImportOf(p, blank, text, Some(password), None, ivs, ids) == (false, blank)
  {
    var encrypted := Encrypt(p, payload, key, iv);
    var backup := BackupObject(encrypted, BytesToJson(salt));
    var text := p.stringify(backup);
    assert p.parse(text) == Some(backup);
    ImportIsFresh(p, blank, text, Some(password), None, ivs, ids);
    FreshWrongPassword(p, blank, payload, key, iv, salt, text, password, ivs);
  }

  /** A backup file of the exported shape restores into a vault without a password. */
  lemma RestoreFromBackup(p: Platform, blank: State, encrypted: string, salt: Salt, password: string,
                          members: seq<(string, Json)>, now: int, ivs: nat -> Iv, ids: nat -> Json)
    requires ValidPlatform(p) && password != "" && encrypted != "" && !blank.hasPassword
    requires Decrypt(p, encrypted, DeriveKey(password, salt)) == Some(Payload(members, now))
    ensures var key := DeriveKey(password, salt);
      ImportOf(p, blank, p.stringify(BackupObject(encrypted, BytesToJson(salt))), Some(password), None, ivs, ids)
      == (true, State(Restore(p, blank.store, members, key, ivs, 0)[SaltSlot := p.stringify(BytesToJson(salt))]
                            [ValidatorSlot := Encrypt(p, JStr(ValidToken), key, ivs(|members|))], true, false, Some(key)))
  {
    var backup := BackupObject(encrypted, BytesToJson(salt));
    var text := p.stringify(backup);
    BackupReadsBack(p, encrypted, salt);
    ImportIsFresh(p, blank, text, Some(password), None, ivs, ids);
    PayloadData(members, now);
    assert Entries(Prop(Payload(members, now), "data").value) == members;
    FreshSucceeds(p, blank, backup, text, password, None, ivs, salt, Payload(members, now), members);
    assert ImportOf(p, blank, text, Some(password), None, ivs, ids)
        == ImportFresh(p, blank, backup, text, Some(password), None, ivs);
  }

  /** What the fresh-mode import reads out of an exported backup file: the object, its salt and its ciphertext. */
  lemma BackupReadsBack(p: Platform, encrypted: string, salt: Salt)
    requires ValidPlatform(p) && encrypted != ""
    ensures p.parse(p.stringify(BackupObject(encrypted, BytesToJson(salt)))) == Some(BackupObject(encrypted, BytesToJson(salt)))
    ensures FreshSalt(BackupObject(encrypted, BytesToJson(salt)), None) == Some(BytesToJson(salt))
    ensures JsonToBytes(BytesToJson(salt)) == Some(salt)
    ensures EncryptedContent(p, BackupObject(encrypted, BytesToJson(salt)), p.stringify(BackupObject(encrypted, BytesToJson(salt)))) == encrypted
  {
    var backup := BackupObject(encrypted, BytesToJson(salt));
    assert p.parse(p.stringify(backup)) == Some(backup);
    BackupFields(encrypted, BytesToJson(salt));
    BytesRoundTrip(salt);
  }

  /** What a restore leaves in an entry's slot reads back as the entry's value. */
  lemma RestoredReadsBack(p: Platform, store: Store, members: seq<(string, Json)>, key: Key, ivs: nat -> Iv,
                          saltText: string, validator: string, n: string, v: Json)
    requires ValidPlatform(p) && DistinctNames(members) && (n, v) in members
    requires n != SaltSlot && n != ValidatorSlot
    ensures Read(p, State(Restore(p, store, members, key, ivs, 0)[SaltSlot := saltText][ValidatorSlot := validator],
                          true, false, Some(key)), n) == Some(v)
  {
    var restored := Restore(p, store, members, key, ivs, 0);
    var written := restored[SaltSlot := saltText][ValidatorSlot := validator];
    RestoreWrites(p, store, members, key, ivs, 0);
    var i :| 0 <= i < |members| && members[i] == (n, v);
    assert n in restored && restored[n] == Encrypt(p, v, key, ivs(i));
    DecryptEncrypt(p, v, key, ivs(i));
    assert Slot(written, n) == Slot(restored, n);
  }

  /** Every collection exported from `names` reads back from the restored vault as it read before. */
  lemma ExportedReadBack(p: Platform, st: State, names: seq<string>, restored: State, store: Store, key: Key,
                         ivs: nat -> Iv, saltText: string, validator: string)
    requires ValidPlatform(p) && DistinctNames(ExportMembers(p, st, names))
    requires SaltSlot !in names && ValidatorSlot !in names
    requires restored == State(Restore(p, store, ExportMembers(p, st, names), key, ivs, 0)[SaltSlot := saltText][ValidatorSlot := validator],
                               true, false, Some(key))
    ensures forall n :: n in names && Present(Read(p, st, n)) ==> Read(p, restored, n) == Read(p, st, n)
  {
    forall n | n in names && Present(Read(p, st, n))
      ensures Read(p, restored, n) == Read(p, st, n)
    {
      var v := Read(p, st, n).value;
      ExportMembersExact(p, st, names, n, v);
      RestoredReadsBack(p, store, ExportMembers(p, st, names), key, ivs, saltText, validator, n, v);
    }
  }

  lemma ExportSlotsReserved()
    ensures SaltSlot !in ExportSlots && ValidatorSlot !in ExportSlots
  {
  }

  lemma ExportSlotsDistinct()
    ensures forall i, j :: 0 <= i < j < |ExportSlots| ==> ExportSlots[i] != ExportSlots[j]
  {
  }

  lemma ExportedDistinct(p: Platform, st: State)
    ensures DistinctNames(ExportMembers(p, st, ExportSlots))
  {
    ExportSlotsDistinct();
    ExportNamesDistinct(p, st, ExportSlots);
  }

  /** The text `exportData` produces from a vault whose stored salt is the JSON of `salt`. */
  lemma ExportShape(p: Platform, st: State, salt: Salt, now: int, iv: Iv)
    requires ValidPlatform(p) && st.key.Some?
    requires SaltSlot in st.store && st.store[SaltSlot] == p.stringify(BytesToJson(salt))
    ensures ExportOf(p, st, now, iv) ==
      Backup(p.stringify(BackupObject(Encrypt(p, Payload(ExportMembers(p, st, ExportSlots), now), st.key.value, iv), BytesToJson(salt))))
  {
  }

  /** The state a fresh install reaches by importing an exported backup with the vault's password. */
  lemma ExportRestoreState(p: Platform, st: State, password: string, salt: Salt, now: int, iv: Iv,
                           blank: State, ivs: nat -> Iv, ids: nat -> Json)
    requires ValidPlatform(p) && password != ""
    requires st.key == Some(DeriveKey(password, salt))
    requires SaltSlot in st.store && st.store[SaltSlot] == p.stringify(BytesToJson(salt))
    requires !blank.hasPassword
    ensures ExportOf(p, st, now, iv).Backup?
    ensures var members := ExportMembers(p, st, ExportSlots); var key := st.key.value;
      ImportOf(p, blank, ExportOf(p, st, now, iv).text, Some(password), None, ivs, ids)
      == (true, State(Restore(p, blank.store, members, key, ivs, 0)[SaltSlot := p.stringify(BytesToJson(salt))]
                            [ValidatorSlot := Encrypt(p, JStr(ValidToken), key, ivs(|members|))], true, false, Some(key)))
  {
    var key := st.key.value;
    var members := ExportMembers(p, st, ExportSlots);
    var payload := Payload(members, now);
    ExportShape(p, st, salt, now, iv);
    DecryptEncrypt(p, payload, key, iv);
    RestoreFromBackup(p, blank, Encrypt(p, payload, key, iv), salt, password, members, now, ivs, ids);
  }

  /**
   * A backup restores on a fresh install: exporting from a vault unlocked
   * with `password` and importing the text into a vault without a password,
   * giving the same password, succeeds, installs the same key and reads back
   * every collection the backup carried.
   */
  lemma ExportThenRestore(p: Platform, st: State, password: string, salt: Salt, now: int, iv: Iv,
                          blank: State, ivs: nat -> Iv, ids: nat -> Json)
    requires ValidPlatform(p) && password != ""
    requires st.key == Some(DeriveKey(password, salt))
    requires SaltSlot in st.store && st.store[SaltSlot] == p.stringify(BytesToJson(salt))
    requires !blank.hasPassword
    ensures ExportOf(p, st, now, iv).Backup?
    ensures var r := ImportOf(p, blank, ExportOf(p, st, now, iv).text, Some(password), None, ivs, ids);
      && r.0 && r.1.key == st.key && !r.1.isLocked
      && forall n :: n in ExportSlots && Present(Read(p, st, n)) ==> Read(p, r.1, n) == Read(p, st, n)
  {
    ExportRestoreState(p, st, password, salt, now, iv, blank, ivs, ids);
    var members := ExportMembers(p, st, ExportSlots);
    var r := ImportOf(p, blank, ExportOf(p, st, now, iv).text, Some(password), None, ivs, ids);
    ExportedDistinct(p, st);
    ExportSlotsReserved();
    ExportedReadBack(p, st, ExportSlots, r.1, blank.store, st.key.value, ivs,
                     p.stringify(BytesToJson(salt)), Encrypt(p, JStr(ValidToken), st.key.value, ivs(|members|)));
  }
}
