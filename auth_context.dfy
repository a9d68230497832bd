/**
 * The `AuthProvider` of src/context/AuthContext.jsx as an object: the store
 * and the three React state values are fields, and each operation changes
 * them step by step as the provider does. Each method is proved to reach the
 * state the matching function of module VaultState describes, and to keep
 * `VaultState.Consistent`.
 */
module AuthContext {
  import opened Wrappers
  import opened JsonValue
  import opened Crypto
  import opened Migration
  import opened VaultState
  import Merge

  class Vault {
    const platform: Platform
    var store: Store
    var hasPassword: bool
    var isLocked: bool
    var encryptionKey: Option<Key>

    function Snapshot(): State
      reads this
    {
      State(store, hasPassword, isLocked, encryptionKey)
    }

    ghost predicate Valid()
      reads this
    {
      ValidPlatform(platform) && Consistent(Snapshot())
    }

    /** Mounting the provider: the migration `forEach`, then the check for an initialised vault. */
    constructor (platform: Platform, initial: Store)
      requires ValidPlatform(platform)
      ensures this.platform == platform
      ensures Valid() && Snapshot() == Mounted(initial)
    {
      this.platform := platform;
      var migrated := Migrate(initial);
      var salt := Slot(migrated, SaltSlot);
      var validator := Slot(migrated, ValidatorSlot);
      if salt.Some? && salt.value != "" && validator.Some? && validator.value != "" {
        store := migrated;
        hasPassword := true;
        isLocked := true;
      } else {
        store := migrated - {AppLockSlot};
        hasPassword := false;
        isLocked := false;
      }
      encryptionKey := None;
    }

    /** `setMasterPassword(password)`, given the salt and nonce it draws. */
    method SetMasterPassword(password: string, salt: Salt, iv: Iv)
      requires Valid()
      modifies this
      ensures Valid() && Snapshot() == SetPassword(platform, old(Snapshot()), password, salt, iv)
    {
      OperationsConsistent(platform, Snapshot(), password, salt, iv);
      var key := DeriveKey(password, salt);
      var encryptedValidator := Encrypt(platform, JStr(ValidToken), key, iv);
      store := store[SaltSlot := platform.stringify(BytesToJson(salt))];
      store := store[ValidatorSlot := encryptedValidator];
      encryptionKey := Some(key);
      hasPassword := true;
      isLocked := false;
    }

    /** `unlock(password)` */
    method Unlock(password: string) returns (ok: bool)
      requires Valid()
      modifies this
      ensures Valid()
      ensures ok == UnlockAnswer(UnlockVerdict(platform, old(store), password))
      ensures Snapshot() == Unlocked(old(Snapshot()), UnlockVerdict(platform, old(store), password))
    {
      OperationsConsistent(platform, Snapshot(), password, [0, 0, 0, 0, 0, 0, 0, 0, 0, 0, 0, 0, 0, 0, 0, 0], [0, 0, 0, 0, 0, 0, 0, 0, 0, 0, 0, 0]);
      var saltJson := Slot(store, SaltSlot);
      var encryptedValidator := Slot(store, ValidatorSlot);
      if saltJson.None? || saltJson.value == "" || encryptedValidator.None? || encryptedValidator.value == "" {
        return true;
      }
      var parsed := platform.parse(saltJson.value);
      if parsed.None? {
        return false;
      }
      var salt := JsonToBytes(parsed.value);
      if salt.None? {
        return false;
      }
      var key := DeriveKey(password, salt.value);
      var validation := Decrypt(platform, encryptedValidator.value, key);
      if validation == Some(JStr(ValidToken)) || validation == Some(JStr(LegacyToken)) {
        encryptionKey := Some(key);
        isLocked := false;
        return true;
      }
      return false;
    }

    /** `removeMasterPassword()` */
    method RemoveMasterPassword()
      requires Valid()
      modifies this
      ensures Valid() && Snapshot() == Cleared
    {
      store := map[];
      hasPassword := false;
      isLocked := false;
      encryptionKey := None;
    }

    /** `lock()` */
    method Lock()
      requires Valid()
      modifies this
      ensures Valid() && Snapshot() == Locked(old(Snapshot()))
    {
      if hasPassword {
        isLocked := true;
        encryptionKey := None;
      }
    }

    /** `updateData(name, value)`, given the nonce `encryptData` draws. */
    method UpdateData(name: string, value: Json, iv: Iv)
      requires Valid()
      modifies this
      ensures Valid() && Snapshot() == Updated(platform, old(Snapshot()), name, value, iv)
    {
      UpdatedConsistent(platform, Snapshot(), name, value, iv);
      if encryptionKey.None? {
        return;
      }
      var encrypted := Encrypt(platform, value, encryptionKey.value, iv);
      store := store[name := encrypted];
    }

    /** `getData(name)` */
    method GetData(name: string) returns (r: Option<Json>)
      ensures r == Read(platform, Snapshot(), name)
    {
      if encryptionKey.None? {
        return None;
      }
      var stored := Slot(store, name);
      if stored.None? || stored.value == "" {
        return None;
      }
      r := Decrypt(platform, stored.value, encryptionKey.value);
    }

    /** `exportData()`, given the time and the nonce it draws. */
    method ExportData(now: int, iv: Iv) returns (r: ExportResult)
      ensures r == ExportOf(platform, Snapshot(), now, iv)
    {
      if encryptionKey.None? {
        return NoBackup;
      }
      var saltJson := Slot(store, SaltSlot);
      if saltJson.None? || saltJson.value == "" {
        return NoBackup;
      }
      var keysToExport := ExportSlots;
      var data: seq<(string, Json)> := [];
      for i := 0 to |keysToExport|
        invariant data == ExportMembers(platform, Snapshot(), keysToExport[..i])
      {
        assert keysToExport[..i + 1][..i] == keysToExport[..i];
        var decrypted := GetData(keysToExport[i]);
        if Present(decrypted) {
          // the four keys are distinct, so setting `data[key]` appends
          data := data + [(keysToExport[i], decrypted.value)];
        }
      }
      assert keysToExport[..|keysToExport|] == keysToExport;
      var encrypted := Encrypt(platform, Payload(data, now), encryptionKey.value, iv);
      var salt := platform.parse(saltJson.value);
      if salt.None? {
        return ExportThrows;
      }
      r := Backup(platform.stringify(BackupObject(encrypted, salt.value)));
    }

    /**
     * `importData(text, password, manualSalt)`, given the nonces the
     * encryptions draw and the ids the merge hands out.
     */
    method ImportData(text: string, password: Option<string>, manualSalt: Option<Json>, ivs: nat -> Iv, ids: nat -> Json)
      returns (ok: bool)
      requires Valid()
      modifies this
      ensures Valid()
      ensures (ok, Snapshot()) == ImportOf(platform, old(Snapshot()), text, password, manualSalt, ivs, ids)
    {
      ImportConsistent(platform, Snapshot(), text, password, manualSalt, ivs, ids);
      var parsed := platform.parse(text);
      if parsed.None? || parsed.value == JNull {
        return false;
      }
      var backup := parsed.value;
      if !hasPassword {
        ok := RestoreBackup(backup, text, password, manualSalt, ivs);
        return;
      }
      var decryptionKey := encryptionKey;
      var effectiveSalt := if Present(Prop(backup, "salt")) then Prop(backup, "salt") else manualSalt;
      if Given(password) && Present(effectiveSalt) {
        var saltArray := JsonToBytes(effectiveSalt.value);
        if saltArray.None? {
          return false;
        }
        decryptionKey := Some(DeriveKey(password.value, saltArray.value));
      }
      if decryptionKey.None? {
        return false;
      }
      var decryptedObj := Decrypt(platform, EncryptedContent(platform, backup, text), decryptionKey.value);
      if !Present(decryptedObj) || !Present(Prop(decryptedObj.value, "data")) {
        return false;
      }
      ok := MergeBackup(Entries(Prop(decryptedObj.value, "data").value), ivs, ids);
    }

    /** The fresh-install branch of `importData`. */
    method RestoreBackup(backup: Json, text: string, password: Option<string>, manualSalt: Option<Json>, ivs: nat -> Iv)
      returns (ok: bool)
      requires Valid() && !hasPassword
      modifies this
      ensures (ok, Snapshot()) == ImportFresh(platform, old(Snapshot()), backup, text, password, manualSalt, ivs)
    {
      ghost var start := Snapshot();
      if !Given(password) {
        return false;
      }
      var saltSource: Json;
      if Present(Prop(backup, "salt")) {
        saltSource := Prop(backup, "salt").value;
      } else if Present(manualSalt) {
        saltSource := manualSalt.value;
      } else {
        return false;
      }
      var saltArray := JsonToBytes(saltSource);
      if saltArray.None? {
        return false;
      }
      var derivedKey := DeriveKey(password.value, saltArray.value);
      var decryptedObj := Decrypt(platform, EncryptedContent(platform, backup, text), derivedKey);
      if !Present(decryptedObj) || !Present(Prop(decryptedObj.value, "data")) {
        return false;
      }
      var entries := Entries(Prop(decryptedObj.value, "data").value);
      FreshSucceeds(platform, start, backup, text, password.value, manualSalt, ivs, saltArray.value, decryptedObj.value, entries);
      CommitRestore(entries, derivedKey, saltArray.value, ivs);
      return true;
    }

    /** The end of the fresh-install branch: the entries restored, then salt and validator written, and the vault unlocked. */
    method CommitRestore(entries: seq<(string, Json)>, key: Key, salt: seq<Bits.byte>, ivs: nat -> Iv)
      modifies this
      ensures Snapshot() == State(Restore(platform, old(store), entries, key, ivs, 0)
                                    [SaltSlot := platform.stringify(BytesToJson(salt))]
                                    [ValidatorSlot := Encrypt(platform, JStr(ValidToken), key, ivs(|entries|))],
                                  true, false, Some(key))
    {
      RestoreEntries(entries, key, ivs);
      var encryptedValidator := Encrypt(platform, JStr(ValidToken), key, ivs(|entries|));
      store := store[SaltSlot := platform.stringify(BytesToJson(salt))];
      store := store[ValidatorSlot := encryptedValidator];
      encryptionKey := Some(key);
      hasPassword := true;
      isLocked := false;
    }

    /** The restore loop of the fresh-install branch: each entry re-encrypted into its slot. */
    method RestoreEntries(entries: seq<(string, Json)>, key: Key, ivs: nat -> Iv)
      modifies this
      ensures store == Restore(platform, old(store), entries, key, ivs, 0)
      ensures hasPassword == old(hasPassword) && isLocked == old(isLocked) && encryptionKey == old(encryptionKey)
    {
      for i := 0 to |entries|
        invariant Restore(platform, store, entries[i..], key, ivs, i) == Restore(platform, old(store), entries, key, ivs, 0)
        invariant hasPassword == old(hasPassword) && isLocked == old(isLocked) && encryptionKey == old(encryptionKey)
      {
        assert entries[i..][1..] == entries[i + 1..];
        var reEncrypted := Encrypt(platform, entries[i].1, key, ivs(i));
        store := store[entries[i].0 := reEncrypted];
      }
    }

    /** One pass of the merge loop; `None` where the spread or the scan of the local value throws. */
    method MergeEntry(entry: (string, Json), iv: Iv, ids: nat -> Json, nextId: nat) returns (used: Option<nat>)
      requires Valid()
      modifies this
      ensures Valid()
      ensures used.None? ==> Snapshot() == old(Snapshot()) && MergeStep(platform, old(Snapshot()), entry, iv, ids, nextId) == None
      ensures used.Some? ==> MergeStep(platform, old(Snapshot()), entry, iv, ids, nextId) == Some((Snapshot(), used.value))
    {
      MergeStepConsistent(platform, Snapshot(), entry, iv, ids, nextId);
      var (name, incomingValue) := entry;
      if !incomingValue.JArr? {
        UpdateData(name, incomingValue, iv);
        return Some(nextId);
      }
      var localValue := GetData(name);
      var local := Merge.LocalOf(localValue);
      if local.None? {
        return None;
      }
      var merged, added, skipped := Merge.MergeItems(name, local.value, incomingValue.items, ids, nextId);
      if merged.None? {
        return None;
      }
      ghost var before := Snapshot();
      assert MergeStep(platform, before, entry, iv, ids, nextId)
        == Some((Updated(platform, before, name, JArr(merged.value), iv), nextId + added));
      UpdateData(name, JArr(merged.value), iv);
      return Some(nextId + added);
    }

    /** The merge loop of `importData` over the backup's entries. */
    method MergeBackup(entries: seq<(string, Json)>, ivs: nat -> Iv, ids: nat -> Json) returns (ok: bool)
      requires Valid()
      modifies this
      ensures Valid()
      ensures (ok, Snapshot()) == MergeEntries(platform, old(Snapshot()), entries, ivs, ids, 0, 0)
    {
      var idsUsed := 0;
      for i := 0 to |entries|
        invariant Valid()
        invariant MergeEntries(platform, Snapshot(), entries[i..], ivs, ids, i, idsUsed)
               == MergeEntries(platform, old(Snapshot()), entries, ivs, ids, 0, 0)
      {
        assert entries[i..][0] == entries[i] && entries[i..][1..] == entries[i + 1..];
        var used := MergeEntry(entries[i], ivs(i), ids, idsUsed);
        if used.None? {
          return false;
        }
        idsUsed := used.value;
      }
      return true;
    }
  }
}
