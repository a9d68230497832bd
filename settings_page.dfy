/**
 * The security handlers of src/pages/Settings.jsx: setting a master
 * password, removing it after the current one is confirmed, downloading a
 * backup, and importing one. The page drives the vault object of module
 * AuthContext; its three form fields are fields of the page object.
 */
module SettingsPage {
  import opened Wrappers
  import opened JsonValue
  import opened Crypto
  import opened VaultState
  import opened AuthContext

  const MinPasswordLength := 4

  datatype SetOutcome = TooShort | Mismatch | PasswordSet

  /** The checks of `handleSetPassword`, the length first. */
  function PasswordCheck(newPassword: string, confirmPassword: string): (r: SetOutcome)
    ensures r == TooShort <==> |newPassword| < MinPasswordLength
    ensures r == Mismatch <==> |newPassword| >= MinPasswordLength && newPassword != confirmPassword
    ensures r == PasswordSet <==> |newPassword| >= MinPasswordLength && newPassword == confirmPassword
  {
    if |newPassword| < MinPasswordLength then TooShort
    else if newPassword != confirmPassword then Mismatch
    else PasswordSet
  }

  /**
   * Once a password is set, the removal handler goes on to clear the vault
   * for that password and refuses any other.
   */
  lemma RemoveAfterSet(p: Platform, st: State, password: string, other: string, salt: Salt, iv: Iv)
    requires ValidPlatform(p)
    ensures UnlockAnswer(UnlockVerdict(p, SetPassword(p, st, password, salt, iv).store, password))
    ensures other != password ==> !UnlockAnswer(UnlockVerdict(p, SetPassword(p, st, password, salt, iv).store, other))
  {
    SetThenUnlock(p, st, password, other, salt, iv);
  }

  /** In a configured vault removal goes ahead only for a password whose key opens the validator. */
  lemma RemoveNeedsValidator(p: Platform, st: State, password: string)
    requires Consistent(st) && st.hasPassword
    requires UnlockAnswer(UnlockVerdict(p, st.store, password))
    ensures StoredSalt(p, st.store).Some?
    ensures Decrypt(p, st.store[ValidatorSlot], DeriveKey(password, StoredSalt(p, st.store).value))
      in {Some(JStr(ValidToken)), Some(JStr(LegacyToken))}
  {
  }

  /** `tamga-backup-${new Date().toISOString().slice(0, 10)}.enc` */
  function BackupFileName(iso: string): (name: string)
    ensures var date := if |iso| < 10 then iso else iso[..10];
      name == "tamga-backup-" + date + ".enc"
  {
    "tamga-backup-" + (if |iso| < 10 then iso else iso[..10]) + ".enc"
  }

  /** For an ISO timestamp the name carries its date part, `YYYY-MM-DD`, and is 27 characters long. */
  lemma BackupFileNameOfTimestamp(iso: string)
    requires |iso| >= 10
    ensures |BackupFileName(iso)| == 27
    ensures BackupFileName(iso)[13..23] == iso[..10]
    ensures BackupFileName(iso)[..13] == "tamga-backup-" && BackupFileName(iso)[23..] == ".enc"
  {
  }

  /** Importing from the page gives no password and no manual salt: a vault without a password or a locked one refuses and stays as it is. */
  lemma ImportNeedsUnlockedVault(p: Platform, st: State, text: string, ivs: nat -> Iv, ids: nat -> Json)
    requires Consistent(st) && (!st.hasPassword || st.isLocked)
    ensures ImportOf(p, st, text, None, None, ivs, ids) == (false, st)
  {
  }

  /** A backup encrypted under a key other than the vault's current one never merges from the page. */
  lemma ImportForeignBackup(p: Platform, st: State, payload: Json, other: Key, iv: Iv, salt: Json,
                            ivs: nat -> Iv, ids: nat -> Json)
    requires ValidPlatform(p) && Consistent(st) && st.hasPassword && st.key != Some(other)
    ensures var text := p.stringify(BackupObject(Encrypt(p, payload, other, iv), salt));
      ImportOf(p, st, text, None, None, ivs, ids) == (false, st)
  {
    var encrypted := Encrypt(p, payload, other, iv);
    var backup := BackupObject(encrypted, salt);
    var text := p.stringify(backup);
    assert p.parse(text) == Some(backup);
    BackupFields(encrypted, salt);
    if st.key.Some? {
      assert MergeKey(st, backup, None, None) == UseKey(st.key.value);
      assert EncryptedContent(p, backup, text) == encrypted;
      DecryptWrongKey(p, payload, other, st.key.value, iv);
    }
  }

  class Settings {
    const vault: Vault
    var newPassword: string
    var confirmPassword: string
    var currentPassword: string

    constructor (vault: Vault)
      ensures this.vault == vault
      ensures newPassword == "" && confirmPassword == "" && currentPassword == ""
    {
      this.vault := vault;
      newPassword, confirmPassword, currentPassword := "", "", "";
    }

    /** `handleSetPassword`, given the salt and nonce `setMasterPassword` draws. */
    method HandleSetPassword(salt: Salt, iv: Iv) returns (r: SetOutcome)
      requires vault.Valid()
      modifies this, vault
      ensures vault.Valid()
      ensures r == PasswordCheck(old(newPassword), old(confirmPassword))
      ensures r == PasswordSet ==>
        && vault.Snapshot() == SetPassword(vault.platform, old(vault.Snapshot()), old(newPassword), salt, iv)
        && newPassword == "" && confirmPassword == ""
      ensures r != PasswordSet ==> unchanged(this) && unchanged(vault)
      ensures currentPassword == old(currentPassword)
    {
      if |newPassword| < MinPasswordLength {
        return TooShort;
      }
      if newPassword != confirmPassword {
        return Mismatch;
      }
      vault.SetMasterPassword(newPassword, salt, iv);
      newPassword := "";
      confirmPassword := "";
      return PasswordSet;
    }

    /** `handleRemovePassword`: `unlock(currentPassword)` first; only when it answers true is the vault cleared. */
    method HandleRemovePassword() returns (removed: bool)
      requires vault.Valid()
      modifies this, vault
      ensures vault.Valid()
      ensures removed == UnlockAnswer(UnlockVerdict(vault.platform, old(vault.store), old(currentPassword)))
      ensures removed ==> vault.Snapshot() == Cleared && currentPassword == ""
      ensures !removed ==> vault.Snapshot() == old(vault.Snapshot()) && unchanged(this)
      ensures newPassword == old(newPassword) && confirmPassword == old(confirmPassword)
    {
      var isValid := vault.Unlock(currentPassword);
      if !isValid {
        return false;
      }
      vault.RemoveMasterPassword();
      currentPassword := "";
      return true;
    }

    /** `handleExport`: the file name and content of the download, or nothing when `exportData` yields no text. */
    method HandleExport(now: int, iv: Iv, iso: string) returns (download: Option<(string, string)>)
      requires vault.Valid()
      ensures ExportOf(vault.platform, vault.Snapshot(), now, iv).Backup? ==>
        download == Some((BackupFileName(iso), ExportOf(vault.platform, vault.Snapshot(), now, iv).text))
      ensures !ExportOf(vault.platform, vault.Snapshot(), now, iv).Backup? ==> download == None
    {
      var encryptedBlob := vault.ExportData(now, iv);
      if !encryptedBlob.Backup? {
        return None;
      }
      // backup text is JSON text, never the falsy ""
      assert encryptedBlob.text != "";
      return Some((BackupFileName(iso), encryptedBlob.text));
    }

    /** `handleImport`: `importData(content)` with no password and no manual salt. */
    method HandleImport(content: string, ivs: nat -> Iv, ids: nat -> Json) returns (success: bool)
      requires vault.Valid()
      modifies vault
      ensures vault.Valid()
      ensures (success, vault.Snapshot()) == ImportOf(vault.platform, old(vault.Snapshot()), content, None, None, ivs, ids)
    {
      success := vault.ImportData(content, None, None, ivs, ids);
    }
  }
}
