# tamga vault core in Dafny

tamga is a desktop vault for passwords, OTP accounts, environment files and
passkeys. This project models the vault engine of the `AuthProvider` and the
page and dialog logic built on it, and proves properties of that model:

- **The vault** (`AuthProvider`):
  - the one-time move of `sphinx-*` slots to `tamga-*` names at mount;
  - setting, checking and removing the master password (salt, key derivation, a validator token);
  - lock and unlock;
  - encrypted reads and writes of named slots;
  - encrypted backup export;
  - backup import, which restores in full on a fresh install and merges into an existing vault with duplicate detection.
- **The Google Authenticator migration decoder**: a hand-written Protocol Buffers reader for `otpauth-migration://` payloads.
- **The pages and dialogs**:
  - password strength scoring, generation and the saved-password history;
  - the environment file list and its preview;
  - how an OTP card counts down and displays its code;
  - how the add dialogs accept OTP accounts from a form or a scanned QR code, and two-field records;
  - the Settings handlers for setting and removing the password, backup download and import.

The model takes the source's own form:

- The provider (`AuthContext.Vault`), the add dialogs and the Settings page are classes. Their methods change fields step by step, as the handlers do.
- Each method is proved to reach the state that a function of module `VaultState` (or a function beside the class) describes.
- The decoder's loops are methods with loop invariants, proved against recursive specification functions.
- Each method's contract is its link to those functions. Lemmas about the functions state what the source promises: round trips, invariants kept, frames, and both directions of each if-and-only-if.

Things outside the code's control are parameters:

- **Randomness and time.** Nonces, salts, `Date.now()` ids, `Math.random()` draws, and ISO timestamps are passed in, as are whether a Base32 secret or a URI parses.
- **Crypto and JSON.** AES-GCM, PBKDF2 and JSON text are an abstract `Crypto.Platform`, constrained only by `Crypto.ValidPlatform`:
  - JSON text round-trips and is never empty;
  - every ciphertext carries its 16-byte tag;
  - decryption under the sealing key returns the value, and under any other key it fails.
- **The `otpauth` library**: an abstract `OtpDialog.OtpLibrary`, with `OtpMigration.Converter` for the TOTP constructor the decoder calls.
- **Base64 decoding** (`atob`, section 4 of RFC 4648): a function parameter.

JavaScript numbers in the decoder: `|=` and `<<` are modelled as 32-bit operations, so a varint of up to five bytes reads as the unsigned value of its low 32 bits. The source uses that value as a signed number, and the model has a lemma about that reading (see Findings). Its parse functions read every length unsigned, as the format intends.

## Model

| member | source | states |
|---|---|---|
| Migration.MigrationMoves | src/context/AuthContext.jsx:24-43 | for each of the six pairs: when the old slot is truthy and the new one is not, the new slot takes the old text and the old slot is removed; otherwise both are untouched |
| Migration.MigrationUntouched | src/context/AuthContext.jsx:34-43 | slots no pair names survive the migration unchanged |
| Migration.MigrationIdempotent | src/context/AuthContext.jsx:34-43 | running the migration twice gives the same store as running it once |
| Migration.MigrationPairsDistinct | src/context/AuthContext.jsx:24-31 | no slot name occurs twice among the pairs and no old name is a new name, so the moves do not interfere |
| Migration.MigrateAllSlot | src/context/AuthContext.jsx:34-43 | every slot after the ordered `forEach` equals a closed form read off the original store |
| Migration.Migrate | src/context/AuthContext.jsx:34-43 | the loop over the pairs computes the migrated store |
| VaultState.Mounted | src/context/AuthContext.jsx:22-62 | after mount the state is consistent, no key is held, and the vault is locked exactly when it has a password |
| VaultState.LegacyVaultStaysLocked | src/context/AuthContext.jsx:24-61 | a vault set up under the old `sphinx-*` names (or the new ones) is found configured and locked after the upgrade |
| VaultState.LegacyVaultUnlocks | src/context/AuthContext.jsx:24-194 | after the upgrade, a vault configured only under the old names unlocks with its password, whose key opens the moved validator to `sphinx-valid-token` |
| VaultState.UnlockVerdict | src/context/AuthContext.jsx:172-194 | `unlock` answers "not configured" exactly when salt or validator is missing; the derived key is accepted exactly when the stored salt parses and the key opens the validator to one of the two tokens |
| VaultState.Unlocked | src/context/AuthContext.jsx:172-194 | only an accepted verdict changes the state: it installs the key and unlocks; store and password flag are kept |
| VaultState.SetThenUnlock | src/context/AuthContext.jsx:155-194 | after `setMasterPassword(pw)` that password unlocks with the key it derived, and every other password is rejected |
| VaultState.Locked | src/context/AuthContext.jsx:203-208 | locking drops the key and locks a vault with a password; a vault without one is unchanged |
| VaultState.LockIdempotent | src/context/AuthContext.jsx:203-208 | locking twice is locking once |
| VaultState.SetLockUnlock | src/context/AuthContext.jsx:155-208 | set password, lock, unlock with the same password returns to the configured unlocked state |
| VaultState.Updated | src/context/AuthContext.jsx:211-223 | `updateData` without a key writes nothing; with one it changes only the named slot and none of the flags |
| VaultState.Read | src/context/AuthContext.jsx:225-230 | `getData` yields nothing without a key or for an empty slot |
| VaultState.ReadAfterUpdate | src/context/AuthContext.jsx:211-230 | a slot reads back the value last written to it; writing one slot leaves every other reading unchanged |
| VaultState.UpdatedConsistent | src/context/AuthContext.jsx:211-223 | a write keeps the vault invariant (locked implies password; key held iff password and unlocked; password iff salt and validator stored) |
| VaultState.OperationsConsistent | src/context/AuthContext.jsx:155-208 | set password, unlock, lock and remove password each keep the vault invariant |
| VaultState.ExportMembersExact | src/context/AuthContext.jsx:239-251 | a collection is in the backup's `data` exactly when it is among the four exported names and decrypts to a truthy value, and it carries that value |
| VaultState.ExportOf | src/context/AuthContext.jsx:233-259 | no backup exactly when no key is held or no salt is stored |
| VaultState.ExportDecrypts | src/context/AuthContext.jsx:233-259 | the backup text parses to `{ encrypted, salt }` with the stored salt, and `encrypted` opens under the vault key to a version-2 payload of the exported collections |
| VaultState.BackupFields | src/context/AuthContext.jsx:254-258 | the backup object reads back its `encrypted` and `salt` members |
| VaultState.PageSlotsNotExported | src/context/AuthContext.jsx:239-251 | writing any slot outside the four exported collections and the salt leaves the backup unchanged |
| VaultState.ExportMembersFrame | src/context/AuthContext.jsx:246-251 | the export depends only on what the exported names read |
| VaultState.FreshSalt | src/context/AuthContext.jsx:284-297 | fresh mode takes `backup.salt` when truthy, else a truthy manual salt, else none |
| VaultState.NamesCons | src/context/AuthContext.jsx:317-321 | the restore list splits into its first entry and a rest with distinct names |
| VaultState.RestoreWrites | src/context/AuthContext.jsx:317-321 | after the restore loop every entry's slot opens under the key to the entry's value, and every other slot is as before |
| VaultState.ImportFresh | src/context/AuthContext.jsx:274-338 | fresh-install import fails without a password or a salt; with both, it succeeds exactly when the payload opens under the derived key to a value with truthy `data`; a failure changes nothing, and a success leaves the vault configured and unlocked under the derived key (FreshSucceeds gives the written store) |
| VaultState.MergeKey | src/context/AuthContext.jsx:342-354 | without a given password the merge uses the vault's current key |
| VaultState.MergeStep | src/context/AuthContext.jsx:367-413 | one merge entry never hands back an id before the ones already used |
| VaultState.MergeArrayEntry | src/context/AuthContext.jsx:367-412 | an array entry writes the local list followed by the incoming items that are not duplicates, numbered with fresh ids, and changes no other slot |
| VaultState.MergeValueEntry | src/context/AuthContext.jsx:367-412 | a non-array entry overwrites its slot |
| VaultState.MergeStringEntry | src/context/AuthContext.jsx:375-412 | a truthy local string is spread into its characters and the incoming items the string rule keeps are appended after them; no other slot changes |
| VaultState.StringMergeStep | src/context/AuthContext.jsx:375-412 | over a truthy local string the step writes the spread characters followed by the kept items and advances the ids by their number |
| VaultState.MergeAbortsOnNonArrayLocal | src/context/AuthContext.jsx:367-427 | a truthy local number, boolean or object makes the spread throw: the import answers false and the slot is not written |
| VaultState.MergeAbortsOnStringScan | src/context/AuthContext.jsx:383-427 | a truthy local string in the password, environment or passkey collection throws at `some` on the first incoming item: the import answers false and the slot is not written |
| VaultState.MergeWithoutKeyChangesNothing | src/context/AuthContext.jsx:342-413 | with no key in memory the merge writes nothing yet reports success |
| VaultState.MergeStepConsistent | src/context/AuthContext.jsx:367-413 | one merge entry keeps the vault invariant |
| VaultState.MergeEntriesConsistent | src/context/AuthContext.jsx:367-413 | the whole merge loop keeps the vault invariant |
| VaultState.ImportFreshConsistent | src/context/AuthContext.jsx:274-338 | fresh-install import keeps the vault invariant |
| VaultState.ImportConsistent | src/context/AuthContext.jsx:261-428 | `importData` keeps the vault invariant on every path |
| VaultState.ExportNamesDistinct | src/context/AuthContext.jsx:239-251 | exporting from distinct names yields entries with distinct names |
| VaultState.PayloadData | src/context/AuthContext.jsx:241-251 | the payload's `data` member is the object of exported collections |
| VaultState.ImportIsFresh | src/context/AuthContext.jsx:264-274 | any file that parses to a non-null value imports in fresh mode when the vault has no password |
| VaultState.FreshSucceeds | src/context/AuthContext.jsx:274-338 | with a password, a usable salt and a payload with truthy `data`, fresh import succeeds with the restored store, salt, validator and derived key |
| VaultState.FreshWrongPassword | src/context/AuthContext.jsx:300-313 | a backup sealed under another key than the password derives is refused in fresh mode, and nothing changes |
| VaultState.RestoreWrongPassword | src/context/AuthContext.jsx:264-313 | restoring an exported backup file with the wrong password: `importData` answers false and the vault stays as it was |
| VaultState.RestoreFromBackup | src/context/AuthContext.jsx:274-338 | a backup file of the exported shape restores into a vault without a password |
| VaultState.BackupReadsBack | src/context/AuthContext.jsx:254-304 | fresh import reads back from an exported file the same object, its salt (bytes round-trip) and its ciphertext |
| VaultState.RestoredReadsBack | src/context/AuthContext.jsx:317-333 | what a restore writes to an entry's slot reads back as the entry's value |
| VaultState.ExportedReadBack | src/context/AuthContext.jsx:239-338 | every exported collection reads back from the restored vault as it read before export |
| VaultState.ExportSlotsReserved | src/context/AuthContext.jsx:239 | salt and validator are not among the exported collections |
| VaultState.ExportSlotsDistinct | src/context/AuthContext.jsx:239 | the four exported names are distinct |
| VaultState.ExportedDistinct | src/context/AuthContext.jsx:239-251 | the exported entries have distinct names |
| VaultState.ExportShape | src/context/AuthContext.jsx:233-259 | the exact text `exportData` produces from an unlocked vault whose salt is stored as JSON bytes |
| VaultState.ExportRestoreState | src/context/AuthContext.jsx:233-338 | the state a fresh install reaches by importing an exported backup with the vault's password |
| VaultState.ExportThenRestore | src/context/AuthContext.jsx:233-338 | round trip: export, then fresh-install import with the same password succeeds, installs the same key and reads back every backed-up collection |
| AuthContext.Vault.constructor | src/context/AuthContext.jsx:22-62 | mounting runs the migration loop and the initialisation check, reaching the mounted state |
| AuthContext.Vault.SetMasterPassword | src/context/AuthContext.jsx:155-170 | reaches the set-password state and keeps the invariant |
| AuthContext.Vault.Unlock | src/context/AuthContext.jsx:172-194 | answers the verdict's boolean and reaches the unlocked state it describes |
| AuthContext.Vault.RemoveMasterPassword | src/context/AuthContext.jsx:196-201 | `localStorage.clear()` empties the whole store, every saved collection with the salt and validator, then the key is dropped and both flags are cleared |
| AuthContext.Vault.Lock | src/context/AuthContext.jsx:203-208 | reaches the locked state |
| AuthContext.Vault.UpdateData | src/context/AuthContext.jsx:211-223 | reaches the updated state |
| AuthContext.Vault.GetData | src/context/AuthContext.jsx:225-230 | returns the decrypted reading of the slot |
| AuthContext.Vault.ExportData | src/context/AuthContext.jsx:233-259 | the export loop returns the backup the export function describes |
| AuthContext.Vault.ImportData | src/context/AuthContext.jsx:261-428 | returns the import verdict and reaches the import state it describes, keeping the invariant |
| AuthContext.Vault.RestoreBackup | src/context/AuthContext.jsx:274-338 | the fresh-install branch reaches the fresh-import result |
| AuthContext.Vault.CommitRestore | src/context/AuthContext.jsx:317-333 | writes the restored entries, then salt and validator, and unlocks under the key |
| AuthContext.Vault.RestoreEntries | src/context/AuthContext.jsx:317-321 | the restore loop writes each entry re-encrypted and changes no flag |
| AuthContext.Vault.MergeEntry | src/context/AuthContext.jsx:367-413 | one merge pass reaches the merge step's state and next id, or changes nothing where the spread or the scan throws |
| AuthContext.Vault.MergeBackup | src/context/AuthContext.jsx:367-427 | the merge loop reaches the merge function's verdict and state |
| Crypto.DeriveKeyInjective | src/context/AuthContext.jsx:65-96 | two derivations give the same key exactly when password and salt are the same |
| Crypto.DecryptNeedsEnvelope | src/context/AuthContext.jsx:118-152 | only parsable text with truthy `iv` and `data` and at least 16 ciphertext bytes decrypts, and then to what the cipher opens |
| Crypto.EnvelopeFields | src/context/AuthContext.jsx:98-116 | the envelope `encryptData` writes reads back its nonce and ciphertext as byte arrays |
| Crypto.DecryptEncrypt | src/context/AuthContext.jsx:98-152 | decrypting what was encrypted under the same key gives the value back |
| Crypto.DecryptWrongKey | src/context/AuthContext.jsx:98-152 | decrypting under another key gives `null` |
| Crypto.DecryptMalformed | src/context/AuthContext.jsx:120-127 | text that is not JSON decrypts to `null` |
| JsonValue.Lookup | src/context/AuthContext.jsx:122 | a member reads back exactly when one of that name exists, and it is such a member's value |
| JsonValue.BytesToJson | src/context/AuthContext.jsx:109-110 | `Array.from(bytes)` is an array of the same length |
| JsonValue.JsonToBytes | src/context/AuthContext.jsx:129-130 | `new Uint8Array(v)` throws exactly for a primitive whose number is negative; an array converts element by element into as many bytes |
| JsonValue.ZeroBytes | src/context/AuthContext.jsx:347 | a length gives that many zero bytes, NaN gives none, and a negative length throws |
| JsonValue.NumberOfIntString | src/context/AuthContext.jsx:347 | `Number` reads the decimal text of every integer back as that integer |
| JsonValue.ToUint8OfNumericText | src/context/AuthContext.jsx:129-130 | an array element that is a numeric string, or an array holding that number, converts to the same byte as the number |
| JsonValue.BytesOfNumericText | src/context/AuthContext.jsx:286-289 | a salt given as numeric text is a length: that many zero bytes, or a throw when negative |
| JsonValue.DigitsValueOf | src/context/AuthContext.jsx:347 | the digits of a natural number spell that number |
| JsonValue.DigitRun | src/context/AuthContext.jsx:347 | the leading run of digits is all digits and is followed by a non-digit or the end |
| JsonValue.BytesRoundTrip | src/context/AuthContext.jsx:109-130 | bytes written as a JSON array read back as the same bytes |
| JsonValue.NatToString | src/context/AuthContext.jsx:404-409 | an array index key is never empty |
| JsonValue.SetMemberLookup | src/context/AuthContext.jsx:404-409 | after `{ ...item, id }` the id reads back and every other member is as before |
| Merge.IncludesAt | src/context/AuthContext.jsx:382 | `includes` on a string holds exactly when the text starts at some position of it |
| Merge.LocalOf | src/context/AuthContext.jsx:375-376 | a falsy local value is the empty list, an array or string is scanned as it is, and exactly a truthy number, boolean or object makes the spread throw |
| Merge.StringLocalOtpMerge | src/context/AuthContext.jsx:375-412 | merging `["b", "x"]` into the OTP text `"abc"` writes `["a", "b", "c", "x"]`: the substring is skipped |
| Merge.SubstringB | src/context/AuthContext.jsx:382 | a character of a local string is a duplicate of it |
| Merge.NoSubstringX | src/context/AuthContext.jsx:382 | a character absent from a local string is not a duplicate |
| Merge.DuplicateIsSomeMatch | src/context/AuthContext.jsx:378-399 | `isDuplicate` holds exactly when some local item matches the incoming one under the collection's rule |
| Merge.NoRuleNoDuplicate | src/context/AuthContext.jsx:378-399 | a collection without a rule never reports a duplicate |
| Merge.OtpObjectsNeverDuplicate | src/context/AuthContext.jsx:380-381 | an object or array is never `includes`-equal to a parsed local OTP item |
| Merge.NewItemId | src/context/AuthContext.jsx:404-409 | a pushed object carries the fresh id; a primitive is pushed unchanged |
| Merge.Numbered | src/context/AuthContext.jsx:402-410 | one pushed item per kept item |
| Merge.NumberedSnoc | src/context/AuthContext.jsx:402-410 | one more kept item is pushed with the id after the last one used |
| Merge.NumberedAt | src/context/AuthContext.jsx:402-410 | the i-th kept item is pushed with the i-th fresh id |
| Merge.KeptSnoc | src/context/AuthContext.jsx:370-401 | one more incoming item is tested on its own |
| Merge.KeptAppend | src/context/AuthContext.jsx:370-401 | keeping is a filter: it distributes over concatenation |
| Merge.KeptSingle | src/context/AuthContext.jsx:370-401 | a single item is kept exactly when it is not a duplicate |
| Merge.KeptAreFresh | src/context/AuthContext.jsx:370-401 | every kept item is an incoming item that is not a duplicate, and no more are kept than came in |
| Merge.NoRuleKeepsAll | src/context/AuthContext.jsx:378-401 | without a duplicate rule all incoming items are appended |
| Merge.RepeatedIncomingKept | src/context/AuthContext.jsx:378-401 | duplicates are judged against the local value only: an item repeated in the backup is appended twice |
| Merge.MergeItem | src/context/AuthContext.jsx:370-410 | one turn pushes the item with the next id exactly when it is not a duplicate |
| Merge.MergeItems | src/context/AuthContext.jsx:367-411 | the scan throws exactly for a string in a collection compared field by field with an incoming item; otherwise the merged list is the spread local value followed by the numbered non-duplicates, and added plus skipped is the number of incoming items |
| Bits.Pow2Add | src/lib/otpMigration.js:148 | powers of two multiply by adding exponents |
| Bits.BitOrDisjoint | src/lib/otpMigration.js:148 | OR of non-overlapping bit ranges is addition |
| Bits.BitOrBound | src/lib/otpMigration.js:148 | OR stays below a power of two both operands stay below |
| Bits.Shl32 | src/lib/otpMigration.js:148 | `<<` yields a 32-bit value |
| Bits.BitOr32 | src/lib/otpMigration.js:148 | `|=` of 32-bit values stays 32-bit |
| Bits.Int32 | src/lib/otpMigration.js:148 | the signed reading is congruent to the unsigned one modulo 2^32 and negative exactly when bit 31 is set |
| OtpMigration.WireType | src/lib/otpMigration.js:61 | the wire type is below 8 |
| OtpMigration.FieldNumber | src/lib/otpMigration.js:62 | a one-byte tag is field number times 8 plus wire type |
| OtpMigration.VarintEnd | src/lib/otpMigration.js:143-153 | a varint ends after the first byte without the high bit, and every earlier byte has it |
| OtpMigration.VarintFold | src/lib/otpMigration.js:143-153 | the `|=`/`<<` accumulation stays a 32-bit value |
| OtpMigration.VarintSumBound | src/lib/otpMigration.js:143-153 | n base-128 digits stay below 2^(7n) |
| OtpMigration.FoldIsSum | src/lib/otpMigration.js:143-153 | the fold equals the base-128 value of the bytes modulo 2^32 |
| OtpMigration.VarintValueIsSum | src/lib/otpMigration.js:143-153 | `readVarint` yields the base-128 value (exact up to four bytes, modulo 2^32 for five) |
| OtpMigration.ReadVarint | src/lib/otpMigration.js:143-153 | the loop returns the varint's value and end, past `pos` |
| OtpMigration.SkipTo | src/lib/otpMigration.js:155-167 | skipping advances exactly for wire types 0, 1, 2 and 5 and stays put otherwise; a wire-type-2 length is read unsigned, the corrected reading of Findings |
| OtpMigration.SkipField | src/lib/otpMigration.js:155-167 | the skipping method lands where the specification says |
| OtpMigration.Slice | src/lib/otpMigration.js:68 | `buffer.slice` clamps both ends and is the exact slice when they are in range |
| OtpMigration.FieldAt | src/lib/otpMigration.js:59-74 | a field's number and wire type come from its tag, and it ends where skipping would put it, past its start; its length is read unsigned, the corrected reading of Findings |
| OtpMigration.FieldsAdvance | src/lib/otpMigration.js:59-75 | each field ends after the previous one: the parse loops terminate |
| OtpMigration.AlgorithmOf | src/lib/otpMigration.js:130-131 | 0 is INVALID, 2..4 name SHA256/SHA512/MD5, and 1 or any out-of-range value gives SHA1 |
| OtpMigration.DigitsOf | src/lib/otpMigration.js:135 | 8 digits exactly for value 2, otherwise 6 |
| OtpMigration.ApplyAllAppend | src/lib/otpMigration.js:107-139 | applying fields is sequential composition |
| OtpMigration.Untouched | src/lib/otpMigration.js:97-139 | a member no field sets keeps its value; the type is never set |
| OtpMigration.LastOccurrenceWins | src/lib/otpMigration.js:107-139 | a repeated field takes the value of its last occurrence |
| OtpMigration.DefaultsWhenAbsent | src/lib/otpMigration.js:97-104 | a member absent from the buffer keeps its default, and the type is "TOTP" |
| OtpMigration.ParamsField | src/lib/otpMigration.js:108-138 | one loop turn applies the field at `pos` and moves past it |
| OtpMigration.ParseOtpParameters | src/lib/otpMigration.js:96-141 | the loop yields the record that all fields, applied in order to the defaults, describe; lengths are read unsigned, the corrected reading of Findings |
| OtpMigration.EntriesAppend | src/lib/otpMigration.js:59-75 | one record per field-1 length-delimited entry, in occurrence order |
| OtpMigration.PayloadStep | src/lib/otpMigration.js:59-75 | a field contributes at most one record |
| OtpMigration.PayloadField | src/lib/otpMigration.js:60-74 | one loop turn yields the entry's record, if any, and moves past the field |
| OtpMigration.ParseMigrationPayload | src/lib/otpMigration.js:55-94 | the loop collects the records of all entries in order, and the result is the URIs of those whose conversion does not throw |
| OtpMigration.AlgorithmName | src/lib/otpMigration.js:83 | every algorithm name is non-empty, so the `|| "SHA1"` fallback never applies |
| OtpMigration.TotpArgsOf | src/lib/otpMigration.js:80-87 | the issuer and label handed to the TOTP are never empty, nor are the digits zero |
| OtpMigration.Decoded | src/lib/otpMigration.js:98-99 | an unset name or issuer is the literal `""`; a set one is the decoded bytes |
| OtpMigration.IssuerFromName | src/lib/otpMigration.js:81 | without an issuer, the issuer is the part of the name before its first colon, or "Unknown" |
| OtpMigration.ConvertedUris | src/lib/otpMigration.js:77-93 | no more URIs come out than records went in |
| OtpMigration.ConvertedAppend | src/lib/otpMigration.js:77-93 | the conversion is a filter: it distributes over concatenation |
| OtpMigration.AllConverted | src/lib/otpMigration.js:77-93 | when no conversion throws, each record gives its URI in its place |
| OtpMigration.NoneConverted | src/lib/otpMigration.js:89-93 | when every conversion throws, no URI is left |
| OtpMigration.BytesOf | src/lib/otpMigration.js:25-28 | the buffer has one byte per character, its low eight bits |
| OtpMigration.FillBuffer | src/lib/otpMigration.js:25-28 | the fill loop writes exactly those bytes |
| OtpMigration.DecodeMigrationUri | src/lib/otpMigration.js:10-31 | wrong prefix and missing data are errors; data that is not Base64 is `BadBase64`; decoding succeeds exactly when prefix, data and Base64 are valid, with the URIs of the payload's records that convert |
| OtpMigration.SignedLengthLoops | src/lib/otpMigration.js:59-167 | as written, the length FA FF FF FF 0F, which reads as -6, after a wire-type-2 tag at 0 returns `pos` to 0, so the payload loop, the record loop and `skipField` alike never end; read unsigned the field ends past the buffer |
| OtpMigration.NegativeLengthMovesBack | src/lib/otpMigration.js:59-167 | as written, any negative length puts `pos` before the end of its own length varint |
| OtpMigration.ShortNegativeLength | src/lib/otpMigration.js:59-70 | a length read as -3 moves `pos` back to 3 rather than to 0: not every negative length loops |
| OtpMigration.LoopingLength | src/lib/otpMigration.js:143-153 | the five bytes FA FF FF FF 0F spell 2^32 - 6 |
| OtpDialog.AccountName | src/components/AddOtpDialog.jsx:50 | the label is never empty and is the given one when one is given |
| OtpDialog.ManualResult | src/components/AddOtpDialog.jsx:32-61 | a secret is required; an account is added exactly for a Base32 secret, with SHA1, 6 digits, a 30-second period |
| OtpDialog.Normalize | src/components/AddOtpDialog.jsx:106-113 | text is accepted exactly when it starts with `otpauth://` or `web+otpauth://`, and the result starts with `otpauth://` |
| OtpDialog.NormalizeUri | src/components/AddOtpDialog.jsx:106-113 | the `finalUri` steps compute the normalisation |
| OtpDialog.NormalizeIdempotent | src/components/AddOtpDialog.jsx:106-113 | normalising twice is normalising once |
| OtpDialog.WebSchemeRewritten | src/components/AddOtpDialog.jsx:108-109 | the rewrite keeps everything after the scheme |
| OtpDialog.MigrationIsNotOtp | src/components/AddOtpDialog.jsx:91-113 | migration text never passes as a plain OTP URI |
| OtpDialog.MigrationRecords | src/lib/otpMigration.js:10-31 | the payload is read exactly for migration text with data that Base64-decodes |
| OtpDialog.MigrationUris | src/components/AddOtpDialog.jsx:91-93 | decoding succeeds exactly when the records can be read, and gives at most one URI per record |
| OtpDialog.Route | src/components/AddOtpDialog.jsx:86-122 | a rejection adds nothing; an import adds at least one URI and counts them; a load adds the one parsed `otpauth://` URI |
| OtpDialog.MigrationQrRoute | src/components/AddOtpDialog.jsx:91-103 | migration text adds every decoded URI, and is refused when decoding fails or yields none |
| OtpDialog.PlainQrRoute | src/components/AddOtpDialog.jsx:105-118 | other text is normalised and added only when `URI.parse` accepts it |
| OtpDialog.EmptyMigrationRejected | src/components/AddOtpDialog.jsx:95-97 | a migration code none of whose records converts, or that has no records, is refused and adds nothing |
| OtpDialog.FullMigrationImported | src/components/AddOtpDialog.jsx:91-103 | a migration code all of whose records convert imports one URI per record, in record order |
| OtpDialog.QrTextTrimmed | src/components/AddOtpDialog.jsx:87 | surrounding whitespace does not change the outcome |
| OtpDialog.AddOtpDialog.constructor | src/components/AddOtpDialog.jsx:24-30 | closed, empty form, nothing added |
| OtpDialog.AddOtpDialog.HandleManualSubmit | src/components/AddOtpDialog.jsx:32-67 | on success adds the URI, closes and resets the form; otherwise changes nothing |
| OtpDialog.AddOtpDialog.AddAll | src/components/AddOtpDialog.jsx:99 | `forEach(onAdd)` appends the URIs in order |
| OtpDialog.AddOtpDialog.HandleMigrationText | src/components/AddOtpDialog.jsx:91-103 | adds all converted URIs and closes, or changes nothing when decoding throws or no record converts |
| OtpDialog.AddOtpDialog.HandleQrText | src/components/AddOtpDialog.jsx:86-122 | what is added and the outcome are those of the route; a rejection changes nothing |
| OtpDialog.AddOtpDialog.HandleOtpText | src/components/AddOtpDialog.jsx:105-118 | adds the normalised URI when it parses, else changes nothing |
| OtpCard.Epoch | src/components/OtpCard.jsx:32 | the epoch is the whole seconds of the timestamp |
| OtpCard.Remaining | src/components/OtpCard.jsx:33 | 1 to `period` seconds remain, and they reach the next multiple of the period |
| OtpCard.RemainingTicks | src/components/OtpCard.jsx:32-38 | the countdown falls by one per second and restarts at the full period |
| OtpCard.ProgressColor | src/components/OtpCard.jsx:52 | red exactly under five seconds |
| OtpCard.RedAtEndOfStep | src/components/OtpCard.jsx:33-52 | red exactly in the last four seconds of each time step |
| OtpCard.IssuerShown | src/components/OtpCard.jsx:59 | an empty issuer shows "Unknown Issuer" |
| OtpCard.LabelShown | src/components/OtpCard.jsx:62 | a label without a colon shows as it is |
| OtpCard.IssuerAccountLabel | src/components/OtpCard.jsx:62 | `issuer:account` shows the trimmed account |
| OtpCard.ThreeSegmentLabel | src/components/OtpCard.jsx:62 | with two colons only the middle segment shows |
| OtpCard.CodeShown | src/components/OtpCard.jsx:68 | the code shows with one space inserted after at most three characters, nothing else changed |
| OtpCard.SixDigitCode | src/components/OtpCard.jsx:68 | a six-digit code shows as two groups of three |
| EnvCard.Preview | src/components/EnvCard.jsx:23 | up to three lines the preview is the content; beyond, the first three lines and `\n...` |
| EnvCard.PreviewIsPrefix | src/components/EnvCard.jsx:23 | without the ellipsis the preview is a prefix of the content |
| EnvCard.PreviewLineCount | src/components/EnvCard.jsx:23 | the preview has at most four lines: three of the content and `...` |
| Text.TrimStart | src/components/AddEnvDialog.jsx:24 | the start is stripped of whitespace only, and no whitespace is left in front |
| Text.TrimEnd | src/components/AddEnvDialog.jsx:24 | the end is stripped of whitespace only, and no whitespace is left at the back |
| Text.Trim | src/components/AddEnvDialog.jsx:24 | the result neither starts nor ends with whitespace |
| Text.TrimStartEmpty | src/components/AddEnvDialog.jsx:24 | trimming the start gives "" exactly for all-whitespace text |
| Text.TrimEndEmpty | src/components/AddEnvDialog.jsx:24 | trimming the end gives "" exactly for all-whitespace text |
| Text.TrimEmpty | src/components/AddEnvDialog.jsx:24 | `trim()` gives "" exactly for all-whitespace text |
| Text.TrimStartFixed | src/components/AddEnvDialog.jsx:30-31 | text starting with a non-space is unchanged by trimming its start |
| Text.TrimEndFixed | src/components/AddEnvDialog.jsx:30-31 | text ending with a non-space is unchanged by trimming its end |
| Text.TrimIdempotent | src/components/AddEnvDialog.jsx:30-31 | trimming twice is trimming once |
| Text.Split | src/components/EnvCard.jsx:23 | `split` gives at least one part, none containing the separator |
| Text.JoinSplit | src/components/EnvCard.jsx:23 | joining the split parts gives the text back |
| Text.JoinAppend | src/components/EnvCard.jsx:23 | join distributes over concatenation with a separator between |
| Text.SplitPrefix | src/components/EnvCard.jsx:23 | the join of the first k parts is a prefix of the text |
| Text.SplitJoin | src/components/EnvCard.jsx:23 | splitting a join of separator-free parts gives the parts back |
| Text.SplitNoSep | src/components/OtpCard.jsx:62 | text without the separator splits into itself |
| PairForm.Submitted | src/components/AddEnvDialog.jsx:22-32 | submitted exactly when both trimmed fields are non-empty, with the trimmed values |
| PairForm.RefusedIffBlank | src/components/AddPasskeyDialog.jsx:24-27 | refused exactly when a field is all whitespace |
| PairForm.SubmittedStable | src/components/AddPasskeyDialog.jsx:24-32 | submitting already-trimmed values gives the same result |
| EnvDialog.AddEnvDialog.constructor | src/components/AddEnvDialog.jsx:18-20 | closed, empty fields, nothing submitted |
| EnvDialog.AddEnvDialog.HandleSubmit | src/components/AddEnvDialog.jsx:22-38 | accepted exactly when both fields are non-blank; then the trimmed pair is added, the dialog closes and the fields reset; otherwise nothing changes |
| PasskeyDialog.AddPasskeyDialog.constructor | src/components/AddPasskeyDialog.jsx:18-20 | closed, empty fields, nothing submitted |
| PasskeyDialog.AddPasskeyDialog.HandleSubmit | src/components/AddPasskeyDialog.jsx:22-38 | accepted exactly when label and secret are non-blank; then the trimmed pair is added, the dialog closes and the fields reset; otherwise nothing changes |
| RecordLists.Prepend | src/pages/Envs.jsx:39 | the new item is in front and the old list behind it |
| RecordLists.WithoutId | src/pages/Envs.jsx:45 | deleting never lengthens the list |
| RecordLists.WithoutIdDrops | src/pages/Envs.jsx:45 | every survivor was in the list and lacks the id |
| RecordLists.WithoutIdKeeps | src/pages/Envs.jsx:45 | every record without the id survives |
| RecordLists.WithoutIdSnoc | src/pages/Envs.jsx:45 | the last record is tested on its own |
| RecordLists.WithoutIdAppend | src/pages/Envs.jsx:45 | the filter distributes over concatenation, so survivors keep their order |
| RecordLists.WithoutIdSingle | src/pages/Envs.jsx:45 | a single record is kept exactly when it lacks the id |
| RecordLists.WithoutIdAbsent | src/pages/Envs.jsx:45 | deleting an absent id changes nothing |
| RecordLists.WithoutIdIdempotent | src/pages/Envs.jsx:45 | deleting twice is deleting once |
| RecordLists.WithoutIdPrepend | src/pages/Envs.jsx:39-45 | deleting from a list with a new front record deletes from the rest and drops the front one only if it has the id |
| EnvsPage.EnvItemFields | src/pages/Envs.jsx:33-38 | a new item reads back its id, project name and content |
| EnvsPage.AddedEnv | src/pages/Envs.jsx:32-42 | one more item, the new one in front with its fields and id, the old list behind |
| EnvsPage.DeletedEnv | src/pages/Envs.jsx:44-48 | no item with the id remains and every other item does |
| EnvsPage.DeleteKeepsOrder | src/pages/Envs.jsx:44-48 | deleting applies to each part of a split list separately, so order is kept |
| EnvsPage.DeleteAbsent | src/pages/Envs.jsx:44-48 | deleting an id no item carries leaves the list unchanged |
| EnvsPage.AddThenDelete | src/pages/Envs.jsx:32-48 | deleting the item just added (with a new id) restores the list |
| EnvsPage.SavedEnvs | src/pages/Envs.jsx:27-30 | saving changes only the page's slot |
| EnvsPage.EnvListSlotNotExported | src/pages/Envs.jsx:18 | the page's `sphinx-envs` slot is neither exported nor the salt |
| EnvsPage.EnvsNeverExported | src/pages/Envs.jsx:27-30 | what the page saves never changes the backup |
| PasswordsPage.Score | src/pages/Passwords.jsx:63-68 | at most five points, and five exactly for 16+ characters with all classes enabled |
| PasswordsPage.StrengthOf | src/pages/Passwords.jsx:61-73 | no strength exactly for an empty password; otherwise one of Weak, Medium, Strong |
| PasswordsPage.StrongIff | src/pages/Passwords.jsx:61-73 | Strong exactly for 16+ characters with all four classes |
| PasswordsPage.StrengthBands | src/pages/Passwords.jsx:61-73 | a short password without digits or symbols is Weak; 12-15 characters with all classes is Medium |
| PasswordsPage.GetPasswordStrength | src/pages/Passwords.jsx:61-73 | the counting method yields the strength the bands define |
| PasswordsPage.Charset | src/pages/Passwords.jsx:81-84 | the charset's length is the sum of the enabled classes' sizes |
| PasswordsPage.CharsetEmpty | src/pages/Passwords.jsx:81-89 | the charset is empty exactly when no class is enabled |
| PasswordsPage.CharsetOrder | src/pages/Passwords.jsx:81-84 | classes appear in the fixed order lower, upper, digits, symbols |
| PasswordsPage.BuildCharset | src/pages/Passwords.jsx:78-84 | the `+=` steps build the charset |
| PasswordsPage.Index | src/pages/Passwords.jsx:92 | `Math.floor(Math.random() * n)` is a valid index |
| PasswordsPage.Drawn | src/pages/Passwords.jsx:91-93 | the password has the requested length and draws only from the charset |
| PasswordsPage.GeneratePassword | src/pages/Passwords.jsx:77-97 | with no class enabled the shown password stays; otherwise the loop draws the password |
| PasswordsPage.GeneratedFromEnabledClasses | src/pages/Passwords.jsx:77-97 | every generated character belongs to an enabled class |
| PasswordsPage.HistoryEntryFields | src/pages/Passwords.jsx:44-48 | a history entry reads back its id, value and timestamp |
| PasswordsPage.SavedToHistory | src/pages/Passwords.jsx:43-52 | the new entry goes in front with its fields, the history behind |
| PasswordsPage.DeletedFromHistory | src/pages/Passwords.jsx:54-58 | exactly the entries without the id remain |
| PasswordsPage.SaveThenDelete | src/pages/Passwords.jsx:43-58 | deleting the entry just saved (with a new id) gives the old history back |
| PasswordsPage.SavedPasswords | src/pages/Passwords.jsx:38-41 | saving changes only the page's slot |
| PasswordsPage.LoadedPasswords | src/pages/Passwords.jsx:26-36 | a locked vault loads the empty list |
| PasswordsPage.SaveThenLoad | src/pages/Passwords.jsx:26-41 | an unlocked vault loads back the list it saved |
| PasswordsPage.HistorySlotNotExported | src/pages/Passwords.jsx:29 | the page's `sphinx-passwords` slot is neither exported nor the salt |
| PasswordsPage.HistoryNeverExported | src/pages/Passwords.jsx:38-41 | the saved history never changes the backup |
| PasswordsPage.HistoryMovedOnFirstMount | src/pages/Passwords.jsx:29 | history saved under `sphinx-passwords` moves to `tamga-passwords` on the next mount, and the page then loads nothing from its own slot |
| SettingsPage.PasswordCheck | src/pages/Settings.jsx:29-38 | too short exactly under four characters; mismatch exactly when long enough but different; set otherwise |
| SettingsPage.RemoveAfterSet | src/pages/Settings.jsx:46-57 | after the password is set, removal proceeds for it and refuses any other |
| SettingsPage.RemoveNeedsValidator | src/pages/Settings.jsx:46-57 | in a configured vault removal proceeds only for a password whose key opens the validator |
| SettingsPage.BackupFileName | src/pages/Settings.jsx:67 | `tamga-backup-` plus the first ten characters of the timestamp plus `.enc` |
| SettingsPage.BackupFileNameOfTimestamp | src/pages/Settings.jsx:67 | for an ISO timestamp the name is 27 characters and carries the date |
| SettingsPage.ImportNeedsUnlockedVault | src/pages/Settings.jsx:75-89 | importing from the page into a vault without a password, or a locked one, fails and changes nothing |
| SettingsPage.ImportForeignBackup | src/pages/Settings.jsx:75-89 | a backup under another key never merges from the page |
| SettingsPage.Settings.constructor | src/pages/Settings.jsx:23-25 | all three form fields start empty |
| SettingsPage.Settings.HandleSetPassword | src/pages/Settings.jsx:29-44 | the checks decide the outcome; on success the vault is set and both fields clear; otherwise nothing changes |
| SettingsPage.Settings.HandleRemovePassword | src/pages/Settings.jsx:46-57 | removes exactly when unlock accepts the current password, then clears the vault and the field; otherwise the vault is unchanged |
| SettingsPage.Settings.HandleExport | src/pages/Settings.jsx:59-73 | downloads the backup text under the dated name exactly when export yields one |
| SettingsPage.Settings.HandleImport | src/pages/Settings.jsx:75-89 | the import result and state are those of `importData` without password or manual salt |

## Left out

- PBKDF2 is modelled as injective: a key is its password and salt, so two different password-salt pairs never derive the same key. The wrong-password and wrong-salt results of unlocking and importing rest on this.
- Cryptography is abstract. AES-GCM, PBKDF2, `crypto.getRandomValues`, `TextEncoder` and `TextDecoder` are a platform whose properties are assumed, not modelled.
- `JSON.parse` and `JSON.stringify` are platform functions. Numbers are integers only.
- A property read on `null` is treated as `undefined` rather than as a throw. The source throws there, and the model does not follow it in three places. (1) A `null` item in a backup list merged into a non-empty password, environment or passkey list: the source fails the import at `item.platform` (src/context/AuthContext.jsx:385-397), while the model compares it like any other item and the import succeeds. (2) A `null` item stored in one of those local lists: the same happens at `p.platform`. (3) A `null` item in a stored list shown by the password or environment page: deleting there throws at `p.id` or `item.id` (src/pages/Passwords.jsx:55, src/pages/Envs.jsx:45), while the model's filter keeps the item.
- Strings are sequences of Unicode characters. `.length` on text outside the Basic Multilingual Plane counts UTF-16 code units in the source, which the model does not.
- JsonValue.NumberOfString: reads signed decimal literals with an optional fraction, which it truncates. Exponents, `0x`/`0o`/`0b` literals and `Infinity` read as NaN, although `Number` accepts them. A huge length or one past 2^53 - 1, which makes `new Uint8Array` throw, is not modelled.
- JsonValue.JsonToBytes: an object with a `length` member is not read as array-like. The model gives an empty array for every object.
- JsonValue.Lookup: an object with two members of the same name reads as its first such member, while `JSON.parse` keeps the last. The platform rule that parsing undoes `stringify` covers such objects too. A real parse never yields one, and no property here depends on it.
- `Object.entries` order: object members keep their written order. JavaScript's reordering of integer-like keys is not modelled.
- `isLegacy` in `importData` is computed but never used, so it is not modelled.
- The merge statistics appear only in a toast. The count is kept, the message is not.
- Ids from `Date.now() + Math.random()` are a parameter `ids`, so the floating-point arithmetic is not modelled.
- The conversion of a record into an `otpauth://` URI (src/lib/otpMigration.js:77-93) is modelled up to the library call: the options built from the record, the caught throw and the filter. `new OTPAuth.TOTP(...)`, `OTPAuth.Secret`, `toString()` and `TextDecoder` are the oracle `OtpMigration.Converter`.
- The `otpauth` library (`Secret.fromBase32`, `TOTP`, `URI.parse`, `generate`) is an oracle. `new URL(...).searchParams` is the `data` parameter.
- jsQR image decoding, `FileReader`, `Blob`, download links, the clipboard, toasts, console logging and React rendering are left out. Only the text and values they carry are modelled.
- OtpCard.Remaining: requires a positive period. The library only builds TOTPs with a positive period.
- OtpCard.Epoch: takes a non-negative millisecond count. `Date.now()` is never negative.
- `setInterval` and the progress percentage of the OTP card are left out. The percentage is floating point.
- A page loading a stored value that is truthy but not an array is not modelled. The model's load gives the empty list.
- The file upload of AddEnvDialog (`handleFileUpload`) is left out. It only fills the form.
- OtpCard.LabelShown: its contract covers only the colon-free label; lemmas IssuerAccountLabel and ThreeSegmentLabel cover labels with one or two colons.

## Findings

| source | as written | input that shows it | evidently intended | confidence | as-written member | corrected member |
|---|---|---|---|---|---|---|
| src/lib/otpMigration.js:66-70 | the length of a record field of the payload is the signed 32-bit number that `|=` leaves, so a length varint with bit 31 set moves `pos` backwards | payload bytes `0A FA FF FF FF 0F`: the length reads as -6 with `nextPos` 6, so `pos` returns to 0 and the loop pushes a record forever | read the length unsigned: the field ends past the buffer and the loop stops | not executed | OtpMigration.SignedLengthLoops | OtpMigration.ParseMigrationPayload |
| src/lib/otpMigration.js:113-126 | the secret, name and issuer lengths of a record are read signed in the same way | record bytes `12 FA FF FF FF 0F`: the name length reads as -6, `pos` returns to 0 and `parseOtpParameters` never returns | read the length unsigned: the field ends past the buffer and the loop stops | not executed | OtpMigration.SignedLengthLoops | OtpMigration.ParseOtpParameters |
| src/lib/otpMigration.js:159-160 | `skipField` adds the signed length to `nextPos`, so skipping a length-delimited field can move `pos` backwards | payload bytes `12 FA FF FF FF 0F` (field 2, which the payload loop skips): `skipField` returns 0 and the loop never ends | read the length unsigned: the skip always advances | not executed | OtpMigration.SignedLengthLoops | OtpMigration.SkipField |
