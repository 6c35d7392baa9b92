# Secure-Vault core in Dafny

A model of the encrypted credential vault of Secure-Vault (Rust). It covers
three pieces:

- **The vault file framing** (`crypto.dfy`, `storage.dfy`). A vault file is
  `salt(16) || nonce(12) || ciphertext+tag`.
  - `CryptoManager::new` derives a 32-byte key with Argon2id (RFC 9106) and
    builds an AES-256-GCM cipher (NIST SP 800-38D).
  - `encrypt` prefixes a fresh 96-bit nonce to the GCM output.
  - `decrypt` rejects blobs under 12 bytes, splits the nonce off at byte 12,
    and maps every tag failure to one message.
  - `Storage::load` either creates a vault in memory when no file exists, or
    rejects files under 16 bytes, splits the salt off at byte 16, derives the
    key, decrypts and parses the JSON.
  - `Storage::save` writes the fixed salt followed by the `encrypt` output of
    the serialised store.
- **The password generator** (`Storage::generate_password`). It makes `len`
  independent picks from an 89-character set: 26 upper-case letters, 26
  lower-case letters, 10 digits and 27 symbols.
- **The entry editor** (`app.dfy`, `dashboard.dfy`). `PasswordManagerApp::update`
  is a state machine over the ordered entry list, the selected position, the
  three form fields and the error message. The dashboard's service filter is a
  pure, position-preserving filter.

The cryptographic and encoding libraries are the fields of a `Primitives`
value: Argon2id, GCM seal and open, UTF-8 encode and decode, JSON print and
parse. Each field is a total function, so key derivation is deterministic in
(password, salt). The laws the proofs use are ghost predicates that the
lemmas require:
- `AeadCorrect`: opening what was sealed gives the plaintext back.
- `TagAppended`: the GCM output is 16 bytes longer than the plaintext.
- `Utf8RoundTrip`: decoding the UTF-8 bytes of a string gives the string.
- `JsonRoundTrip`: parsing the printed store gives the store.

Entropy is passed in as parameters:
- `RandomBytes` (`nat -> bv8`) is the stream one call draws its salt or nonce
  from: the first 16 or 12 bytes.
- `nat -> CharsetIndex` gives the character picks of one generated password.

The file is a `FileSystem` object holding a `VaultFile` value. That value is
the file's bytes (`None` when it does not exist) and the I/O error a read or a
write would report.

Errors are the strings the Rust code formats. Each library's own error text
comes from the primitive's `Err` payload.

Facts about the code that the model keeps:
- The charset literal of `generate_password` has 89 characters.
- A file under 16 bytes gets "File corrupted". From 16 to 27 bytes it gets
  "Corrupted data", unless key derivation fails first.
- `generate_password(0)` is allowed and returns the empty string.
- A missing file creates the vault in memory only. Nothing is written until
  the first save.

## Model

| member | source | states |
|---|---|---|
| `Crypto.CipherFromSlice` | src/crypto.rs:19-20 | a cipher is built exactly when the key slice is 32 bytes, and it holds that key |
| `Crypto.NonceOf` | src/crypto.rs:25 | the nonce `generate_nonce` draws is the first 12 bytes of the entropy stream |
| `Crypto.SaltOf` | src/crypto.rs:51-54 | the salt is the first 16 bytes of the entropy stream |
| `Crypto.New` | src/crypto.rs:13-22 | fails exactly when Argon2id fails, with "Key derivation failure: " and the library text; otherwise the cipher holds the key derived from the password's bytes and the salt, so initialisation never fails |
| `Crypto.Encryption` | src/crypto.rs:24-33 | an encrypt output starts with the 12-byte nonce and continues with the GCM output; it fails exactly when GCM sealing fails, with "Failed to encrypt: " and the library text |
| `Crypto.Encrypt` | src/crypto.rs:24-33 | returns the framing above for the nonce drawn from the entropy stream |
| `Crypto.Decrypt` | src/crypto.rs:35-49 | under 12 bytes gives "Corrupted data" without calling the cipher; a failed tag check gives "Failed to decrypt (Wrong password ?)"; when the tag verifies, the result is Ok with the UTF-8 decoding of GCM-open of bytes [12,end) under the nonce in bytes [0,12) exactly when that decoding succeeds, and "Invalid UTF-8 sequence: " with the decoder's text otherwise |
| `Crypto.GenerateSalt` | src/crypto.rs:51-55 | the salt is 16 bytes, the first 16 bytes of the entropy stream |
| `Crypto.DecryptEncryption` | src/crypto.rs:24-49 | round trip: decrypt of an encrypt output under the same cipher gives back the string |
| `Crypto.EncryptionLength` | src/crypto.rs:25-32 | an encrypt output is 12 + plaintext length + 16 bytes long |
| `Crypto.AuthFailuresAlike` | src/crypto.rs:44-47 | a wrong key and a tampered blob give the same single error |
| `Storage.Loaded` | src/storage.rs:15-46 | with no file: succeeds exactly when derivation succeeds, with the drawn salt and an empty store, and otherwise fails with the derivation error; a read error gives "Failed to read file: "; under 16 bytes: "File corrupted"; otherwise a derivation error, a decrypt error (a failed tag check, a short remainder, bad UTF-8) and a parse error ("Failed to deserialize: ") each surface as load's error, and success is the parsed store under the salt of the first 16 bytes; an opened file is at least 28 bytes; the cipher is always the one derived from the password and that salt |
| `Storage.Load` | src/storage.rs:15-46 | load returns what `Loaded` describes and writes nothing |
| `Storage.SaveImage` | src/storage.rs:48-54 | the written bytes start with the vault's salt, so every save shares the same 16-byte prefix; the rest is the encrypt output of the JSON; the image exists exactly when serialising and encrypting both succeed; a serialisation failure gives "Failed to serialize: ", an encrypt failure its own error |
| `Storage.SaveOutcome` | src/storage.rs:48-58 | save succeeds exactly when serialising and encrypting succeed and the write does not fail; an image failure is returned as is, a write failure as "Failed to write: " |
| `Storage.AfterSave` | src/storage.rs:54-57 | a successful save replaces the file contents with the image; a failed one leaves the file as it was |
| `Storage.Save` | src/storage.rs:48-58 | save returns `SaveOutcome` and leaves the file as `AfterSave` says; the vault value is not changed |
| `Storage.ShortFileRejected` | src/storage.rs:20-30 | every existing file under 28 bytes is rejected for every password: under 16 with "File corrupted", from 16 on with "Corrupted data" or the derivation error |
| `Storage.LoadAuthFailureIsWrongPassword` | src/storage.rs:28-30 | opening a vault of at least 28 bytes whose tag check fails gives "Failed to decrypt (Wrong password ?)", so a wrong password and a tampered file look alike to the user |
| `Storage.SaveThenLoad` | src/storage.rs:15-58 | round trip: load of a saved file with the password the vault was unlocked with gives back the same vault (same salt and cipher) and the same store |
| `Storage.SaveImageLength` | src/storage.rs:49-54 | a saved file is 16 + 12 + JSON byte length + 16 bytes long |
| `Storage.GeneratePassword` | src/storage.rs:60-69 | the password has exactly `len` characters, each from the charset, so `len = 0` gives the empty string |
| `Storage.CharsetLayout` | src/storage.rs:61 | the charset has 89 characters: 26 upper-case, then 26 lower-case, then 10 digits, then 27 non-alphanumeric symbols |
| `Storage.PositionOfCharset` | src/storage.rs:61 | `CharsetPosition` inverts indexing into the charset |
| `Storage.CharsetDistinct` | src/storage.rs:61 | no character occurs twice in the charset |
| `Storage.GeneratePasswordInjective` | src/storage.rs:63-68 | draws that differ at any position below `len` give different passwords |
| `Storage.GeneratePasswordCovers` | src/storage.rs:63-68 | every string over the charset is the result of some draws |
| `Dashboard.ToLowercase` | src/main.rs:246-247 | lower-casing keeps the length and maps each character |
| `Dashboard.Contains` | src/main.rs:247 | the empty pattern is always contained, and a contained pattern is no longer than the text; `ContainsIffOccurs` shows it decides substring occurrence |
| `Dashboard.ContainsIffOccurs` | src/main.rs:244-247 | `Contains(s, t)` holds exactly when `t` occurs in `s` at some position |
| `Dashboard.Matches` | src/main.rs:244-247 | the empty query matches every entry, and a matching query is no longer than the service name |
| `Dashboard.SearchResults` | src/main.rs:240-255 | the listed positions are strictly increasing and in range; they are exactly those of the entries whose lower-cased service contains the lower-cased query |
| `Dashboard.EmptyQueryListsAll` | src/main.rs:240-255 | an empty query lists every position, in order |
| `App.Removed` | src/main.rs:137 | `Vec::remove(id)` drops exactly entry `id` and shifts the later ones down by one |
| `App.Edited` | src/main.rs:113-123 | with a selection the form replaces that entry and no other, keeping the length; without one it is appended after the unchanged list |
| `App.ClearForm` | src/main.rs:131-134 | the form is empty and nothing is selected; the entries, the vault and the error are kept, and the editor's invariant holds |
| `App.Transition` | src/main.rs:73-157 | one update: only LoginPressed changes the open vault; only LoginPressed, SaveEntry and DeleteService change the entries; only SaveEntry and DeleteService write the file; only CopyPassword returns a task, a clipboard write of its argument, and changes nothing else |
| `App.AcceptedIndicesInRange` | src/main.rs:248-301 | the dashboard offers SelectService only for listed positions and DeleteService only for the selection, so in a consistent state every index the handlers use unchecked exists |
| `App.PasswordManagerApp.constructor` | src/main.rs:51-70 | the app starts locked, with no entries, no selection, an empty form and password length 16, so the editor's invariant holds |
| `App.PasswordManagerApp.Update` | src/main.rs:73-157 | each message changes the fields in place and the vault file as `Transition` describes, and returns its task; the editor's invariant (selection in range, nothing selected while locked) is kept |
| `App.PasswordManagerApp.OnLoginPressed` | src/main.rs:84-92 | the LoginPressed arm, as `Transition` describes it |
| `App.PasswordManagerApp.OnSaveEntry` | src/main.rs:112-135 | the SaveEntry arm, including the save to the vault file |
| `App.PasswordManagerApp.OnDeleteService` | src/main.rs:136-142 | the DeleteService arm, including the save whose result is ignored |
| `App.TransitionKeepsSelectionInRange` | src/main.rs:84-164 | for the messages the view can deliver, every handler keeps the selected position in range and nothing selected while no vault is open, so the unchecked indexing at lines 95, 120 and 137 cannot go out of bounds |
| `App.SaveEntryReplacesSelected` | src/main.rs:112-120 | with a selection, SaveEntry replaces that entry with the form, keeps the length and changes no other entry |
| `App.SaveEntryAppends` | src/main.rs:121-122 | with no selection, SaveEntry appends the form; the length grows by one and the prefix is unchanged |
| `App.SaveEntryClearsForm` | src/main.rs:125-134 | after SaveEntry the form is empty and nothing is selected, whether or not the save succeeded; a failed save sets the error and keeps the edit in memory |
| `App.DeleteServiceRemoves` | src/main.rs:136-141 | DeleteService removes exactly entry `id`, keeps the order of the rest, drops the selection and sets no error |
| `App.SelectServiceFillsForm` | src/main.rs:93-99 | SelectService selects `id` and copies that entry's three fields into the form; no entry and no file changes |
| `App.CancelEditClears` | src/main.rs:146-151 | CancelEdit clears the form and the selection and changes nothing else |
| `App.ToggleVisibilityTwice` | src/main.rs:78-80 | ToggleVisibility applied twice is the identity |
| `App.LoginPressedOutcome` | src/main.rs:84-92 | on success the vault and store are installed, the typed password and the error are cleared, and the cipher is derived from that password; on failure only the error changes; the file is never written |
| `App.SavedEditSurvivesRestart` | src/main.rs:112-134 | after a successful SaveEntry, a fresh app that logs in with the same password sees the edited entry list and the same vault |

## Left out

- Argon2id and AES-GCM internals are not modelled. They are foreign library calls, kept as opaque functions with only the laws listed above.
- Wrong-password rejection and tamper detection are not proved. Both are probabilistic properties of AES-GCM. The model proves only that a failed tag check yields the single "wrong password" error.
- Nonce freshness is not modelled, and neither is the uniformity of the OS and thread RNGs. Each call receives its own entropy stream as a parameter.
- UTF-8 and serde_json are opaque, each with a round-trip law. The JSON text format is not modelled.
- The library error texts (Argon2, AES-GCM, UTF-8, serde_json, io) are not modelled. They are opaque strings taken from the primitives.
- File I/O is modelled as a value: the file's contents plus the errors a read or a write would report.
- Storage.AfterSave, Storage.Save: a failed `fs::write` leaves the file unchanged in the model. A real failed write may leave a truncated file, because the overwrite is not atomic. Crash behaviour is out of scope.
- Dashboard.ToLowercase: lower-cases ASCII letters only. Rust's `to_lowercase` also maps non-ASCII letters and can change a string's length.
- App.PasswordManagerApp.Update: requires `Accepts`, the guarantee of `view` (src/main.rs:159-164, 248-250, 300-301): LoginPressed arrives only while no vault is open, SelectService only for a position the sidebar lists, DeleteService only for the selected entry. Messages the view cannot produce are not modelled.
- All iced rendering, the theme list, the password-length slider's 8..=64 range and `main` are left out. `LengthChanged` accepts any `u8`.
- The details panel's own indexing (src/main.rs:267) is left out.
- The clipboard write is left out. CopyPassword returns a `ClipboardWrite` task and changes no state.
- `generate_password` is a module-level function, because it never reads the `Storage` it is called on.
- Key material is not zeroed or protected in memory. Secrets in memory are not modelled.
