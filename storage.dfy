/** Storage (src/storage.rs): the vault file `salt(16) || nonce(12) ||
    ciphertext+tag`, the create-or-unlock branch of load, save, and the
    password generator. */
module Storage {
  import opened Wrappers
  import opened Models
  import opened Primitives
  import opened Crypto

  /** The vault file `credentials.encrypted` as the platform presents it:
      its bytes (None when `Path::exists` is false) and the I/O error that
      `fs::read` or `fs::write` would report, if any. */
  datatype VaultFile = VaultFile(contents: Option<Bytes>, readError: Option<string>, writeError: Option<string>)

  /** The file system holding the vault file; save overwrites it. */
  class FileSystem {
    var vault: VaultFile

    constructor (vault: VaultFile)
      ensures this.vault == vault
    {
      this.vault := vault;
    }
  }

  /** An unlocked vault: the cipher derived from the master password and the
      salt fixed for the file's lifetime. */
  datatype Storage = Storage(crypto: CryptoManager, salt: Salt)

  const FileCorrupted: string := "File corrupted"

  /** No file shorter than salt plus nonce can be opened. */
  const MinFileLen: nat := SaltLen + NonceLen

  /** What Storage::load returns for a vault file, a password and the entropy
      the salt of a new vault would be drawn from. */
  function Loaded(p: Primitives, vault: VaultFile, password: string, rng: RandomBytes): (r: Result<(Storage, PasswordStore)>)
    ensures vault.contents.None? ==> (r.Ok? <==> New(p, password, SaltOf(rng)).Ok?)
    ensures vault.contents.None? && r.Ok? ==> r.value.0.salt == SaltOf(rng) && r.value.1 == PasswordStore([])
    ensures vault.contents.None? && r.Err? ==> r == Err(New(p, password, SaltOf(rng)).error)
    ensures vault.contents.Some? && vault.readError.None? && |vault.contents.value| < SaltLen ==> r == Err(FileCorrupted)
    ensures vault.contents.Some? && r.Ok? ==>
              |vault.contents.value| >= MinFileLen && r.value.0.salt == vault.contents.value[..SaltLen]
    ensures r.Ok? ==> New(p, password, r.value.0.salt) == Ok(r.value.0.crypto)
    ensures vault.contents.Some? && vault.readError.Some? ==> r == Err("Failed to read file: " + vault.readError.value)
    ensures vault.contents.Some? && vault.readError.None? && |vault.contents.value| >= SaltLen ==>
              var salt, encrypted := vault.contents.value[..SaltLen], vault.contents.value[SaltLen..];
              && (New(p, password, salt).Err? ==> r == Err(New(p, password, salt).error))
              && (New(p, password, salt).Ok? && Decrypt(p, New(p, password, salt).value, encrypted).Err? ==>
                    r == Err(Decrypt(p, New(p, password, salt).value, encrypted).error))
              && (New(p, password, salt).Ok? && Decrypt(p, New(p, password, salt).value, encrypted).Ok? ==>
                    var parsed := p.fromJson(Decrypt(p, New(p, password, salt).value, encrypted).value);
                    && (parsed.Err? ==> r == Err("Failed to deserialize: " + parsed.error))
                    && (parsed.Ok? ==> r == Ok((Storage(New(p, password, salt).value, salt), parsed.value))))
  {
    match vault.contents
    case None =>
      var salt := SaltOf(rng);
      var crypto :- New(p, password, salt);
      Ok((Storage(crypto, salt), PasswordStore([])))
    case Some(loaded) =>
      if vault.readError.Some? then
        Err("Failed to read file: " + vault.readError.value)
      else if |loaded| < SaltLen then
        Err(FileCorrupted)
      else
        var salt, encrypted := loaded[..SaltLen], loaded[SaltLen..];
        var crypto :- New(p, password, salt);
        var json :- Decrypt(p, crypto, encrypted);
        match p.fromJson(json)
        case Err(e) => Err("Failed to deserialize: " + e)
        case Ok(store) => Ok((Storage(crypto, salt), store))
  }

  /** Storage::load. With no file it creates a vault in memory only: nothing
      is written (the method has no modifies clause). */
  method Load(p: Primitives, fs: FileSystem, password: string, rng: RandomBytes) returns (r: Result<(Storage, PasswordStore)>)
    ensures r == Loaded(p, fs.vault, password, rng)
  {
    if fs.vault.contents.Some? {
      if fs.vault.readError.Some? {
        return Err("Failed to read file: " + fs.vault.readError.value);
      }
      var loadedFile := fs.vault.contents.value;
      if |loadedFile| < SaltLen {
        return Err(FileCorrupted);
      }
      var salt := new bv8[SaltLen];
      forall i | 0 <= i < SaltLen {
        salt[i] := loadedFile[i];
      }
      assert salt[..] == loadedFile[..SaltLen];
      var encryptedData := loadedFile[SaltLen..];
      var crypto :- New(p, password, salt[..]);
      var json :- Decrypt(p, crypto, encryptedData);
      var store := p.fromJson(json);
      if store.Err? {
        return Err("Failed to deserialize: " + store.error);
      }
      return Ok((Storage(crypto, salt[..]), store.value));
    } else {
      var salt := GenerateSalt(rng);
      var crypto :- New(p, password, salt);
      return Ok((Storage(crypto, salt), PasswordStore([])));
    }
  }

  /** The bytes Storage::save writes: the vault's salt followed by the
      encrypt output of the serialised store. */
  function SaveImage(p: Primitives, storage: Storage, store: PasswordStore, rng: RandomBytes): (r: Result<Bytes>)
    ensures r.Ok? ==> |r.value| >= MinFileLen && r.value[..SaltLen] == storage.salt
    ensures r.Ok? ==> p.toJson(store).Ok?
                      && Encryption(p, storage.crypto, NonceOf(rng), p.toJson(store).value) == Ok(r.value[SaltLen..])
    ensures p.toJson(store).Err? ==> r == Err("Failed to serialize: " + p.toJson(store).error)
    ensures r.Ok? <==> p.toJson(store).Ok? && Encryption(p, storage.crypto, NonceOf(rng), p.toJson(store).value).Ok?
    ensures p.toJson(store).Ok? && Encryption(p, storage.crypto, NonceOf(rng), p.toJson(store).value).Err? ==>
              r == Err(Encryption(p, storage.crypto, NonceOf(rng), p.toJson(store).value).error)
  {
    match p.toJson(store)
    case Err(e) => Err("Failed to serialize: " + e)
    case Ok(json) =>
      var encryption :- Encryption(p, storage.crypto, NonceOf(rng), json);
      Ok(storage.salt + encryption)
  }

  /** What Storage::save returns. */
  function SaveOutcome(p: Primitives, storage: Storage, store: PasswordStore, vault: VaultFile, rng: RandomBytes): (r: Result<()>)
    ensures r.Ok? <==> SaveImage(p, storage, store, rng).Ok? && vault.writeError.None?
    ensures SaveImage(p, storage, store, rng).Err? ==> r == Err(SaveImage(p, storage, store, rng).error)
    ensures SaveImage(p, storage, store, rng).Ok? && vault.writeError.Some? ==>
              r == Err("Failed to write: " + vault.writeError.value)
  {
    var image :- SaveImage(p, storage, store, rng);
    if vault.writeError.Some? then Err("Failed to write: " + vault.writeError.value) else Ok(())
  }

  /** The vault file after Storage::save: overwritten with the image when the
      save succeeded, as it was otherwise. */
  function AfterSave(p: Primitives, storage: Storage, store: PasswordStore, vault: VaultFile, rng: RandomBytes): (v: VaultFile)
    ensures v.readError == vault.readError && v.writeError == vault.writeError
    ensures SaveOutcome(p, storage, store, vault, rng).Ok? ==> v.contents == Some(SaveImage(p, storage, store, rng).value)
    ensures SaveOutcome(p, storage, store, vault, rng).Err? ==> v == vault
  {
    if SaveOutcome(p, storage, store, vault, rng).Ok? then
      vault.(contents := Some(SaveImage(p, storage, store, rng).value))
    else
      vault
  }

  /** Storage::save. It takes the vault by value and never changes its salt
      or cipher; only the file is overwritten. */
  method Save(p: Primitives, storage: Storage, pwd: PasswordStore, fs: FileSystem, rng: RandomBytes) returns (r: Result<()>)
    modifies fs
    ensures r == SaveOutcome(p, storage, pwd, old(fs.vault), rng)
    ensures fs.vault == AfterSave(p, storage, pwd, old(fs.vault), rng)
  {
    var serializing := p.toJson(pwd);
    if serializing.Err? {
      return Err("Failed to serialize: " + serializing.error);
    }
    var encryption :- Encrypt(p, storage.crypto, serializing.value, rng);
    var encrypted: Bytes := storage.salt;
    encrypted := encrypted + encryption;
    if fs.vault.writeError.Some? {
      return Err("Failed to write: " + fs.vault.writeError.value);
    }
    fs.vault := fs.vault.(contents := Some(encrypted));
    return Ok(());
  }

  /** Every existing file shorter than 28 bytes is rejected, whatever the
      password: under 16 bytes by load's own check, from 16 to 27 by
      decrypt's, unless key derivation already failed. */
  lemma ShortFileRejected(p: Primitives, file: Bytes, writeError: Option<string>, password: string, rng: RandomBytes)
    requires |file| < MinFileLen
    ensures var r := Loaded(p, VaultFile(Some(file), None, writeError), password, rng);
            && r.Err?
            && (|file| < SaltLen ==> r.error == FileCorrupted)
            && (|file| >= SaltLen ==> r.error == CorruptedData || New(p, password, file[..SaltLen]) == Err(r.error))
  {
    if |file| >= SaltLen {
      var crypto := New(p, password, file[..SaltLen]);
      if crypto.Ok? {
        assert |file[SaltLen..]| < NonceLen;
      }
    }
  }

  /** Opening a vault, a wrong password and a tampered file look alike:
      whenever the tag check fails, load reports the single decrypt message. */
  lemma LoadAuthFailureIsWrongPassword(p: Primitives, file: Bytes, writeError: Option<string>, password: string,
                                       rng: RandomBytes)
    requires |file| >= MinFileLen && New(p, password, file[..SaltLen]).Ok?
    requires var key := New(p, password, file[..SaltLen]).value.cipher.key;
             p.gcmOpen(key, file[SaltLen..][..NonceLen], file[SaltLen..][NonceLen..]).None?
    ensures Loaded(p, VaultFile(Some(file), None, writeError), password, rng) == Err(WrongPassword)
  {
  }

  /** Round trip: a file written by save under a vault unlocked with
      `password` loads back, with the same password, to the same vault and
      the same store. */
  lemma SaveThenLoad(p: Primitives, storage: Storage, store: PasswordStore, password: string,
                     rng: RandomBytes, rng': RandomBytes, writeError: Option<string>)
    requires AeadCorrect(p) && Utf8RoundTrip(p) && JsonRoundTrip(p)
    requires New(p, password, storage.salt) == Ok(storage.crypto)
    requires SaveImage(p, storage, store, rng).Ok?
    ensures Loaded(p, VaultFile(Some(SaveImage(p, storage, store, rng).value), None, writeError), password, rng')
            == Ok((storage, store))
  {
    var image := SaveImage(p, storage, store, rng).value;
    var json := p.toJson(store).value;
    var blob := image[SaltLen..];
    assert image[..SaltLen] == storage.salt;
    DecryptEncryption(p, storage.crypto, NonceOf(rng), json);
    assert Decrypt(p, storage.crypto, blob) == Ok(json);
  }

  /** A saved file is salt, nonce, the JSON's bytes and the tag. */
  lemma SaveImageLength(p: Primitives, storage: Storage, store: PasswordStore, rng: RandomBytes)
    requires TagAppended(p)
    requires SaveImage(p, storage, store, rng).Ok?
    ensures |SaveImage(p, storage, store, rng).value|
            == SaltLen + NonceLen + |p.utf8Encode(p.toJson(store).value)| + TagLen
  {
    var image := SaveImage(p, storage, store, rng).value;
    EncryptionLength(p, storage.crypto, NonceOf(rng), p.toJson(store).value);
    assert image == image[..SaltLen] + image[SaltLen..];
  }

  // ---------------------------------------------------------------------
  // Password generation

  const Upper: string := "ABCDEFGHIJKLMNOPQRSTUVWXYZ"
  const Lower: string := "abcdefghijklmnopqrstuvwxyz"
  const Digits: string := "0123456789"
  const Symbols: string := "!@#$%^&*~()-_=+[]{}|;:,.<>?"

  /** The charset literal of generate_password, written as its four runs. */
  const Charset: string := Upper + Lower + Digits + Symbols

  /** One draw of `rng.gen_range(0..charset.len())`. */
  type CharsetIndex = i: nat | i < 89

  /** Storage::generate_password: `len` independent draws, each picking one
      character of the charset. */
  function GeneratePassword(len: nat, draw: nat -> CharsetIndex): (pw: string)
    ensures |pw| == len
    ensures forall i :: 0 <= i < len ==> pw[i] in Charset
  {
    seq(len, i requires 0 <= i => Charset[draw(i)])
  }

  function SymbolPosition(c: char): int {
    match c
    case '!' => 0  case '@' => 1  case '#' => 2  case '$' => 3  case '%' => 4  case '^' => 5
    case '&' => 6  case '*' => 7  case '~' => 8  case '(' => 9  case ')' => 10 case '-' => 11
    case '_' => 12 case '=' => 13 case '+' => 14 case '[' => 15 case ']' => 16 case '{' => 17
    case '}' => 18 case '|' => 19 case ';' => 20 case ':' => 21 case ',' => 22 case '.' => 23
    case '<' => 24 case '>' => 25 case '?' => 26 case _ => -1
  }

  /** The position of a character in the charset, -1 for characters outside it. */
  function CharsetPosition(c: char): int {
    if 'A' <= c <= 'Z' then c as int - 'A' as int
    else if 'a' <= c <= 'z' then 26 + (c as int - 'a' as int)
    else if '0' <= c <= '9' then 52 + (c as int - '0' as int)
    else if SymbolPosition(c) >= 0 then 62 + SymbolPosition(c)
    else -1
  }

  /** The charset holds 89 characters: 26 upper-case letters, 26 lower-case
      letters, 10 digits and 27 symbols, in that order. */
  lemma CharsetLayout()
    ensures |Charset| == 89
    ensures forall i :: 0 <= i < 26 ==> 'A' <= Charset[i] <= 'Z'
    ensures forall i :: 26 <= i < 52 ==> 'a' <= Charset[i] <= 'z'
    ensures forall i :: 52 <= i < 62 ==> '0' <= Charset[i] <= '9'
    ensures forall i :: 62 <= i < 89 ==> !('A' <= Charset[i] <= 'Z' || 'a' <= Charset[i] <= 'z' || '0' <= Charset[i] <= '9')
  {
    assert forall i :: 0 <= i < 26 ==> Upper[i] as int == 'A' as int + i;
    assert forall i :: 0 <= i < 26 ==> Lower[i] as int == 'a' as int + i;
    assert forall i :: 0 <= i < 10 ==> Digits[i] as int == '0' as int + i;
    assert forall i :: 0 <= i < 27 ==> SymbolPosition(Symbols[i]) == i;
  }

  lemma UpperPositions()
    ensures forall i :: 0 <= i < |Upper| ==> CharsetPosition(Upper[i]) == i
  {
    assert forall i :: 0 <= i < 26 ==> Upper[i] as int == 'A' as int + i;
  }

  lemma LowerPositions()
    ensures forall i :: 0 <= i < |Lower| ==> CharsetPosition(Lower[i]) == 26 + i
  {
    assert forall i :: 0 <= i < 26 ==> Lower[i] as int == 'a' as int + i;
  }

  lemma DigitPositions()
    ensures forall i :: 0 <= i < |Digits| ==> CharsetPosition(Digits[i]) == 52 + i
  {
    assert forall i :: 0 <= i < 10 ==> Digits[i] as int == '0' as int + i;
  }

  lemma SymbolPositions()
    ensures forall i :: 0 <= i < |Symbols| ==> CharsetPosition(Symbols[i]) == 62 + i
  {
    assert forall i :: 0 <= i < 27 ==> SymbolPosition(Symbols[i]) == i;
  }

  /** CharsetPosition inverts indexing into the charset. */
  lemma PositionOfCharset()
    ensures forall i :: 0 <= i < |Charset| ==> CharsetPosition(Charset[i]) == i
  {
    UpperPositions();
    LowerPositions();
    DigitPositions();
    SymbolPositions();
    forall i | 0 <= i < |Charset| ensures CharsetPosition(Charset[i]) == i {
      if i < 26 {
        assert Charset[i] == Upper[i];
      } else if i < 52 {
        assert Charset[i] == Lower[i - 26];
      } else if i < 62 {
        assert Charset[i] == Digits[i - 52];
      } else {
        assert Charset[i] == Symbols[i - 62];
      }
    }
  }

  /** No character occurs twice in the charset, so each draw picks one of 89
      distinct characters. */
  lemma CharsetDistinct()
    ensures forall i, j :: 0 <= i < j < |Charset| ==> Charset[i] != Charset[j]
  {
    PositionOfCharset();
  }

  /** Different draws give different passwords. */
  lemma GeneratePasswordInjective(len: nat, draw: nat -> CharsetIndex, draw': nat -> CharsetIndex, k: nat)
    requires k < len && draw(k) != draw'(k)
    ensures GeneratePassword(len, draw) != GeneratePassword(len, draw')
  {
    PositionOfCharset();
    assert GeneratePassword(len, draw)[k] == Charset[draw(k)];
    assert GeneratePassword(len, draw')[k] == Charset[draw'(k)];
  }

  /** Every string over the charset is some outcome of the generator. */
  lemma GeneratePasswordCovers(pw: string)
    requires forall i :: 0 <= i < |pw| ==> pw[i] in Charset
    ensures exists draw: nat -> CharsetIndex :: GeneratePassword(|pw|, draw) == pw
  {
    PositionOfCharset();
    forall c | c in Charset ensures 0 <= CharsetPosition(c) < 89 && Charset[CharsetPosition(c)] == c {
      var j :| 0 <= j < |Charset| && Charset[j] == c;
    }
    var draw: nat -> CharsetIndex :=
      (i: nat) => if i < |pw| && 0 <= CharsetPosition(pw[i]) < 89 then CharsetPosition(pw[i]) as CharsetIndex else 0;
    assert GeneratePassword(|pw|, draw) == pw;
  }
}
