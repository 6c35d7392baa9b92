/** CryptoManager (src/crypto.rs): key derivation, the nonce framing of
    AES-256-GCM blobs, and salt generation. */
module Crypto {
  import opened Wrappers
  import opened Primitives

  /** An initialised Aes256Gcm instance; it owns the derived key. */
  datatype Cipher = Aes256Gcm(key: Key)

  datatype CryptoManager = CryptoManager(cipher: Cipher)

  /** The single message for every failed tag check. */
  const WrongPassword: string := "Failed to decrypt (Wrong password ?)"

  /** The message for a blob too short to hold a nonce. */
  const CorruptedData: string := "Corrupted data"

  /** Aes256Gcm::new_from_slice: only a 32-byte slice is a valid key. */
  function CipherFromSlice(key: Bytes): (r: Result<Cipher>)
    ensures r.Ok? <==> |key| == KeyLen
    ensures r.Ok? ==> r.value.key == key
  {
    if |key| == KeyLen then Ok(Aes256Gcm(key)) else Err("Invalid Length")
  }

  /** CryptoManager::new. The key is Argon2id of the password's UTF-8 bytes
      and the salt; since that key is always 32 bytes, building the cipher
      cannot fail, and a derivation failure is the only error. */
  function New(p: Primitives, password: string, salt: Salt): (r: Result<CryptoManager>)
    ensures r.Err? <==> p.argon2id(p.utf8Encode(password), salt).Err?
    ensures r.Err? ==> r.error == "Key derivation failure: " + p.argon2id(p.utf8Encode(password), salt).error
    ensures r.Ok? ==> r.value.cipher.key == p.argon2id(p.utf8Encode(password), salt).value
  {
    match p.argon2id(p.utf8Encode(password), salt)
    case Err(e) => Err("Key derivation failure: " + e)
    case Ok(key) =>
      match CipherFromSlice(key)
      case Err(e) => Err("Error during initialization: " + e)
      case Ok(cipher) => Ok(CryptoManager(cipher))
  }

  /** The nonce Aes256Gcm::generate_nonce draws: the first 12 bytes of the stream. */
  function NonceOf(rng: RandomBytes): (n: Nonce)
    ensures forall i :: 0 <= i < NonceLen ==> n[i] == rng(i)
  {
    seq(NonceLen, i requires 0 <= i => rng(i))
  }

  /** The salt generate_salt draws: the first 16 bytes of the stream. */
  function SaltOf(rng: RandomBytes): (s: Salt)
    ensures forall i :: 0 <= i < SaltLen ==> s[i] == rng(i)
  {
    seq(SaltLen, i requires 0 <= i => rng(i))
  }

  /** What encrypt returns for a given nonce: the nonce followed by the GCM
      output for the UTF-8 bytes of `data`, or the library's error. */
  function Encryption(p: Primitives, crypto: CryptoManager, nonce: Nonce, data: string): (r: Result<Bytes>)
    ensures r.Err? <==> p.gcmSeal(crypto.cipher.key, nonce, p.utf8Encode(data)).Err?
    ensures r.Ok? ==> |r.value| >= NonceLen && r.value[..NonceLen] == nonce
    ensures r.Ok? ==> r.value[NonceLen..] == p.gcmSeal(crypto.cipher.key, nonce, p.utf8Encode(data)).value
    ensures r.Err? ==> r.error == "Failed to encrypt: " + p.gcmSeal(crypto.cipher.key, nonce, p.utf8Encode(data)).error
  {
    match p.gcmSeal(crypto.cipher.key, nonce, p.utf8Encode(data))
    case Err(e) => Err("Failed to encrypt: " + e)
    case Ok(ciphertext) => Ok(nonce + ciphertext)
  }

  /** CryptoManager::encrypt: draws a fresh nonce and frames the ciphertext
      behind it. */
  method Encrypt(p: Primitives, crypto: CryptoManager, data: string, rng: RandomBytes) returns (r: Result<Bytes>)
    ensures r == Encryption(p, crypto, NonceOf(rng), data)
  {
    var nonce := NonceOf(rng);
    var ciphertext := p.gcmSeal(crypto.cipher.key, nonce, p.utf8Encode(data));
    if ciphertext.Err? {
      return Err("Failed to encrypt: " + ciphertext.error);
    }
    var res: Bytes := nonce;
    res := res + ciphertext.value;
    return Ok(res);
  }

  /** CryptoManager::decrypt: bytes [0, 12) are the nonce, the rest is
      ciphertext and tag. */
  function Decrypt(p: Primitives, crypto: CryptoManager, encrypted: Bytes): (r: Result<string>)
    ensures |encrypted| < NonceLen ==> r == Err(CorruptedData)
    ensures |encrypted| >= NonceLen && p.gcmOpen(crypto.cipher.key, encrypted[..NonceLen], encrypted[NonceLen..]).None?
            ==> r == Err(WrongPassword)
    ensures r.Ok? ==> |encrypted| >= NonceLen
                      && p.gcmOpen(crypto.cipher.key, encrypted[..NonceLen], encrypted[NonceLen..]).Some?
                      && p.utf8Decode(p.gcmOpen(crypto.cipher.key, encrypted[..NonceLen], encrypted[NonceLen..]).value) == Ok(r.value)
    ensures |encrypted| >= NonceLen && p.gcmOpen(crypto.cipher.key, encrypted[..NonceLen], encrypted[NonceLen..]).Some? ==>
              var plaintext := p.gcmOpen(crypto.cipher.key, encrypted[..NonceLen], encrypted[NonceLen..]).value;
              && (p.utf8Decode(plaintext).Ok? ==> r == Ok(p.utf8Decode(plaintext).value))
              && (p.utf8Decode(plaintext).Err? ==> r == Err("Invalid UTF-8 sequence: " + p.utf8Decode(plaintext).error))
  {
    if |encrypted| < NonceLen then
      Err(CorruptedData)
    else
      var nonce, ciphertext := encrypted[..NonceLen], encrypted[NonceLen..];
      match p.gcmOpen(crypto.cipher.key, nonce, ciphertext)
      case None => Err(WrongPassword)
      case Some(plaintext) =>
        match p.utf8Decode(plaintext)
        case Err(e) => Err("Invalid UTF-8 sequence: " + e)
        case Ok(text) => Ok(text)
  }

  /** CryptoManager::generate_salt: fills a 16-byte buffer from the entropy
      source. */
  method GenerateSalt(rng: RandomBytes) returns (salt: Salt)
    ensures salt == SaltOf(rng)
  {
    var buf := new bv8[SaltLen];
    forall i | 0 <= i < SaltLen {
      buf[i] := rng(i);
    }
    salt := buf[..];
  }

  /** Round trip: decrypting what encrypt produced under the same cipher
      returns the original string. */
  lemma DecryptEncryption(p: Primitives, crypto: CryptoManager, nonce: Nonce, data: string)
    requires AeadCorrect(p) && Utf8RoundTrip(p)
    requires Encryption(p, crypto, nonce, data).Ok?
    ensures Decrypt(p, crypto, Encryption(p, crypto, nonce, data).value) == Ok(data)
  {
    var blob := Encryption(p, crypto, nonce, data).value;
    var sealed := p.gcmSeal(crypto.cipher.key, nonce, p.utf8Encode(data));
    assert blob[..NonceLen] == nonce && blob[NonceLen..] == sealed.value;
  }

  /** An encrypt output is exactly nonce, plaintext bytes and tag long. */
  lemma EncryptionLength(p: Primitives, crypto: CryptoManager, nonce: Nonce, data: string)
    requires TagAppended(p)
    requires Encryption(p, crypto, nonce, data).Ok?
    ensures |Encryption(p, crypto, nonce, data).value| == NonceLen + |p.utf8Encode(data)| + TagLen
  {
    var blob := Encryption(p, crypto, nonce, data).value;
    assert blob == blob[..NonceLen] + blob[NonceLen..];
  }

  /** A wrong key and a tampered blob fail the same way: whatever made the tag
      check fail, the caller sees one message. */
  lemma AuthFailuresAlike(p: Primitives, c1: CryptoManager, b1: Bytes, c2: CryptoManager, b2: Bytes)
    requires |b1| >= NonceLen && p.gcmOpen(c1.cipher.key, b1[..NonceLen], b1[NonceLen..]).None?
    requires |b2| >= NonceLen && p.gcmOpen(c2.cipher.key, b2[..NonceLen], b2[NonceLen..]).None?
    ensures Decrypt(p, c1, b1) == Decrypt(p, c2, b2) == Err(WrongPassword)
  {
  }
}
