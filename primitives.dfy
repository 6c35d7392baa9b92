/** The foreign libraries the vault calls, as opaque functions with the laws
    the model relies on. Argon2id is RFC 9106, AES-256-GCM is NIST SP 800-38D
    with a 96-bit nonce and a 128-bit tag. */
module Primitives {
  import opened Wrappers
  import opened Models

  type Bytes = seq<bv8>

  const SaltLen: nat := 16
  const NonceLen: nat := 12
  const KeyLen: nat := 32
  const TagLen: nat := 16

  type Salt = s: Bytes | |s| == SaltLen witness seq(SaltLen, _ => 0)
  type Nonce = n: Bytes | |n| == NonceLen witness seq(NonceLen, _ => 0)
  type Key = k: Bytes | |k| == KeyLen witness seq(KeyLen, _ => 0)

  /** A draw from the operating system's entropy source: byte `i` of the
      stream handed to one call. Uniformity is not modelled. */
  type RandomBytes = nat -> bv8

  /** The library entry points the core uses. Each is a total function, so
      each is deterministic in its arguments: in particular the derived key
      depends only on (password, salt). */
  datatype Primitives = Primitives(
    // Argon2::default().hash_password_into(password, salt, &mut [0u8; 32])
    argon2id: (Bytes, Salt) -> Result<Key>,
    // Aes256Gcm::encrypt with empty associated data: ciphertext || tag
    gcmSeal: (Key, Nonce, Bytes) -> Result<Bytes>,
    // Aes256Gcm::decrypt: None when the tag does not verify
    gcmOpen: (Key, Nonce, Bytes) -> Option<Bytes>,
    // str::as_bytes
    utf8Encode: string -> Bytes,
    // String::from_utf8, with the error's display text
    utf8Decode: Bytes -> Result<string>,
    // serde_json::to_string and serde_json::from_str on PasswordStore
    toJson: PasswordStore -> Result<string>,
    fromJson: string -> Result<PasswordStore>
  )

  /** AEAD correctness: opening what was sealed under the same key and nonce
      gives back the plaintext. */
  ghost predicate AeadCorrect(p: Primitives) {
    forall k, n, m :: p.gcmSeal(k, n, m).Ok? ==> p.gcmOpen(k, n, p.gcmSeal(k, n, m).value) == Some(m)
  }

  /** GCM output is the plaintext's length plus a 16-byte tag. */
  ghost predicate TagAppended(p: Primitives) {
    forall k, n, m :: p.gcmSeal(k, n, m).Ok? ==> |p.gcmSeal(k, n, m).value| == |m| + TagLen
  }

  /** Decoding the UTF-8 bytes of a string gives the string back. */
  ghost predicate Utf8RoundTrip(p: Primitives) {
    forall s :: p.utf8Decode(p.utf8Encode(s)) == Ok(s)
  }

  /** Parsing what serde_json printed gives the store back. */
  ghost predicate JsonRoundTrip(p: Primitives) {
    forall st :: p.toJson(st).Ok? ==> p.fromJson(p.toJson(st).value) == Ok(st)
  }
}
