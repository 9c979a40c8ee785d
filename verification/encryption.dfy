/** MessageEncryptionService: at-rest encryption of message bodies.

    The AES-256-CBC primitive, base64 and the random IV source are not modelled:
    the primitive under the configured key is a pair of uninterpreted functions,
    and the IV of each call is an oracle value supplied by the caller. */
module Encryption {
  import opened Common

  /** The cipher under the configured key. `encrypt(plaintext, iv)` and
      `decrypt(ciphertext, iv)` answer None where openssl answers false.
      Ciphertexts and IVs are handled in their base64 storage form. */
  datatype Cipher = Cipher(
    encrypt: (string, string) -> Option<string>,
    decrypt: (string, string) -> Option<string>)

  /** The property every correct cipher has: decrypting what was encrypted with
      the same IV gives back the plaintext. It is a hypothesis of the lemmas that
      need it, never an axiom. */
  ghost predicate RoundTrips(c: Cipher) {
    forall p, iv {:trigger c.encrypt(p, iv)} ::
      c.encrypt(p, iv).Some? ==> c.decrypt(c.encrypt(p, iv).value, iv) == Some(p)
  }

  /** Result of `encrypt`: the array keys `encrypted` and `iv`. */
  datatype Encrypted = Encrypted(encrypted: string, iv: string)

  /** Result of `encryptForStorage`: the column names `content` and `content_iv`. */
  datatype Stored = Stored(content: string, contentIv: string)

  const KeyPrefix: string := "base64:"

  /** The configured key: `config('app.cipher_key') ?? config('app.key')`. */
  function ConfiguredKey(cipherKey: Option<string>, appKey: string): (k: string)
    ensures cipherKey.Some? ==> k == cipherKey.value
    ensures cipherKey.None? ==> k == appKey
  {
    match cipherKey
    case Some(key) => key
    case None => appKey
  }

  /** Key normalisation of the constructor: a "base64:" key has its seven-character
      prefix stripped and the rest decoded; any other key is used as it is. */
  function NormaliseKey(key: string, base64Decode: string -> string): (k: string)
  {
    if StartsWith(key, KeyPrefix) then base64Decode(key[|KeyPrefix|..]) else key
  }

  /** Prefixing any payload with "base64:" makes the key the decoded payload. */
  lemma PrefixedKeyIsDecoded(payload: string, base64Decode: string -> string)
    ensures NormaliseKey(KeyPrefix + payload, base64Decode) == base64Decode(payload)
  {
    assert (KeyPrefix + payload)[|KeyPrefix|..] == payload;
  }

  /** A key that does not start with "base64:" is used verbatim. */
  lemma UnprefixedKeyIsVerbatim(key: string, base64Decode: string -> string)
    requires !StartsWith(key, KeyPrefix)
    ensures NormaliseKey(key, base64Decode) == key
  {
  }

  /** `encrypt`: a failing primitive raises (None), never a partial result. */
  function Encrypt(c: Cipher, iv: string, plaintext: string): (r: Option<Encrypted>)
    ensures r.None? <==> c.encrypt(plaintext, iv).None?
    ensures r.Some? ==> r.value.iv == iv && c.encrypt(plaintext, iv) == Some(r.value.encrypted)
  {
    match c.encrypt(plaintext, iv)
    case None => None
    case Some(ct) => Some(Encrypted(ct, iv))
  }

  /** `decrypt`: a failing primitive raises (None). */
  function Decrypt(c: Cipher, ciphertext: string, iv: string): (r: Option<string>)
    ensures r.None? <==> c.decrypt(ciphertext, iv).None?
    ensures r.Some? ==> c.decrypt(ciphertext, iv) == Some(r.value)
  {
    c.decrypt(ciphertext, iv)
  }

  /** `encryptForStorage` is `encrypt` with its keys renamed. */
  function EncryptForStorage(c: Cipher, iv: string, content: string): (r: Option<Stored>)
    ensures r.Some? <==> Encrypt(c, iv, content).Some?
    ensures r.Some? ==> r.value.content == Encrypt(c, iv, content).value.encrypted
    ensures r.Some? ==> r.value.contentIv == Encrypt(c, iv, content).value.iv
  {
    match Encrypt(c, iv, content)
    case None => None
    case Some(e) => Some(Stored(e.encrypted, e.iv))
  }

  /** `decryptFromStorage`: a PHP-empty IV (null, "" or "0") marks legacy plaintext,
      which is returned unchanged; otherwise the call is `decrypt`. */
  function DecryptFromStorage(c: Cipher, content: string, contentIv: Option<string>): (r: Option<string>)
    ensures PhpEmpty(contentIv) ==> r == Some(content)
    ensures !PhpEmpty(contentIv) ==> r == Decrypt(c, content, contentIv.value)
  {
    if PhpEmpty(contentIv) then Some(content) else Decrypt(c, content, contentIv.value)
  }

  /** What is stored can be read back: with a correct cipher and a real IV (a
      base64 IV is 24 characters, never "" or "0"), decrypting the stored row
      yields the original plaintext. */
  lemma StorageRoundTrip(c: Cipher, iv: string, plaintext: string)
    requires RoundTrips(c)
    requires !PhpFalsy(iv)
    requires EncryptForStorage(c, iv, plaintext).Some?
    ensures var st := EncryptForStorage(c, iv, plaintext).value;
            DecryptFromStorage(c, st.content, Some(st.contentIv)) == Some(plaintext)
  {
    assert c.encrypt(plaintext, iv).Some?;
  }

  /** Under a round-tripping cipher a stored row determines its plaintext: two
      bodies stored as the same (content, content_iv) pair are the same body,
      whatever IVs they were encrypted with. */
  lemma StoredRowDeterminesPlaintext(c: Cipher, iv1: string, iv2: string, p1: string, p2: string)
    requires RoundTrips(c)
    requires EncryptForStorage(c, iv1, p1).Some?
    requires EncryptForStorage(c, iv1, p1) == EncryptForStorage(c, iv2, p2)
    ensures p1 == p2
  {
    var st := EncryptForStorage(c, iv1, p1).value;
    assert c.decrypt(st.content, st.contentIv) == Some(p1) by {
      assert c.encrypt(p1, iv1).Some?;
    }
    assert c.decrypt(st.content, st.contentIv) == Some(p2) by {
      assert c.encrypt(p2, iv2).Some?;
    }
  }
}
