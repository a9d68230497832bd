/**
 * The cryptographic helpers of src/context/AuthContext.jsx: `deriveKey`,
 * `encryptData` and `decryptData`. WebCrypto and the JSON text codec are
 * foreign; the model takes them as a `Platform` of functions and assumes of
 * them only what `ValidPlatform` states.
 */
module Crypto {
  import opened Wrappers
  import opened Bits
  import opened JsonValue

  /**
   * The AES-GCM key PBKDF2 (RFC 8018 section 5.2; SHA-256, 100000
   * iterations, 256-bit key) derives from a password and a salt. Derivation
   * is deterministic, and two different inputs are taken to give different
   * keys (collision resistance).
   */
  datatype Key = DerivedKey(password: string, salt: seq<byte>)

  const Pbkdf2Iterations := 100000
  const AesKeyBits := 256

  /** `deriveKey(password, salt)` */
  function DeriveKey(password: string, salt: seq<byte>): (k: Key)
    ensures k.password == password && k.salt == salt
  {
    DerivedKey(password, salt)
  }

  /** Two derivations give the same key exactly when password and salt agree. */
  lemma DeriveKeyInjective(a: string, s: seq<byte>, b: string, t: seq<byte>)
    ensures DeriveKey(a, s) == DeriveKey(b, t) <==> a == b && s == t
  {
  }

  /** `crypto.getRandomValues(new Uint8Array(12))`: the AES-GCM nonce. */
  type Iv = s: seq<byte> | |s| == 12 witness [0, 0, 0, 0, 0, 0, 0, 0, 0, 0, 0, 0]

  /** `crypto.getRandomValues(new Uint8Array(16))`: the PBKDF2 salt. */
  type Salt = s: seq<byte> | |s| == 16 witness [0, 0, 0, 0, 0, 0, 0, 0, 0, 0, 0, 0, 0, 0, 0, 0]

  /** AES-GCM appends a 16-byte authentication tag (NIST SP 800-38D). */
  const TagBytes := 16

  /**
   * The foreign functions: `JSON.stringify`, `JSON.parse` (`None` where it
   * throws), AES-GCM encryption of a value's UTF-8 JSON text under a key and
   * nonce, and decryption followed by UTF-8 decoding and `JSON.parse`
   * (`None` where any of them throws).
   */
  datatype Platform = Platform(
    stringify: Json -> string,
    parse: string -> Option<Json>,
    seal: (Key, seq<byte>, Json) -> seq<byte>,
    open: (Key, seq<byte>, seq<byte>) -> Option<Json>)

  /**
   * What the model assumes of the platform: JSON text round-trips and is never
   * empty, every ciphertext carries the tag, decryption under the sealing key
   * and nonce gives the value back, and under any other key fails.
   */
  ghost predicate ValidPlatform(p: Platform)
  {
    && (forall j :: p.parse(p.stringify(j)) == Some(j))
    && (forall j :: p.stringify(j) != "")
    && (forall k, iv, v :: |p.seal(k, iv, v)| >= TagBytes)
    && (forall k, iv, v :: p.open(k, iv, p.seal(k, iv, v)) == Some(v))
    && (forall k, k', iv, v :: k != k' ==> p.open(k', iv, p.seal(k, iv, v)) == None)
  }

  /** The `{ iv, data }` envelope `encryptData` serialises. */
  function Envelope(iv: seq<byte>, ciphertext: seq<byte>): Json
  {
    JObj([("iv", BytesToJson(iv)), ("data", BytesToJson(ciphertext))])
  }

  /** `encryptData(value, key)` with the nonce it draws. */
  function Encrypt(p: Platform, value: Json, key: Key, iv: Iv): string
  {
    p.stringify(Envelope(iv, p.seal(key, iv, value)))
  }

  /**
   * `decryptData(text, key)`: `None` stands for the `null` it returns, and it
   * never throws. A value comes back only from an envelope whose `iv` and
   * `data` are present and truthy, whose ciphertext has at least the tag's 16
   * bytes, and which opens under the key.
   */
  function Decrypt(p: Platform, text: string, key: Key): Option<Json>
  {
    match p.parse(text)
    case None => None
    case Some(parsed) =>
      var iv := Prop(parsed, "iv");
      var data := Prop(parsed, "data");
      if !Present(iv) || !Present(data) then None
      else
        match (JsonToBytes(iv.value), JsonToBytes(data.value))
        case (Some(ivBytes), Some(dataBytes)) =>
          if |dataBytes| < TagBytes then None else p.open(key, ivBytes, dataBytes)
        case _ => None
  }

  /** Only a parsable envelope with truthy `iv` and `data` and a ciphertext of at least the tag's length decrypts to a value. */
  lemma DecryptNeedsEnvelope(p: Platform, text: string, key: Key)
    requires Decrypt(p, text, key).Some?
    ensures p.parse(text).Some?
    ensures Present(Prop(p.parse(text).value, "iv")) && Present(Prop(p.parse(text).value, "data"))
    ensures JsonToBytes(Prop(p.parse(text).value, "data").value).Some?
    ensures |JsonToBytes(Prop(p.parse(text).value, "data").value).value| >= TagBytes
    ensures JsonToBytes(Prop(p.parse(text).value, "iv").value).Some?
    ensures Decrypt(p, text, key) == p.open(key, JsonToBytes(Prop(p.parse(text).value, "iv").value).value,
                                            JsonToBytes(Prop(p.parse(text).value, "data").value).value)
  {
  }

  /** What `decryptData` reads out of an envelope `encryptData` wrote. */
  lemma EnvelopeFields(p: Platform, iv: Iv, ciphertext: seq<byte>)
    ensures Prop(Envelope(iv, ciphertext), "iv") == Some(BytesToJson(iv))
    ensures Prop(Envelope(iv, ciphertext), "data") == Some(BytesToJson(ciphertext))
  {
    var members := Envelope(iv, ciphertext).members;
    assert members[0].0 != "data";
    assert members[1..] == [("data", BytesToJson(ciphertext))];
    assert Lookup(members[1..], "data") == Some(BytesToJson(ciphertext));
    assert Lookup(members, "data") == Lookup(members[1..], "data");
  }

  /** Decrypting what was encrypted under the same key gives the value back. */
  lemma DecryptEncrypt(p: Platform, value: Json, key: Key, iv: Iv)
    requires ValidPlatform(p)
    ensures Decrypt(p, Encrypt(p, value, key, iv), key) == Some(value)
  {
    var ct := p.seal(key, iv, value);
    EnvelopeFields(p, iv, ct);
    BytesRoundTrip(iv);
    BytesRoundTrip(ct);
  }

  /** Decrypting under any other key (another password or salt) returns `null`. */
  lemma DecryptWrongKey(p: Platform, value: Json, key: Key, other: Key, iv: Iv)
    requires ValidPlatform(p) && key != other
    ensures Decrypt(p, Encrypt(p, value, key, iv), other) == None
  {
    var ct := p.seal(key, iv, value);
    EnvelopeFields(p, iv, ct);
    BytesRoundTrip(iv);
    BytesRoundTrip(ct);
  }

  /** Text that is not JSON, or an envelope without `iv` or `data`, decrypts to `null`. */
  lemma DecryptMalformed(p: Platform, text: string, key: Key)
    requires p.parse(text) == None
      || !Present(Prop(p.parse(text).value, "iv"))
      || !Present(Prop(p.parse(text).value, "data"))
    ensures Decrypt(p, text, key) == None
  {
  }
}
