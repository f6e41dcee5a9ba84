/** The external primitives the ticket manager calls — AES-256-CBC, HMAC-SHA256,
    JSON and base64 — as a bundle of uninterpreted functions, together with the
    only facts the model relies on about them. */
module Primitives {
  import opened Common

  /** The JSON object a ticket's state decodes to. A field is `None` when it is
      missing, null, or of a type the session constructor refuses. */
  datatype StateFields = StateFields(
    sessionId: Option<Bytes>,
    cipherSuite: Option<Bytes>,
    masterSecret: Option<Bytes>,
    creationTime: Option<int>)

  datatype Primitives = Primitives(
    /** `openssl_encrypt(plaintext, 'aes-256-cbc', key, RAW, iv)`; `None` for `false`. */
    encrypt: (Bytes, Bytes, Bytes) -> Option<Bytes>,
    /** `openssl_decrypt(ciphertext, 'aes-256-cbc', key, RAW, iv)`; `None` for `false`. */
    decrypt: (Bytes, Bytes, Bytes) -> Option<Bytes>,
    /** `hash_hmac('sha256', data, key, true)`, taking the key first. */
    hmac: (Bytes, Bytes) -> Bytes,
    /** `json_encode`; `None` for `false` (for instance on non-UTF-8 text). */
    jsonEncode: StateFields -> Option<Bytes>,
    /** `json_decode(..., true)`; `None` when the result is not a non-empty array. */
    jsonDecode: Bytes -> Option<StateFields>,
    base64Encode: Bytes -> Bytes,
    /** `base64_decode(..., true)`; `None` for `false`. */
    base64Decode: Bytes -> Option<Bytes>)

  /** What the model assumes of the primitives: decryption inverts successful
      encryption under the same key and iv, an HMAC-SHA256 tag is 32 bytes, and
      JSON and base64 decoding invert their encoders. */
  ghost predicate Sound(p: Primitives)
  {
    && (forall pt, key, iv | p.encrypt(pt, key, iv).Some? ::
          p.decrypt(p.encrypt(pt, key, iv).value, key, iv) == Some(pt))
    && (forall key, data :: |p.hmac(key, data)| == 32)
    && (forall f | p.jsonEncode(f).Some? :: p.jsonDecode(p.jsonEncode(f).value) == Some(f))
    && (forall b :: p.base64Decode(p.base64Encode(b)) == Some(b))
  }
}
