/** `SessionKeysDeriver`: the per-suite key, IV and MAC-key lengths, the
    slicing of a TLS 1.2 key block (section 6.3 of RFC 5246) and the TLS 1.3
    key and IV expansion (section 7.3 of RFC 8446). The PRF and HKDF come from
    another package and are parameters here. */
module KeyDerivation {
  import opened Common
  import opened SessionKeys

  /** The suites the length tables name, with their registry code points. */
  datatype Suite =
    | RsaAes128CbcSha | DheRsaAes128CbcSha | EcdheRsaAes128CbcSha | EcdheEcdsaAes128CbcSha
    | RsaAes128GcmSha256 | DheRsaAes128GcmSha256 | EcdheRsaAes128GcmSha256 | EcdheEcdsaAes128GcmSha256
    | Aes128GcmSha256
    | RsaAes256CbcSha | DheRsaAes256CbcSha | EcdheRsaAes256CbcSha | EcdheEcdsaAes256CbcSha
    | RsaAes256GcmSha384 | DheRsaAes256GcmSha384 | EcdheRsaAes256GcmSha384 | EcdheEcdsaAes256GcmSha384
    | Aes256GcmSha384
    | EcdheRsaChaCha20Poly1305 | EcdheEcdsaChaCha20Poly1305 | DheRsaChaCha20Poly1305
    | ChaCha20Poly1305Sha256

  function Code(s: Suite): (c: int)
    ensures 0 <= c < 0x10000
  {
    match s
    case RsaAes128CbcSha => 0x002F
    case DheRsaAes128CbcSha => 0x0033
    case EcdheRsaAes128CbcSha => 0xC013
    case EcdheEcdsaAes128CbcSha => 0xC009
    case RsaAes128GcmSha256 => 0x009C
    case DheRsaAes128GcmSha256 => 0x009E
    case EcdheRsaAes128GcmSha256 => 0xC02F
    case EcdheEcdsaAes128GcmSha256 => 0xC02B
    case Aes128GcmSha256 => 0x1301
    case RsaAes256CbcSha => 0x0035
    case DheRsaAes256CbcSha => 0x0039
    case EcdheRsaAes256CbcSha => 0xC014
    case EcdheEcdsaAes256CbcSha => 0xC00A
    case RsaAes256GcmSha384 => 0x009D
    case DheRsaAes256GcmSha384 => 0x009F
    case EcdheRsaAes256GcmSha384 => 0xC030
    case EcdheEcdsaAes256GcmSha384 => 0xC02C
    case Aes256GcmSha384 => 0x1302
    case EcdheRsaChaCha20Poly1305 => 0xCCA8
    case EcdheEcdsaChaCha20Poly1305 => 0xCCA9
    case DheRsaChaCha20Poly1305 => 0xCCAA
    case ChaCha20Poly1305Sha256 => 0x1303
  }

  /** The suite a code point names, if the tables list it. */
  function FromCode(c: int): (r: Option<Suite>)
    ensures r.Some? ==> Code(r.value) == c
    ensures r.None? ==> forall s :: Code(s) != c
  {
    if c == 0x002F then Some(RsaAes128CbcSha)
    else if c == 0x0033 then Some(DheRsaAes128CbcSha)
    else if c == 0xC013 then Some(EcdheRsaAes128CbcSha)
    else if c == 0xC009 then Some(EcdheEcdsaAes128CbcSha)
    else if c == 0x009C then Some(RsaAes128GcmSha256)
    else if c == 0x009E then Some(DheRsaAes128GcmSha256)
    else if c == 0xC02F then Some(EcdheRsaAes128GcmSha256)
    else if c == 0xC02B then Some(EcdheEcdsaAes128GcmSha256)
    else if c == 0x1301 then Some(Aes128GcmSha256)
    else if c == 0x0035 then Some(RsaAes256CbcSha)
    else if c == 0x0039 then Some(DheRsaAes256CbcSha)
    else if c == 0xC014 then Some(EcdheRsaAes256CbcSha)
    else if c == 0xC00A then Some(EcdheEcdsaAes256CbcSha)
    else if c == 0x009D then Some(RsaAes256GcmSha384)
    else if c == 0x009F then Some(DheRsaAes256GcmSha384)
    else if c == 0xC030 then Some(EcdheRsaAes256GcmSha384)
    else if c == 0xC02C then Some(EcdheEcdsaAes256GcmSha384)
    else if c == 0x1302 then Some(Aes256GcmSha384)
    else if c == 0xCCA8 then Some(EcdheRsaChaCha20Poly1305)
    else if c == 0xCCA9 then Some(EcdheEcdsaChaCha20Poly1305)
    else if c == 0xCCAA then Some(DheRsaChaCha20Poly1305)
    else if c == 0x1303 then Some(ChaCha20Poly1305Sha256)
    else None
  }

  /** Distinct suites have distinct code points. */
  lemma CodeInjective(s: Suite)
    ensures FromCode(Code(s)) == Some(s)
  {
  }

  // ---------------------------------------------------------------------------
  // The length tables, grouped as the source's `match` arms group them

  /** `getKeyLength`: 16 for AES-128, 32 for AES-256 and ChaCha20, 16 otherwise. */
  function KeyLength(c: int): nat
  {
    match FromCode(c)
    case Some(RsaAes128CbcSha) | Some(DheRsaAes128CbcSha) | Some(EcdheRsaAes128CbcSha)
       | Some(EcdheEcdsaAes128CbcSha) | Some(RsaAes128GcmSha256) | Some(DheRsaAes128GcmSha256)
       | Some(EcdheRsaAes128GcmSha256) | Some(EcdheEcdsaAes128GcmSha256) | Some(Aes128GcmSha256) => 16
    case Some(RsaAes256CbcSha) | Some(DheRsaAes256CbcSha) | Some(EcdheRsaAes256CbcSha)
       | Some(EcdheEcdsaAes256CbcSha) | Some(RsaAes256GcmSha384) | Some(DheRsaAes256GcmSha384)
       | Some(EcdheRsaAes256GcmSha384) | Some(EcdheEcdsaAes256GcmSha384) | Some(Aes256GcmSha384) => 32
    case Some(EcdheRsaChaCha20Poly1305) | Some(EcdheEcdsaChaCha20Poly1305)
       | Some(DheRsaChaCha20Poly1305) | Some(ChaCha20Poly1305Sha256) => 32
    case None => 16
  }

  /** `getIVLength`: 16 for CBC, a 4-byte implicit salt for TLS 1.2 GCM, a
      12-byte nonce for ChaCha20 and for every TLS 1.3 suite, 12 otherwise. */
  function IvLength(c: int): nat
  {
    match FromCode(c)
    case Some(RsaAes128CbcSha) | Some(DheRsaAes128CbcSha) | Some(EcdheRsaAes128CbcSha)
       | Some(EcdheEcdsaAes128CbcSha) | Some(RsaAes256CbcSha) | Some(DheRsaAes256CbcSha)
       | Some(EcdheRsaAes256CbcSha) | Some(EcdheEcdsaAes256CbcSha) => 16
    case Some(RsaAes128GcmSha256) | Some(DheRsaAes128GcmSha256) | Some(EcdheRsaAes128GcmSha256)
       | Some(EcdheEcdsaAes128GcmSha256) | Some(RsaAes256GcmSha384) | Some(DheRsaAes256GcmSha384)
       | Some(EcdheRsaAes256GcmSha384) | Some(EcdheEcdsaAes256GcmSha384) => 4
    case Some(EcdheRsaChaCha20Poly1305) | Some(EcdheEcdsaChaCha20Poly1305) | Some(DheRsaChaCha20Poly1305) => 12
    case Some(Aes128GcmSha256) | Some(Aes256GcmSha384) | Some(ChaCha20Poly1305Sha256) => 12
    case None => 12
  }

  /** `getMACKeyLength`: 20 (HMAC-SHA1) for the eight CBC suites, 0 otherwise. */
  function MacKeyLength(c: int): nat
  {
    match FromCode(c)
    case Some(RsaAes128CbcSha) | Some(DheRsaAes128CbcSha) | Some(EcdheRsaAes128CbcSha)
       | Some(EcdheEcdsaAes128CbcSha) | Some(RsaAes256CbcSha) | Some(DheRsaAes256CbcSha)
       | Some(EcdheRsaAes256CbcSha) | Some(EcdheEcdsaAes256CbcSha) => 20
    case _ => 0
  }

  // ---------------------------------------------------------------------------
  // An independent description of each suite, which the tables must agree with

  datatype Cipher = Aes128 | Aes256 | ChaCha20
  datatype Mode = Cbc | Gcm | Poly1305
  datatype Protocol = Tls12 | Tls13

  /** The bulk cipher, mode and protocol a suite's name spells out. */
  function Parts(s: Suite): (Cipher, Mode, Protocol)
  {
    match s
    case RsaAes128CbcSha | DheRsaAes128CbcSha | EcdheRsaAes128CbcSha | EcdheEcdsaAes128CbcSha =>
      (Aes128, Cbc, Tls12)
    case RsaAes256CbcSha | DheRsaAes256CbcSha | EcdheRsaAes256CbcSha | EcdheEcdsaAes256CbcSha =>
      (Aes256, Cbc, Tls12)
    case RsaAes128GcmSha256 | DheRsaAes128GcmSha256 | EcdheRsaAes128GcmSha256 | EcdheEcdsaAes128GcmSha256 =>
      (Aes128, Gcm, Tls12)
    case RsaAes256GcmSha384 | DheRsaAes256GcmSha384 | EcdheRsaAes256GcmSha384 | EcdheEcdsaAes256GcmSha384 =>
      (Aes256, Gcm, Tls12)
    case EcdheRsaChaCha20Poly1305 | EcdheEcdsaChaCha20Poly1305 | DheRsaChaCha20Poly1305 =>
      (ChaCha20, Poly1305, Tls12)
    case Aes128GcmSha256 => (Aes128, Gcm, Tls13)
    case Aes256GcmSha384 => (Aes256, Gcm, Tls13)
    case ChaCha20Poly1305Sha256 => (ChaCha20, Poly1305, Tls13)
  }

  /** The lengths each component calls for: AES-128 keys are 16 bytes, the
      others 32; a CBC record IV is one 16-byte block; TLS 1.2 GCM keeps a
      4-byte salt (section 3 of RFC 5288); ChaCha20-Poly1305 (RFC 7905) and
      every TLS 1.3 AEAD use a 12-byte nonce; only CBC suites carry a separate
      HMAC-SHA1 key of 20 bytes. */
  function ExpectedLengths(s: Suite): (r: (nat, nat, nat))
  {
    var (cipher, mode, protocol) := Parts(s);
    var key := if cipher == Aes128 then 16 else 32;
    var iv := if mode == Cbc then 16 else if mode == Gcm && protocol == Tls12 then 4 else 12;
    var mac := if mode == Cbc then 20 else 0;
    (key, iv, mac)
  }

  /** The tables agree with the suite descriptions, and unlisted code points
      get the defaults 16, 12 and 0. */
  lemma TablesMatchDescriptions(c: int)
    ensures FromCode(c).Some? ==>
              (KeyLength(c), IvLength(c), MacKeyLength(c)) == ExpectedLengths(FromCode(c).value)
    ensures FromCode(c).None? ==> KeyLength(c) == 16 && IvLength(c) == 12 && MacKeyLength(c) == 0
  {
  }

  /** Exactly the CBC suites have a MAC key. */
  lemma MacKeyIffCbc(c: int)
    ensures MacKeyLength(c) > 0 <==> FromCode(c).Some? && Parts(FromCode(c).value).1 == Cbc
  {
  }

  // ---------------------------------------------------------------------------
  // TLS 1.2 key-block slicing

  /** `substr(s, start, length)` for non-negative arguments: clamped to the string. */
  function Substr(s: Bytes, start: nat, length: nat): (r: Bytes)
    ensures start <= |s| ==> r == s[start..Min(start + length, |s|)]
    ensures start > |s| ==> r == []
    ensures |r| <= length
  {
    if start > |s| then [] else s[start..Min(start + length, |s|)]
  }

  function Min(a: int, b: int): int
  {
    if a <= b then a else b
  }

  /** A slice that fits in the string is the plain slice. */
  lemma SubstrInRange(s: Bytes, start: nat, length: nat)
    requires start + length <= |s|
    ensures Substr(s, start, length) == s[start..start + length]
  {
  }

  /** Adjacent clamped slices join into the clamped slice they cover. */
  lemma SubstrAdjacent(s: Bytes, start: nat, n: nat, m: nat)
    ensures Substr(s, start, n) + Substr(s, start + n, m) == Substr(s, start, n + m)
  {
    if start <= |s| && start + n <= |s| {
      assert s[start..Min(start + n + m, |s|)] == s[start..start + n] + s[start + n..Min(start + n + m, |s|)];
    }
  }

  /** Six adjacent slices from the front join into one prefix. */
  lemma Pieces(s: Bytes, p1: nat, p2: nat, p3: nat, p4: nat, p5: nat, p6: nat)
    requires p1 <= p2 <= p3 <= p4 <= p5 <= p6 <= |s|
    ensures s[..p1] + s[p1..p2] + s[p2..p3] + s[p3..p4] + s[p4..p5] + s[p5..p6] == s[..p6]
  {
    assert s[..p1] + s[p1..p2] == s[..p2];
    assert s[..p2] + s[p2..p3] == s[..p3];
    assert s[..p3] + s[p3..p4] == s[..p4];
    assert s[..p4] + s[p4..p5] == s[..p5];
    assert s[..p5] + s[p5..p6] == s[..p6];
  }

  /** `2 * (keyLength + ivLength + macKeyLength)`. */
  function KeyBlockLength(c: int): (n: nat)
  {
    2 * (KeyLength(c) + IvLength(c) + MacKeyLength(c))
  }

  /** The key block as the keys lay it out, in the order of section 6.3 of
      RFC 5246: MAC keys (when present), write keys, then IVs; client before server. */
  function Layout(k: SessionKeys): Bytes
  {
    (if k.clientMacKey.Some? then k.clientMacKey.value else [])
    + (if k.serverMacKey.Some? then k.serverMacKey.value else [])
    + k.clientWriteKey + k.serverWriteKey + k.clientWriteIv + k.serverWriteIv
  }

  /** Where the write keys start: after the two MAC keys, when there are any. */
  function KeysOffset(macLen: nat): nat
  {
    if macLen > 0 then 2 * macLen else 0
  }

  /** The six fields at the given lengths: MAC keys first when `macLen` is
      positive, then the write keys, then the IVs, each cut with `substr`. */
  function SubstrFields(block: Bytes, keyLen: nat, ivLen: nat, macLen: nat): SessionKeys
  {
    var pos := KeysOffset(macLen);
    SessionKeys(Substr(block, pos, keyLen), Substr(block, pos + keyLen, keyLen),
                Substr(block, pos + 2 * keyLen, ivLen), Substr(block, pos + 2 * keyLen + ivLen, ivLen),
                if macLen > 0 then Some(Substr(block, 0, macLen)) else None,
                if macLen > 0 then Some(Substr(block, macLen, macLen)) else None)
  }

  /** Cuts `block` into the six fields at the given lengths. When the block is
      long enough every `substr` lies inside it and is a plain slice. */
  function SliceAt(block: Bytes, keyLen: nat, ivLen: nat, macLen: nat): (r: SessionKeys)
    ensures r.clientMacKey.None? <==> macLen == 0
    ensures r.serverMacKey.None? <==> macLen == 0
    ensures |block| >= 2 * (keyLen + ivLen + macLen) ==>
              && Layout(r) == block[..2 * (keyLen + ivLen + macLen)]
              && |r.clientWriteKey| == |r.serverWriteKey| == keyLen
              && |r.clientWriteIv| == |r.serverWriteIv| == ivLen
              && (macLen > 0 ==> |r.clientMacKey.value| == |r.serverMacKey.value| == macLen)
  {
    var pos := KeysOffset(macLen);
    var p2, p3, p4, p5 := pos + keyLen, pos + 2 * keyLen, pos + 2 * keyLen + ivLen, pos + 2 * keyLen + 2 * ivLen;
    if |block| < p5 then SubstrFields(block, keyLen, ivLen, macLen)
    else
      var k := SessionKeys(block[pos..p2], block[p2..p3], block[p3..p4], block[p4..p5],
                           if macLen > 0 then Some(block[..macLen]) else None,
                           if macLen > 0 then Some(block[macLen..pos]) else None);
      Pieces(block, macLen, pos, p2, p3, p4, p5);
      assert Layout(k) == block[..p5] by {
        if macLen == 0 {
          assert block[..0] == [] && block[0..0] == [];
        }
      }
      k
  }

  /** The slices are exactly what the `substr` calls return. */
  lemma SliceAtIsSubstr(block: Bytes, keyLen: nat, ivLen: nat, macLen: nat)
    ensures SliceAt(block, keyLen, ivLen, macLen) == SubstrFields(block, keyLen, ivLen, macLen)
  {
    var pos := KeysOffset(macLen);
    if |block| >= pos + 2 * keyLen + 2 * ivLen {
      SubstrInRange(block, pos, keyLen);
      SubstrInRange(block, pos + keyLen, keyLen);
      SubstrInRange(block, pos + 2 * keyLen, ivLen);
      SubstrInRange(block, pos + 2 * keyLen + ivLen, ivLen);
      if macLen > 0 {
        SubstrInRange(block, 0, macLen);
        SubstrInRange(block, macLen, macLen);
      }
    }
  }

  /** Cuts `block` into the six fields at the suite's table lengths. */
  function SliceKeyBlock(block: Bytes, c: int): (r: SessionKeys)
    ensures r.clientMacKey.None? <==> MacKeyLength(c) == 0
    ensures r.serverMacKey.None? <==> MacKeyLength(c) == 0
    ensures |block| >= KeyBlockLength(c) ==>
              && Layout(r) == block[..KeyBlockLength(c)]
              && |r.clientWriteKey| == |r.serverWriteKey| == KeyLength(c)
              && |r.clientWriteIv| == |r.serverWriteIv| == IvLength(c)
              && (MacKeyLength(c) > 0 ==> |r.clientMacKey.value| == |r.serverMacKey.value| == MacKeyLength(c))
  {
    SliceAt(block, KeyLength(c), IvLength(c), MacKeyLength(c))
  }

  /** `deriveTLS12Keys`: asks the PRF for a block of the table length and
      slices it. With a PRF that honours the requested length, the keys have
      their table lengths and together make up the whole block. */
  function DeriveTls12Keys(prf: (Bytes, Bytes, Bytes, nat) -> Bytes, masterSecret: Bytes,
                           clientRandom: Bytes, serverRandom: Bytes, c: int): (r: SessionKeys)
    ensures r.clientMacKey.None? <==> MacKeyLength(c) == 0
    ensures r.serverMacKey.None? <==> MacKeyLength(c) == 0
    ensures var block := prf(masterSecret, clientRandom, serverRandom, KeyBlockLength(c));
            |block| == KeyBlockLength(c) ==>
              && Layout(r) == block
              && |r.clientWriteKey| == |r.serverWriteKey| == KeyLength(c)
              && |r.clientWriteIv| == |r.serverWriteIv| == IvLength(c)
              && (MacKeyLength(c) > 0 ==> |r.clientMacKey.value| == |r.serverMacKey.value| == MacKeyLength(c))
  {
    SliceKeyBlock(prf(masterSecret, clientRandom, serverRandom, KeyBlockLength(c)), c)
  }

  /** The case the tests check: ECDHE-RSA-AES128-GCM-SHA256 gives 16-byte keys,
      4-byte IVs and no MAC keys. */
  lemma GcmExample(prf: (Bytes, Bytes, Bytes, nat) -> Bytes, ms: Bytes, cr: Bytes, sr: Bytes)
    requires forall a, b, d, n :: |prf(a, b, d, n)| == n
    ensures var k := DeriveTls12Keys(prf, ms, cr, sr, 0xC02F);
            |k.clientWriteKey| == 16 && |k.clientWriteIv| == 4 && k.clientMacKey == None && k.serverMacKey == None
  {
    assert KeyBlockLength(0xC02F) == 40;
  }

  // ---------------------------------------------------------------------------
  // TLS 1.3 expansion

  /** The fixed TLS 1.3 IV length. */
  const Tls13IvLength: nat := 12

  /** `deriveTLS13HandshakeKeys`: HKDF-Expand-Label with labels "key" and "iv"
      and an empty context. Both directions expand the one given secret with
      the same labels, so as written they come out identical. */
  function DeriveTls13HandshakeKeys(hkdf: (Bytes, Bytes, Bytes, nat) -> Bytes, trafficSecret: Bytes, c: int)
    : (r: SessionKeys)
    ensures r.clientWriteKey == hkdf(trafficSecret, Ascii("key"), [], KeyLength(c))
    ensures r.clientWriteIv == hkdf(trafficSecret, Ascii("iv"), [], Tls13IvLength)
    ensures ClientKeys(r) == ServerKeys(r) && ReadKeys(r) == WriteKeys(r)
    ensures r.clientMacKey == None && r.serverMacKey == None
  {
    var clientKey := hkdf(trafficSecret, Ascii("key"), [], KeyLength(c));
    var clientIv := hkdf(trafficSecret, Ascii("iv"), [], Tls13IvLength);
    var serverKey := hkdf(trafficSecret, Ascii("key"), [], KeyLength(c));
    var serverIv := hkdf(trafficSecret, Ascii("iv"), [], Tls13IvLength);
    WithoutMacKeys(clientKey, serverKey, clientIv, serverIv)
  }

  /** `deriveTLS13ApplicationKeys`: the same expansion as the handshake keys. */
  function DeriveTls13ApplicationKeys(hkdf: (Bytes, Bytes, Bytes, nat) -> Bytes, trafficSecret: Bytes, c: int)
    : (r: SessionKeys)
    ensures r.clientWriteKey == hkdf(trafficSecret, Ascii("key"), [], KeyLength(c))
    ensures r.clientWriteIv == hkdf(trafficSecret, Ascii("iv"), [], Tls13IvLength)
    ensures ClientKeys(r) == ServerKeys(r) && r.clientMacKey == None && r.serverMacKey == None
  {
    DeriveTls13HandshakeKeys(hkdf, trafficSecret, c)
  }

  /** With an HKDF that honours the requested length, TLS 1.3 keys have the
      table key length and 12-byte IVs. */
  lemma Tls13Lengths(hkdf: (Bytes, Bytes, Bytes, nat) -> Bytes, secret: Bytes, c: int)
    requires forall a, b, d, n :: |hkdf(a, b, d, n)| == n
    ensures var k := DeriveTls13HandshakeKeys(hkdf, secret, c);
            |k.clientWriteKey| == |k.serverWriteKey| == KeyLength(c)
            && |k.clientWriteIv| == |k.serverWriteIv| == Tls13IvLength
  {
  }
}
