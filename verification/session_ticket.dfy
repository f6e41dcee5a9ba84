/** The session-ticket wire record and its binary codec, following the layout
    recommended in section 4 of RFC 5077:
    key_name[16] || iv[16] || uint16 length || encrypted_state || mac[32]. */
module SessionTicket {
  import opened Common

  const KeyNameLength: int := 16
  const IvLength: int := 16
  const HmacLength: int := 32
  /** Offset of the encrypted state: key name, iv and the two length bytes. */
  const StateOffset: int := 34
  /** The shortest input `decode` looks at. */
  const MinEncodedLength: int := 36

  datatype Ticket = Ticket(keyName: Bytes, iv: Bytes, encryptedState: Bytes, hmac: Bytes)

  function Zeros(n: nat): (r: Bytes)
    ensures |r| == n && forall i :: 0 <= i < n ==> r[i] == 0
  {
    seq(n, _ => 0)
  }

  /** `str_pad(keyName, 16, "\0")`: right-pads with zero bytes, never truncates. */
  function PadKeyName(keyName: Bytes): (r: Bytes)
    ensures |keyName| >= KeyNameLength ==> r == keyName
    ensures |keyName| < KeyNameLength ==> |r| == KeyNameLength && r[..|keyName|] == keyName
    ensures |keyName| < KeyNameLength ==> forall i :: |keyName| <= i < KeyNameLength ==> r[i] == 0
  {
    if |keyName| >= KeyNameLength then keyName else keyName + Zeros(KeyNameLength - |keyName|)
  }

  /** The two length bytes: high byte then low byte, each masked to 8 bits. */
  function LengthBytes(n: nat): (r: Bytes)
    ensures |r| == 2 && r[0] as int * 256 + r[1] as int == n % 65536
  {
    [((n / 256) % 256) as uint8, (n % 256) as uint8]
  }

  /** The length a buffer declares at offsets 32 and 33. */
  function DeclaredLength(d: Bytes): (n: nat)
    requires |d| >= StateOffset
    ensures n < 65536
  {
    d[32] as int * 256 + d[33] as int
  }

  /** A ticket whose fields have the lengths the layout prescribes. */
  predicate WellFormed(t: Ticket)
  {
    && |t.keyName| == KeyNameLength
    && |t.iv| == IvLength
    && |t.hmac| == HmacLength
    && |t.encryptedState| <= 65535
  }

  /** `encode`: the fields in wire order, the state preceded by its masked length. */
  function Encode(t: Ticket): (r: Bytes)
    ensures |r| == |PadKeyName(t.keyName)| + |t.iv| + 2 + |t.encryptedState| + |t.hmac|
    ensures |t.keyName| <= KeyNameLength && |t.iv| == IvLength ==>
              && r[..KeyNameLength] == PadKeyName(t.keyName)
              && r[KeyNameLength..StateOffset - 2] == t.iv
              && DeclaredLength(r) == |t.encryptedState| % 65536
              && r[StateOffset..StateOffset + |t.encryptedState|] == t.encryptedState
              && r[StateOffset + |t.encryptedState|..] == t.hmac
    ensures WellFormed(t) ==> |r| == 66 + |t.encryptedState|
  {
    var p := PadKeyName(t.keyName);
    var r := p + t.iv + LengthBytes(|t.encryptedState|) + t.encryptedState + t.hmac;
    assert |t.keyName| <= KeyNameLength && |t.iv| == IvLength ==>
      r[32] == LengthBytes(|t.encryptedState|)[0] && r[33] == LengthBytes(|t.encryptedState|)[1];
    r
  }

  /** `decode`: rejects inputs shorter than 36 bytes and inputs too short for
      the declared state plus a 32-byte HMAC; otherwise slices the fields. */
  function Decode(d: Bytes): (r: Result<Ticket>)
    ensures r.Err? <==> |d| < MinEncodedLength || |d| < StateOffset + DeclaredLength(d) + HmacLength
    ensures r.Err? ==> r.error == InvalidArgument
    ensures r.Ok? ==> WellFormed(r.value) && |r.value.encryptedState| == DeclaredLength(d)
    ensures r.Ok? ==> Encode(r.value) == d[..66 + DeclaredLength(d)]
  {
    if |d| < MinEncodedLength then Err(InvalidArgument)
    else
      var n := DeclaredLength(d);
      if |d| < StateOffset + n + HmacLength then Err(InvalidArgument)
      else
        var t := Ticket(d[..16], d[16..32], d[34..34 + n], d[34 + n..66 + n]);
        assert Encode(t) == d[..16] + d[16..32] + d[32..34] + d[34..34 + n] + d[34 + n..66 + n];
        Ok(t)
  }

  /** Decoding an encoded ticket gives back the ticket, with a short key name
      zero-padded to 16 bytes. */
  lemma RoundTripPadded(t: Ticket)
    requires |t.keyName| <= KeyNameLength && |t.iv| == IvLength && |t.hmac| == HmacLength
    requires |t.encryptedState| <= 65535
    ensures Decode(Encode(t)) == Ok(t.(keyName := PadKeyName(t.keyName)))
  {
    var e := Encode(t);
    var n := |t.encryptedState|;
    assert DeclaredLength(e) == n;
    assert e[..16] == PadKeyName(t.keyName);
    assert e[16..32] == t.iv;
    assert e[34..34 + n] == t.encryptedState;
    assert e[34 + n..66 + n] == t.hmac;
  }

  /** The round trip on well-formed tickets. */
  lemma RoundTrip(t: Ticket)
    requires WellFormed(t)
    ensures Decode(Encode(t)) == Ok(t)
  {
    RoundTripPadded(t);
  }

  /** The 16-bit length mask breaks the round trip for states of 64 KiB or more. */
  lemma LongStateDoesNotRoundTrip(t: Ticket)
    requires |t.keyName| == KeyNameLength && |t.iv| == IvLength && |t.hmac| == HmacLength
    requires |t.encryptedState| > 65535
    ensures Decode(Encode(t)) != Ok(t)
  {
    var e := Encode(t);
    assert DeclaredLength(e) == |t.encryptedState| % 65536;
  }

  /** `decode` reads a fixed prefix and ignores whatever follows it. */
  lemma DecodeIgnoresTrailingBytes(d: Bytes, extra: Bytes)
    requires Decode(d).Ok?
    ensures Decode(d + extra) == Decode(d)
  {
    var n := DeclaredLength(d);
    var e := d + extra;
    assert e[32] == d[32] && e[33] == d[33];
    assert e[..16] == d[..16];
    assert e[16..32] == d[16..32];
    assert e[34..34 + n] == d[34..34 + n];
    assert e[34 + n..66 + n] == d[34 + n..66 + n];
  }
}
