/** `TLS13PSKSession`: a session resumable through a TLS 1.3 pre-shared key
    (section 4.6.1 of RFC 8446), with its early-data allowance. */
module Tls13PskSession {
  import opened Common
  import opened TlsSession

  /** The protocol version every PSK session is built with (TLS 1.3). */
  const Tls13Version: int := 0x0304

  predicate IsPsk(s: Session)
  {
    s.kind.Psk?
  }

  /** The constructor: the integer suite is kept as its decimal text, the
      version is fixed, and early data starts disabled with a zero limit. */
  function NewPskSession(sessionId: Bytes, cipherSuite: int, masterSecret: Bytes, timestamp: int,
                         pskIdentity: Bytes, ticketAgeAdd: int, ticketNonce: Bytes,
                         resumptionMasterSecret: Bytes, clock: int): (r: Session)
    ensures IsPsk(r) && r.tlsVersion == Tls13Version
    ensures r.cipherSuite == DecimalString(cipherSuite) && ParseDecimal(r.cipherSuite) == cipherSuite
    ensures r.sessionId == sessionId && r.masterSecret == masterSecret
    ensures r.creationTime == EffectiveTime(timestamp, clock) && r.lifetime == DefaultLifetime
    ensures r.kind.pskIdentity == pskIdentity && r.kind.ticketAgeAdd == ticketAgeAdd
    ensures r.kind.ticketNonce == ticketNonce && r.kind.resumptionMasterSecret == resumptionMasterSecret
    ensures !r.kind.earlyDataAllowed && r.kind.maxEarlyDataSize == 0
  {
    DecimalRoundTrip(cipherSuite);
    var base := NewSession(sessionId, masterSecret, DecimalString(cipherSuite), Tls13Version, timestamp, clock);
    base.(kind := Psk(pskIdentity, ticketAgeAdd, ticketNonce, resumptionMasterSecret, false, 0))
  }

  /** Two PSK sessions built from different integer suites carry different suite text. */
  lemma CipherSuiteTextInjective(a: int, b: int)
    requires DecimalString(a) == DecimalString(b)
    ensures a == b
  {
    DecimalRoundTrip(a);
    DecimalRoundTrip(b);
  }

  /** `setEarlyDataAllowed` touches the flag only. */
  function SetEarlyDataAllowed(s: Session, allowed: bool): (r: Session)
    requires IsPsk(s)
    ensures IsPsk(r) && r.kind.earlyDataAllowed == allowed
    ensures r.kind.(earlyDataAllowed := s.kind.earlyDataAllowed) == s.kind && r.(kind := s.kind) == s
  {
    s.(kind := s.kind.(earlyDataAllowed := allowed))
  }

  /** `setMaxEarlyDataSize` sets the limit and switches early data on exactly
      when the limit is positive. */
  function SetMaxEarlyDataSize(s: Session, maxSize: int): (r: Session)
    requires IsPsk(s)
    ensures IsPsk(r) && r.kind.maxEarlyDataSize == maxSize
    ensures r.kind.earlyDataAllowed <==> maxSize > 0
    ensures r.kind.(earlyDataAllowed := s.kind.earlyDataAllowed, maxEarlyDataSize := s.kind.maxEarlyDataSize) == s.kind
    ensures r.(kind := s.kind) == s
  {
    s.(kind := s.kind.(maxEarlyDataSize := maxSize, earlyDataAllowed := maxSize > 0))
  }

  function SetPskIdentity(s: Session, pskIdentity: Bytes): (r: Session)
    requires IsPsk(s)
    ensures IsPsk(r) && r.kind.pskIdentity == pskIdentity
    ensures r.kind.(pskIdentity := s.kind.pskIdentity) == s.kind && r.(kind := s.kind) == s
  {
    s.(kind := s.kind.(pskIdentity := pskIdentity))
  }

  function SetTicketAgeAdd(s: Session, ticketAgeAdd: int): (r: Session)
    requires IsPsk(s)
    ensures IsPsk(r) && r.kind.ticketAgeAdd == ticketAgeAdd
    ensures r.kind.(ticketAgeAdd := s.kind.ticketAgeAdd) == s.kind && r.(kind := s.kind) == s
  {
    s.(kind := s.kind.(ticketAgeAdd := ticketAgeAdd))
  }

  function SetTicketNonce(s: Session, ticketNonce: Bytes): (r: Session)
    requires IsPsk(s)
    ensures IsPsk(r) && r.kind.ticketNonce == ticketNonce
    ensures r.kind.(ticketNonce := s.kind.ticketNonce) == s.kind && r.(kind := s.kind) == s
  {
    s.(kind := s.kind.(ticketNonce := ticketNonce))
  }

  function SetResumptionMasterSecret(s: Session, secret: Bytes): (r: Session)
    requires IsPsk(s)
    ensures IsPsk(r) && r.kind.resumptionMasterSecret == secret
    ensures r.kind.(resumptionMasterSecret := s.kind.resumptionMasterSecret) == s.kind && r.(kind := s.kind) == s
  {
    s.(kind := s.kind.(resumptionMasterSecret := secret))
  }

  /** The coupling "early data allowed iff the limit is positive". */
  predicate EarlyDataCoupled(s: Session)
    requires IsPsk(s)
  {
    s.kind.earlyDataAllowed <==> s.kind.maxEarlyDataSize > 0
  }

  /** The constructor and `setMaxEarlyDataSize` establish the coupling. */
  lemma CouplingEstablished(s: Session, maxSize: int, sessionId: Bytes, cipherSuite: int, masterSecret: Bytes,
                            timestamp: int, pskIdentity: Bytes, ticketAgeAdd: int, ticketNonce: Bytes,
                            resumptionMasterSecret: Bytes, clock: int)
    requires IsPsk(s)
    ensures EarlyDataCoupled(SetMaxEarlyDataSize(s, maxSize))
    ensures EarlyDataCoupled(NewPskSession(sessionId, cipherSuite, masterSecret, timestamp, pskIdentity,
                                           ticketAgeAdd, ticketNonce, resumptionMasterSecret, clock))
  {
  }

  /** `setEarlyDataAllowed(false)` after a positive limit breaks the coupling:
      the state "disallowed but with a positive limit" is reachable. */
  lemma CouplingNotAnInvariant(s: Session)
    requires IsPsk(s)
    ensures var t := SetEarlyDataAllowed(SetMaxEarlyDataSize(s, 16384), false);
            !t.kind.earlyDataAllowed && t.kind.maxEarlyDataSize == 16384 && !EarlyDataCoupled(t)
  {
  }
}
