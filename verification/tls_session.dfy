/** The negotiated-state record shared by every resumption mechanism
    (`TLSSession`), with the TLS 1.3 PSK specialisation carried as a variant. */
module TlsSession {
  import opened Common

  /** Default session lifetime in seconds. */
  const DefaultLifetime: int := 3600

  /** Longest session id `setSessionId` accepts, in bytes. */
  const MaxSessionIdLength: int := 32

  /** Which concrete class a session value belongs to. A plain session is a
      `ConcreteTLSSession`; `Psk` carries the extra state of a `TLS13PSKSession`. */
  datatype Kind =
    | Plain
    | Psk(pskIdentity: Bytes, ticketAgeAdd: int, ticketNonce: Bytes,
          resumptionMasterSecret: Bytes, earlyDataAllowed: bool, maxEarlyDataSize: int)

  datatype Session = Session(
    sessionId: Bytes,
    cipherSuite: Bytes,
    tlsVersion: int,
    masterSecret: Bytes,
    creationTime: int,
    lifetime: int,
    kind: Kind)

  /** A timestamp argument of zero stands for "now", read from `clock`. */
  function EffectiveTime(timestamp: int, clock: int): (t: int)
    ensures timestamp != 0 ==> t == timestamp
    ensures timestamp == 0 ==> t == clock
  {
    if timestamp != 0 then timestamp else clock
  }

  /** The base constructor: the id is stored as given (no length check) and
      the lifetime starts at its default. */
  function NewSession(sessionId: Bytes, masterSecret: Bytes, cipherSuite: Bytes,
                      tlsVersion: int, timestamp: int, clock: int): (r: Session)
    ensures r.sessionId == sessionId && r.masterSecret == masterSecret
    ensures r.cipherSuite == cipherSuite && r.tlsVersion == tlsVersion
    ensures timestamp != 0 ==> r.creationTime == timestamp
    ensures timestamp == 0 ==> r.creationTime == clock
    ensures r.lifetime == 3600 && r.kind == Plain
  {
    Session(sessionId, cipherSuite, tlsVersion, masterSecret,
            EffectiveTime(timestamp, clock), DefaultLifetime, Plain)
  }

  /** `isValid`: the session is usable strictly before creation time plus lifetime. */
  predicate IsValid(s: Session, currentTime: int, clock: int)
  {
    EffectiveTime(currentTime, clock) < s.creationTime + s.lifetime
  }

  /** The validity window is closed at its start and open at its end. */
  lemma ValidityBoundary(s: Session, clock: int)
    requires s.creationTime + s.lifetime - 1 != 0 && s.creationTime + s.lifetime != 0
    ensures IsValid(s, s.creationTime + s.lifetime - 1, clock)
    ensures !IsValid(s, s.creationTime + s.lifetime, clock)
  {
  }

  /** A session valid at some instant was valid at every earlier instant. */
  lemma ValidityIsMonotone(s: Session, earlier: int, later: int, clock: int)
    requires earlier != 0 && later != 0 && earlier <= later
    requires IsValid(s, later, clock)
    ensures IsValid(s, earlier, clock)
  {
  }

  /** `setSessionId`: ids longer than 32 bytes are refused, shorter ones stored exactly. */
  function SetSessionId(s: Session, id: Bytes): (r: Result<Session>)
    ensures r.Err? <==> |id| > MaxSessionIdLength
    ensures r.Err? ==> r.error == InvalidArgument
    ensures r.Ok? ==> r.value.sessionId == id && r.value.(sessionId := s.sessionId) == s
  {
    if |id| > MaxSessionIdLength then Err(InvalidArgument) else Ok(s.(sessionId := id))
  }

  function SetCipherSuite(s: Session, cipherSuite: Bytes): (r: Session)
    ensures r.cipherSuite == cipherSuite && r.(cipherSuite := s.cipherSuite) == s
  {
    s.(cipherSuite := cipherSuite)
  }

  function SetTlsVersion(s: Session, tlsVersion: int): (r: Session)
    ensures r.tlsVersion == tlsVersion && r.(tlsVersion := s.tlsVersion) == s
  {
    s.(tlsVersion := tlsVersion)
  }

  function SetMasterSecret(s: Session, masterSecret: Bytes): (r: Session)
    ensures r.masterSecret == masterSecret && r.(masterSecret := s.masterSecret) == s
  {
    s.(masterSecret := masterSecret)
  }

  function SetCreationTime(s: Session, creationTime: int): (r: Session)
    ensures r.creationTime == creationTime && r.(creationTime := s.creationTime) == s
  {
    s.(creationTime := creationTime)
  }

  function SetLifetime(s: Session, lifetime: int): (r: Session)
    ensures r.lifetime == lifetime && r.(lifetime := s.lifetime) == s
  {
    s.(lifetime := lifetime)
  }

  /** `getTimestamp` is another name for the creation time. */
  function Timestamp(s: Session): (t: int)
    ensures t == s.creationTime
  {
    s.creationTime
  }
}
