/** `TLS13PSKSessionManager`: PSK sessions indexed by PSK identity, each stamped
    with the manager's one `ticket_age_add` (section 4.6.1 of RFC 8446). The
    class extends `InMemorySessionManager`; the inherited id-keyed store is kept
    as `base` and is reached only through `CleanAllSessions` here. */
module PskSessionManager {
  import opened Common
  import opened TlsSession
  import opened Tls13PskSession
  import opened ExpirySweep
  import InMemoryStore

  /** `1 << 30`: the modulus applied to the drawn `ticket_age_add`. */
  const AgeAddModulus: int := 0x4000_0000

  /** `mt_getrandmax()`. */
  const MtRandMax: int := 0x7FFF_FFFF

  datatype PskManager = PskManager(
    base: InMemoryStore.Store,
    pskSessions: map<Bytes, Session>,
    ticketAgeAdd: int,
    allowEarlyData: bool,
    maxEarlyDataSize: int)

  /** The random bytes one `createPSKSession` call draws: the identity, the
      session id, and the nonce used when the caller supplies none. */
  datatype PskDraw = PskDraw(identityBytes: Bytes, sessionIdBytes: Bytes, nonceBytes: Bytes)

  /** Each of the three draws is `random_bytes(16)`. */
  const DrawLength: nat := 16

  predicate DrawSized(d: PskDraw)
  {
    |d.identityBytes| == DrawLength && |d.sessionIdBytes| == DrawLength && |d.nonceBytes| == DrawLength
  }

  /** What every reachable manager satisfies: each indexed session is a PSK
      session filed under its own identity and stamped with the manager's
      age-add value, which lies in [0, 2^30). */
  predicate Indexed(m: PskManager)
  {
    && 0 <= m.ticketAgeAdd < AgeAddModulus
    && forall id :: id in m.pskSessions ==>
         && IsPsk(m.pskSessions[id])
         && m.pskSessions[id].kind.pskIdentity == id
         && m.pskSessions[id].kind.ticketAgeAdd == m.ticketAgeAdd
  }

  /** The constructor, given the value `mt_rand(0, mt_getrandmax())` drew. */
  function NewPskManager(mtRand: int): (r: PskManager)
    requires 0 <= mtRand <= MtRandMax
    ensures r.ticketAgeAdd == mtRand % AgeAddModulus && 0 <= r.ticketAgeAdd < AgeAddModulus
    ensures r.pskSessions == map[] && r.base == map[]
    ensures !r.allowEarlyData && r.maxEarlyDataSize == 0
    ensures Indexed(r)
  {
    PskManager(map[], map[], mtRand % AgeAddModulus, false, 0)
  }

  /** `createPSKSession`: a fresh session under a fresh identity, created now
      with the manager's age-add value; the supplied nonce unless it is empty;
      the manager's early-data settings only when its flag is set. */
  function CreatePskSession(m: PskManager, cipherSuite: int, masterSecret: Bytes,
                            resumptionMasterSecret: Bytes, ticketNonce: Bytes,
                            draw: PskDraw, now: int): (r: (Session, PskManager))
    requires DrawSized(draw)
    ensures var s := r.0;
      && IsPsk(s) && s.tlsVersion == Tls13Version
      && s.kind.pskIdentity == Hex(draw.identityBytes)
      && s.sessionId == Hex(draw.sessionIdBytes)
      && ParseDecimal(s.cipherSuite) == cipherSuite
      && s.masterSecret == masterSecret && s.kind.resumptionMasterSecret == resumptionMasterSecret
      && (now != 0 ==> s.creationTime == now)
      && s.kind.ticketAgeAdd == m.ticketAgeAdd
      && s.kind.ticketNonce == (if ticketNonce == [] then draw.nonceBytes else ticketNonce)
      && (m.allowEarlyData ==> s.kind.maxEarlyDataSize == m.maxEarlyDataSize
                               && (s.kind.earlyDataAllowed <==> m.maxEarlyDataSize > 0))
      && (!m.allowEarlyData ==> !s.kind.earlyDataAllowed && s.kind.maxEarlyDataSize == 0)
    ensures |r.0.kind.pskIdentity| == 32 && |r.0.sessionId| == 32
    ensures ticketNonce == [] ==> |r.0.kind.ticketNonce| == DrawLength
    ensures r.1 == m.(pskSessions := m.pskSessions[r.0.kind.pskIdentity := r.0])
    ensures Indexed(m) ==> Indexed(r.1)
  {
    var identity := Hex(draw.identityBytes);
    var nonce := if ticketNonce == [] then draw.nonceBytes else ticketNonce;
    var created := NewPskSession(Hex(draw.sessionIdBytes), cipherSuite, masterSecret, now, identity,
                               m.ticketAgeAdd, nonce, resumptionMasterSecret, now);
    var s := if m.allowEarlyData
             then SetMaxEarlyDataSize(SetEarlyDataAllowed(created, true), m.maxEarlyDataSize)
             else created;
    (s, m.(pskSessions := m.pskSessions[identity := s]))
  }

  /** `getSessionByPskIdentity`: the indexed session when present and valid;
      an invalid one is dropped from the index and reported absent. */
  function GetSessionByPskIdentity(m: PskManager, identity: Bytes, now: int): (r: (Option<Session>, PskManager))
    ensures r.0.Some? <==> identity in m.pskSessions && IsValid(m.pskSessions[identity], now, now)
    ensures r.0.Some? ==> r.0.value == m.pskSessions[identity] && r.1 == m
    ensures r.0.None? ==> r.1 == m.(pskSessions := m.pskSessions - {identity})
    ensures Indexed(m) ==> Indexed(r.1)
  {
    if identity !in m.pskSessions then (None, m)
    else if !IsValid(m.pskSessions[identity], 0, now) then (None, m.(pskSessions := m.pskSessions - {identity}))
    else (Some(m.pskSessions[identity]), m)
  }

  /** `removePSKSession`: true exactly when the identity was indexed; afterwards it is not. */
  function RemovePskSession(m: PskManager, identity: Bytes): (r: (bool, PskManager))
    ensures r.0 <==> identity in m.pskSessions
    ensures r.1.pskSessions.Keys == m.pskSessions.Keys - {identity}
    ensures r.1 == m.(pskSessions := r.1.pskSessions)
    ensures forall id :: id in r.1.pskSessions ==> r.1.pskSessions[id] == m.pskSessions[id]
    ensures Indexed(m) ==> Indexed(r.1)
  {
    if identity in m.pskSessions then (true, m.(pskSessions := m.pskSessions - {identity}))
    else (false, m)
  }

  /** `cleanExpiredPSKSessions`: drops exactly the sessions invalid at `now`
      from the index and returns how many. */
  method CleanExpiredPskSessions(m: PskManager, now: int) returns (r: PskManager, count: nat)
    ensures r == m.(pskSessions := r.pskSessions)
    ensures forall id :: id in m.pskSessions ==> (id in r.pskSessions <==> IsValid(m.pskSessions[id], now, now))
    ensures r.pskSessions.Keys <= m.pskSessions.Keys
    ensures forall id :: id in r.pskSessions ==> r.pskSessions[id] == m.pskSessions[id]
    ensures count == |m.pskSessions.Keys - r.pskSessions.Keys|
    ensures Indexed(m) ==> Indexed(r)
  {
    var kept;
    kept, count := Sweep(m.pskSessions, s => IsValid(s, now, now));
    r := m.(pskSessions := kept);
  }

  /** `setEarlyDataAllowed`: the flag only. */
  function SetEarlyDataAllowedFlag(m: PskManager, allowed: bool): (r: PskManager)
    ensures r.allowEarlyData == allowed && r.(allowEarlyData := m.allowEarlyData) == m
  {
    m.(allowEarlyData := allowed)
  }

  /** `setMaxEarlyDataSize`: the limit, and the flag set to whether it is positive. */
  function SetMaxEarlyDataSizeLimit(m: PskManager, maxSize: int): (r: PskManager)
    ensures r.maxEarlyDataSize == maxSize && (r.allowEarlyData <==> maxSize > 0)
    ensures r.(allowEarlyData := m.allowEarlyData, maxEarlyDataSize := m.maxEarlyDataSize) == m
  {
    m.(maxEarlyDataSize := maxSize, allowEarlyData := maxSize > 0)
  }

  /** `cleanAllSessions`: sweeps the inherited store of expired sessions, then
      empties the PSK index. */
  method CleanAllSessions(m: PskManager, now: int) returns (r: PskManager)
    ensures r.pskSessions == map[]
    ensures forall id :: id in m.base ==> (id in r.base <==> InMemoryStore.Live(m.base[id], now))
    ensures r.base.Keys <= m.base.Keys && forall id :: id in r.base ==> r.base[id] == m.base[id]
    ensures r.ticketAgeAdd == m.ticketAgeAdd && r.allowEarlyData == m.allowEarlyData
    ensures r.maxEarlyDataSize == m.maxEarlyDataSize
    ensures Indexed(m) ==> Indexed(r)
  {
    var base, count := InMemoryStore.CleanExpiredSessions(m.base, now);
    r := m.(base := base, pskSessions := map[]);
  }

  /** Nothing keeps the age-add value off zero: draws 0 and 2^30 both give it. */
  lemma AgeAddCanBeZero()
    ensures NewPskManager(0).ticketAgeAdd == 0 && NewPskManager(AgeAddModulus).ticketAgeAdd == 0
  {
  }

  /** A freshly created session is found again under its identity while it is valid. */
  lemma CreateThenGet(m: PskManager, cipherSuite: int, masterSecret: Bytes, rms: Bytes,
                      nonce: Bytes, draw: PskDraw, now: int, later: int)
    requires DrawSized(draw) && now != 0 && later != 0 && later < now + DefaultLifetime
    ensures var (s, m1) := CreatePskSession(m, cipherSuite, masterSecret, rms, nonce, draw, now);
            GetSessionByPskIdentity(m1, s.kind.pskIdentity, later) == (Some(s), m1)
  {
  }

  /** The flag on with a zero limit yields sessions with early data disabled. */
  lemma FlagWithoutLimitDisablesEarlyData(m: PskManager, cipherSuite: int, masterSecret: Bytes,
                                          rms: Bytes, nonce: Bytes, draw: PskDraw, now: int)
    requires DrawSized(draw) && m.allowEarlyData && m.maxEarlyDataSize == 0
    ensures !CreatePskSession(m, cipherSuite, masterSecret, rms, nonce, draw, now).0.kind.earlyDataAllowed
  {
  }

  /** Every session a manager creates shares one age-add value. */
  lemma SharedAgeAdd(m: PskManager, cs1: int, ms1: Bytes, rms1: Bytes, n1: Bytes, d1: PskDraw, t1: int,
                     cs2: int, ms2: Bytes, rms2: Bytes, n2: Bytes, d2: PskDraw, t2: int)
    requires DrawSized(d1) && DrawSized(d2)
    ensures var (s1, m1) := CreatePskSession(m, cs1, ms1, rms1, n1, d1, t1);
            var (s2, m2) := CreatePskSession(m1, cs2, ms2, rms2, n2, d2, t2);
            s1.kind.ticketAgeAdd == s2.kind.ticketAgeAdd == m.ticketAgeAdd && m2.ticketAgeAdd == m.ticketAgeAdd
  {
  }
}
