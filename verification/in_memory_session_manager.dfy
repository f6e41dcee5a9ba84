/** `InMemorySessionManager`: sessions keyed by session id, evicted lazily on
    lookup (by each session's own validity) or by an explicit sweep. */
module InMemoryStore {
  import opened Common
  import opened TlsSession
  import opened ExpirySweep

  /** The version of sessions this store creates (TLS 1.2). */
  const CreatedVersion: int := 0x0303

  /** How many random bytes `createSession` draws for an id. */
  const SessionIdBytes: nat := 16

  type Store = map<Bytes, Session>

  /** Validity as the store checks it: `isValid` at the current time. Lookup
      calls it with no argument (so the session reads the clock itself) and the
      sweep passes the time it read once; both come to the same test. */
  predicate Live(s: Session, now: int)
  {
    IsValid(s, now, now)
  }

  /** `storeSession`: an upsert keyed by the session's id; always succeeds. */
  function StoreSession(store: Store, s: Session): (r: (bool, Store))
    ensures r.0
    ensures r.1.Keys == store.Keys + {s.sessionId} && r.1[s.sessionId] == s
    ensures forall id :: id in store && id != s.sessionId ==> r.1[id] == store[id]
  {
    (true, store[s.sessionId := s])
  }

  /** `createSession`: a TLS 1.2 session under the hex rendering of 16 random
      bytes, created now with the default lifetime, and stored. */
  function CreateSession(store: Store, idBytes: Bytes, cipherSuite: Bytes, masterSecret: Bytes, now: int)
    : (r: (Session, Store))
    requires |idBytes| == SessionIdBytes
    ensures r.0.sessionId == Hex(idBytes) && |r.0.sessionId| == 32
    ensures r.0.cipherSuite == cipherSuite && r.0.masterSecret == masterSecret
    ensures r.0.tlsVersion == CreatedVersion && r.0.lifetime == DefaultLifetime && r.0.kind == Plain
    ensures now != 0 ==> r.0.creationTime == now
    ensures r.1.Keys == store.Keys + {r.0.sessionId} && r.1[r.0.sessionId] == r.0
    ensures forall id :: id in store && id != r.0.sessionId ==> r.1[id] == store[id]
  {
    var s := NewSession(Hex(idBytes), masterSecret, cipherSuite, CreatedVersion, now, now);
    (s, StoreSession(store, s).1)
  }

  /** `getSessionById`: the stored session when present and valid; an invalid
      one is removed and reported absent. */
  function GetSessionById(store: Store, id: Bytes, now: int): (r: (Option<Session>, Store))
    ensures r.0.Some? <==> id in store && Live(store[id], now)
    ensures r.0.Some? ==> r.0.value == store[id] && r.1 == store
    ensures r.0.None? ==> r.1 == store - {id}
  {
    if id !in store then (None, store)
    else if !IsValid(store[id], 0, now) then (None, store - {id})
    else (Some(store[id]), store)
  }

  /** `removeSession`: true exactly when the id was present; afterwards it is absent. */
  function RemoveSession(store: Store, id: Bytes): (r: (bool, Store))
    ensures r.0 <==> id in store
    ensures r.1.Keys == store.Keys - {id}
    ensures forall k :: k in r.1 ==> r.1[k] == store[k]
  {
    if id in store then (true, store - {id}) else (false, store)
  }

  /** `cleanExpiredSessions`: one timestamp for the whole pass; removes exactly
      the invalid sessions and returns how many. */
  method CleanExpiredSessions(store: Store, now: int) returns (r: Store, count: nat)
    ensures forall id :: id in store ==> (id in r <==> Live(store[id], now))
    ensures r.Keys <= store.Keys && forall id :: id in r ==> r[id] == store[id]
    ensures count == |store.Keys - r.Keys|
  {
    r, count := Sweep(store, s => Live(s, now));
  }

  /** A stored, valid session is found again under its id. */
  lemma StoreThenGet(store: Store, s: Session, now: int)
    requires Live(s, now)
    ensures GetSessionById(StoreSession(store, s).1, s.sessionId, now) == (Some(s), StoreSession(store, s).1)
  {
  }

  /** Lookup treats "absent" and "present but expired" alike, and leaves the id absent. */
  lemma ExpiredLooksAbsent(store: Store, id: Bytes, now: int)
    requires id in store && !Live(store[id], now)
    ensures GetSessionById(store, id, now).0 == GetSessionById(store - {id}, id, now).0 == None
    ensures GetSessionById(store, id, now).1 == store - {id}
  {
  }

  /** After a sweep no lookup at the same instant evicts anything. */
  method SweepLeavesOnlyLive(store: Store, now: int) returns (r: Store)
    ensures forall id :: id in r ==> GetSessionById(r, id, now) == (Some(r[id]), r)
  {
    var count;
    r, count := CleanExpiredSessions(store, now);
  }
}
