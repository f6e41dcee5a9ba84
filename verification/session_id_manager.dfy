/** `SessionIdManager`: session-id resumption for TLS 1.2 and earlier. Unlike
    the in-memory store it ignores each session's own lifetime and expires
    every session a fixed hour after creation, and it sweeps on every store. */
module SessionIdStore {
  import opened Common
  import opened TlsSession
  import opened ExpirySweep

  /** The fixed lifetime this manager applies, in seconds. */
  const SessionLifetime: int := 3600

  /** The version of sessions this manager creates (TLS 1.2). */
  const CreatedVersion: int := 0x0303

  /** Length of the raw random session id. */
  const SessionIdLength: int := 32

  type Store = map<Bytes, Session>

  /** `isSessionExpired`: strictly later than creation plus the fixed hour. */
  predicate Expired(s: Session, now: int)
  {
    now > s.creationTime + SessionLifetime
  }

  /** `createSession`: a TLS 1.2 session whose id is the 32 random bytes
      themselves (not hex), created now; it is not stored. */
  function CreateSession(idBytes: Bytes, cipherSuite: Bytes, masterSecret: Bytes, now: int): (r: Session)
    requires |idBytes| == SessionIdLength
    ensures r.sessionId == idBytes && |r.sessionId| == SessionIdLength
    ensures r.cipherSuite == cipherSuite && r.masterSecret == masterSecret
    ensures r.tlsVersion == CreatedVersion && r.lifetime == DefaultLifetime && r.kind == Plain
    ensures now != 0 ==> r.creationTime == now
  {
    NewSession(idBytes, masterSecret, cipherSuite, CreatedVersion, now, now)
  }

  /** `cleanExpiredSessions`: removes exactly the expired sessions and
      returns how many. */
  method CleanExpiredSessions(store: Store, now: int) returns (r: Store, count: nat)
    ensures forall id :: id in store ==> (id in r <==> !Expired(store[id], now))
    ensures r.Keys <= store.Keys && forall id :: id in r ==> r[id] == store[id]
    ensures count == |store.Keys - r.Keys|
  {
    r, count := Sweep(store, s => !Expired(s, now));
  }

  /** `storeSession`: an upsert followed by a full sweep; reports success even
      when the sweep removes the session just stored. */
  method StoreSession(store: Store, s: Session, now: int) returns (ok: bool, r: Store)
    ensures ok
    ensures s.sessionId in r <==> !Expired(s, now)
    ensures s.sessionId in r ==> r[s.sessionId] == s
    ensures forall id :: id in store && id != s.sessionId ==>
              (id in r <==> !Expired(store[id], now)) && (id in r ==> r[id] == store[id])
    ensures forall id :: id in r ==> id in store || id == s.sessionId
  {
    var count;
    r, count := CleanExpiredSessions(store[s.sessionId := s], now);
    ok := true;
  }

  // ---------------------------------------------------------------------------
  // The sweep as written

  /** `cleanExpiredSessions` as written: the `foreach` hands each array key to
      `removeSession(string $sessionId)`, and PHP keeps an integer-like id
      (such as "42") as an integer key, so under strict types the first
      expired session with such an id makes the sweep throw a type error. The
      sweep is otherwise order-independent; the sessions it removed before
      throwing are not part of the error value. */
  method CleanExpiredSessionsAsWritten(store: Store, now: int) returns (r: Result<Store>, count: nat)
    ensures r.Err? <==> exists id :: id in store && Expired(store[id], now) && IntegerKey(id)
    ensures r.Err? ==> r.error == TypeError
    ensures r.Ok? ==> r.value == Retain(store, s => !Expired(s, now)) && count == |store.Keys - r.value.Keys|
  {
    var m := store;
    var todo := store.Keys;
    while todo != {}
      invariant todo <= store.Keys && m.Keys <= store.Keys
      invariant forall k :: k in todo ==> k in m
      invariant forall k :: k in store && k !in todo ==>
                  (k in m <==> !Expired(store[k], now)) && !(Expired(store[k], now) && IntegerKey(k))
      invariant forall k :: k in m ==> m[k] == store[k]
      decreases todo
    {
      var k :| k in todo;
      if Expired(store[k], now) {
        if IntegerKey(k) {
          return Err(TypeError), 0;
        }
        m := m - {k};
      }
      todo := todo - {k};
    }
    assert m == Retain(store, s => !Expired(s, now));
    r, count := Ok(m), |store.Keys - m.Keys|;
  }

  /** `storeSession` as written: the upsert, then the sweep that can throw. */
  method StoreSessionAsWritten(store: Store, s: Session, now: int) returns (r: Result<Store>)
    ensures var m := store[s.sessionId := s];
            r.Err? <==> exists id :: id in m && Expired(m[id], now) && IntegerKey(id)
    ensures r.Err? ==> r.error == TypeError
    ensures r.Ok? ==> r.value == Retain(store[s.sessionId := s], x => !Expired(x, now))
  {
    var count;
    r, count := CleanExpiredSessionsAsWritten(store[s.sessionId := s], now);
  }

  /** The finding on one input: once a session stored under the id "42" has
      expired, storing any other session throws, while the corrected store
      drops the expired session and keeps the new one when it is fresh. */
  method IntegerIdBreaksStore(s: Session, other: Session, now: int) returns (asWritten: Result<Store>, corrected: Store)
    requires s.sessionId == Ascii("42") && Expired(s, now) && other.sessionId != s.sessionId
    ensures asWritten == Err(TypeError)
    ensures s.sessionId !in corrected
    ensures other.sessionId in corrected <==> !Expired(other, now)
  {
    IntegerKeyExamples();
    var store := map[s.sessionId := s];
    asWritten := StoreSessionAsWritten(store, other, now);
    var m := store[other.sessionId := other];
    assert s.sessionId in m && Expired(m[s.sessionId], now) && IntegerKey(s.sessionId);
    var ok;
    ok, corrected := StoreSession(store, other, now);
  }

  /** `getSession` (and `getSessionById`, which delegates to it): the stored
      session unless absent or expired; an expired one is removed. */
  function GetSession(store: Store, id: Bytes, now: int): (r: (Option<Session>, Store))
    ensures r.0.Some? <==> id in store && !Expired(store[id], now)
    ensures r.0.Some? ==> r.0.value == store[id] && r.1 == store
    ensures r.0.None? ==> r.1 == store - {id}
  {
    if id !in store then (None, store)
    else if Expired(store[id], now) then (None, RemoveSession(store, id).1)
    else (Some(store[id]), store)
  }

  /** `removeSession`: true exactly when the id was present; afterwards it is absent. */
  function RemoveSession(store: Store, id: Bytes): (r: (bool, Store))
    ensures r.0 <==> id in store
    ensures r.1.Keys == store.Keys - {id}
    ensures forall k :: k in r.1 ==> r.1[k] == store[k]
  {
    if id in store then (true, store - {id}) else (false, store)
  }

  /** `clearAllSessions`: afterwards no id is found. */
  function ClearAllSessions(store: Store): (r: Store)
    ensures forall id, now :: GetSession(r, id, now).0 == None
  {
    map[]
  }

  /** Storing an unexpired session and then looking it up at the same instant finds it. */
  method StoreThenGet(store: Store, s: Session, now: int) returns (found: Option<Session>)
    requires !Expired(s, now)
    ensures found == Some(s)
  {
    var ok, r := StoreSession(store, s, now);
    found := GetSession(r, s.sessionId, now).0;
  }

  /** After any store no session in the map is expired at that instant. */
  method StoreLeavesNoExpired(store: Store, s: Session, now: int) returns (r: Store)
    ensures forall id :: id in r ==> !Expired(r[id], now)
  {
    var ok;
    ok, r := StoreSession(store, s, now);
  }

  /** The two stores disagree at the boundary: a default-lifetime session is
      no longer valid for the in-memory store exactly one hour after creation,
      while this manager still serves it until a second later. */
  lemma ExpiryPoliciesDiffer(s: Session, now: int)
    requires s.lifetime == DefaultLifetime && now == s.creationTime + SessionLifetime && now != 0
    ensures !IsValid(s, now, now) && !Expired(s, now)
    ensures Expired(s, now + 1)
  {
  }

  /** This manager ignores the session's lifetime: a session made to last a
      day still expires after the fixed hour. */
  lemma LifetimeIgnored(s: Session, now: int)
    requires now == s.creationTime + SessionLifetime + 1 && now != 0
    requires s.lifetime > SessionLifetime + 1
    ensures IsValid(s, now, now) && Expired(s, now)
  {
  }
}
