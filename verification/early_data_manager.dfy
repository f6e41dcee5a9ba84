/** `EarlyDataManager`: 0-RTT data held under random ids and released at most
    once, to the PSK identity it was stored for, within a fixed hour of the
    session's creation (the replay concern of section 8 of RFC 8446). */
module EarlyData {
  import opened Common
  import opened TlsSession
  import opened Tls13PskSession

  /** The fixed lifetime this manager applies, in seconds. */
  const SessionLifetime: int := 3600

  datatype EarlyRecord = EarlyRecord(data: Bytes, pskIdentity: Bytes, timestamp: int)

  /** The data map and the list of consumed ids, in consumption order. */
  datatype Manager = Manager(earlyData: map<Bytes, EarlyRecord>, used: seq<Bytes>)

  function Empty(): (r: Manager)
    ensures r.earlyData == map[] && r.used == []
  {
    Manager(map[], [])
  }

  /** `isSessionExpired`: strictly later than creation plus the fixed hour;
      the session's own lifetime is not consulted. */
  predicate SessionExpired(s: Session, now: int)
  {
    now > s.creationTime + SessionLifetime
  }

  /** `storeEarlyData`: refuses data longer than the session's limit (the
      allowed flag is not looked at); otherwise files it, with the session's
      identity and the current time, under the hex rendering of fresh bytes. */
  function StoreEarlyData(m: Manager, session: Session, data: Bytes, idBytes: Bytes, now: int)
    : (r: Result<(Bytes, Manager)>)
    requires IsPsk(session)
    ensures r.Err? <==> |data| > session.kind.maxEarlyDataSize
    ensures r.Err? ==> r.error == InvalidArgument
    ensures r.Ok? ==> r.value.0 == Hex(idBytes)
    ensures r.Ok? && |idBytes| == 16 ==> |r.value.0| == 32
    ensures r.Ok? ==> r.value.1.used == m.used
    ensures r.Ok? ==> r.value.1.earlyData == m.earlyData[r.value.0 := EarlyRecord(data, session.kind.pskIdentity, now)]
  {
    if |data| > session.kind.maxEarlyDataSize then Err(InvalidArgument)
    else
      var id := Hex(idBytes);
      Ok((id, m.(earlyData := m.earlyData[id := EarlyRecord(data, session.kind.pskIdentity, now)])))
  }

  /** Why `getAndValidateEarlyData` would decline, checked in its order. */
  predicate Declines(m: Manager, session: Session, id: Bytes, now: int)
    requires IsPsk(session)
  {
    || id !in m.earlyData
    || id in m.used
    || m.earlyData[id].pskIdentity != session.kind.pskIdentity
    || SessionExpired(session, now)
  }

  /** `getAndValidateEarlyData`: the stored data, once, for the identity it
      was stored for while the session is within its hour; a success marks
      the id used and a refusal changes nothing. The data map never shrinks. */
  function GetAndValidateEarlyData(m: Manager, session: Session, id: Bytes, now: int)
    : (r: (Option<Bytes>, Manager))
    requires IsPsk(session)
    ensures r.0.None? <==> Declines(m, session, id, now)
    ensures r.0.None? ==> r.1 == m
    ensures r.0.Some? ==> r.0.value == m.earlyData[id].data && r.1 == m.(used := m.used + [id])
  {
    if id !in m.earlyData then (None, m)
    else if id in m.used then (None, m)
    else
      var info := m.earlyData[id];
      if info.pskIdentity != session.kind.pskIdentity then (None, m)
      else if SessionExpired(session, now) then (None, m)
      else (Some(info.data), m.(used := m.used + [id]))
  }

  /** `clearAllEarlyData`: both the data map and the used list are emptied. */
  function ClearAllEarlyData(m: Manager): (r: Manager)
    ensures r.earlyData == map[] && r.used == []
    ensures forall s, id, now | IsPsk(s) :: GetAndValidateEarlyData(r, s, id, now).0 == None
  {
    Empty()
  }

  /** Stored data is released to the identity it was stored for, while the
      session is within its hour, provided the id was not consumed before. */
  lemma StoreThenGet(m: Manager, session: Session, data: Bytes, idBytes: Bytes, now: int, later: int)
    requires IsPsk(session) && |data| <= session.kind.maxEarlyDataSize
    requires Hex(idBytes) !in m.used && later <= session.creationTime + SessionLifetime
    ensures var (id, m1) := StoreEarlyData(m, session, data, idBytes, now).value;
            GetAndValidateEarlyData(m1, session, id, later) == (Some(data), m1.(used := m1.used + [id]))
  {
  }

  /** Replaying a delivered id is refused. */
  lemma SecondRetrievalRefused(m: Manager, session: Session, other: Session, id: Bytes, now: int, later: int)
    requires IsPsk(session) && IsPsk(other)
    requires GetAndValidateEarlyData(m, session, id, now).0.Some?
    ensures var m1 := GetAndValidateEarlyData(m, session, id, now).1;
            GetAndValidateEarlyData(m1, other, id, later) == (None, m1)
  {
  }

  /** One call on the manager, with the values the source draws and reads. */
  datatype Op =
    | Store(session: Session, data: Bytes, idBytes: Bytes, now: int)
    | Retrieve(session: Session, id: Bytes, now: int)
    | Clear

  predicate WellTyped(ops: seq<Op>)
  {
    forall i :: 0 <= i < |ops| && !ops[i].Clear? ==> IsPsk(ops[i].session)
  }

  predicate NoClear(ops: seq<Op>)
  {
    forall i :: 0 <= i < |ops| ==> !ops[i].Clear?
  }

  /** The ids successful retrievals released, in order, and the final state.
      A store that is refused leaves the state unchanged. */
  function Run(m: Manager, ops: seq<Op>): (r: (seq<Bytes>, Manager))
    requires WellTyped(ops)
    decreases |ops|
  {
    if ops == [] then ([], m)
    else
      var op := ops[0];
      assert WellTyped(ops[1..]) by {
        forall i | 0 <= i < |ops[1..]| && !ops[1..][i].Clear? ensures IsPsk(ops[1..][i].session) {
          assert ops[1..][i] == ops[i + 1];
        }
      }
      match op
      case Store(s, data, idBytes, now) =>
        var res := StoreEarlyData(m, s, data, idBytes, now);
        Run(if res.Ok? then res.value.1 else m, ops[1..])
      case Retrieve(s, id, now) =>
        var (out, m1) := GetAndValidateEarlyData(m, s, id, now);
        var (ids, m2) := Run(m1, ops[1..]);
        (if out.Some? then [id] + ids else ids, m2)
      case Clear =>
        Run(Empty(), ops[1..])
  }

  predicate Distinct(s: seq<Bytes>)
  {
    forall i, j :: 0 <= i < j < |s| ==> s[i] != s[j]
  }

  /** At-most-once delivery: along any sequence of calls without a clear, no
      id is released twice, none already consumed at the start is released,
      and every released id ends up in the used list. */
  lemma {:induction false} AtMostOnce(m: Manager, ops: seq<Op>)
    requires WellTyped(ops) && NoClear(ops)
    ensures Distinct(Run(m, ops).0)
    ensures forall i :: 0 <= i < |Run(m, ops).0| ==> Run(m, ops).0[i] !in m.used
    ensures forall i :: 0 <= i < |Run(m, ops).0| ==> Run(m, ops).0[i] in Run(m, ops).1.used
    ensures forall x :: x in m.used ==> x in Run(m, ops).1.used
    decreases |ops|
  {
    if ops != [] {
      var rest := ops[1..];
      assert WellTyped(rest) && NoClear(rest) by {
        forall i | 0 <= i < |rest| ensures rest[i] == ops[i + 1] { }
      }
      assert !ops[0].Clear?;
      match ops[0]
      case Store(s, data, idBytes, now) =>
        var res := StoreEarlyData(m, s, data, idBytes, now);
        AtMostOnce(if res.Ok? then res.value.1 else m, rest);
      case Retrieve(s, id, now) =>
        var (out, m1) := GetAndValidateEarlyData(m, s, id, now);
        AtMostOnce(m1, rest);
        var (ids, m2) := Run(m1, rest);
        if out.Some? {
          assert id in m1.used && id !in m.used;
          assert Run(m, ops).0 == [id] + ids;
          forall i | 0 <= i < |ids| ensures ids[i] != id { }
        }
    }
  }

  /** A clear forgets the used list, so an id released before it can be
      released again once the same id is stored anew. */
  lemma ClearForgetsConsumption(m: Manager, session: Session, data: Bytes, idBytes: Bytes, now: int)
    requires IsPsk(session) && |data| <= session.kind.maxEarlyDataSize
    requires now <= session.creationTime + SessionLifetime && Hex(idBytes) !in m.used
    ensures var id := Hex(idBytes);
            var ops := [Store(session, data, idBytes, now), Retrieve(session, id, now), Clear,
                        Store(session, data, idBytes, now), Retrieve(session, id, now)];
            WellTyped(ops) && Run(m, ops).0 == [id, id]
  {
    var id := Hex(idBytes);
    var ops := [Store(session, data, idBytes, now), Retrieve(session, id, now), Clear,
                Store(session, data, idBytes, now), Retrieve(session, id, now)];
    assert WellTyped(ops);
    var e := StoreEarlyData(Empty(), session, data, idBytes, now).value.1;
    assert Run(e, ops[4..]).0 == [id];
    assert Run(Empty(), ops[3..]).0 == [id];
    assert Run(Empty(), ops[3..]) == Run(m, ops[2..]) by {
      assert ops[2..][1..] == ops[3..];
    }
    var m1 := StoreEarlyData(m, session, data, idBytes, now).value.1;
    assert Run(m1, ops[1..]).0 == [id] + Run(m1.(used := m1.used + [id]), ops[2..]).0 by {
      assert ops[1..][1..] == ops[2..];
    }
    assert ops[1..] == ops[..][1..];
  }
}
