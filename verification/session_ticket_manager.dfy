/** `SessionTicketManager`: the ring of ticket keys, its rotation, and ticket
    creation and decryption as an encrypt-then-MAC pipeline. */
module TicketManager {
  import opened Common
  import opened TlsSession
  import opened SessionTicket
  import opened Primitives

  /** The version a session rebuilt from a ticket carries (TLS 1.2). */
  const TicketSessionVersion: int := 0x0303

  datatype TicketKey = TicketKey(name: Bytes, encryptionKey: Bytes, hmacKey: Bytes, createdAt: int)

  /** The key ring in PHP array order, and the name of the active key. The
      active name may dangle (name no key in the ring). */
  datatype Ring = Ring(keys: seq<TicketKey>, activeName: Bytes)

  /** The random draws of one `generateNewKey` call: 8 bytes rendered as the
      hex name, a 32-byte encryption key and a 32-byte HMAC key. */
  datatype KeyDraw = KeyDraw(nameBytes: Bytes, encryptionKey: Bytes, hmacKey: Bytes)

  /** `random_bytes(8)`: the length of a drawn key name before `bin2hex`. */
  const NameDrawLength: nat := 8

  /** Every key is filed under a name of the 16 characters `bin2hex` makes of
      a drawn name. */
  predicate KeyNamesSized(keys: seq<TicketKey>)
  {
    forall x :: x in keys ==> |x.name| == KeyNameLength
  }

  /** The ring as the manager keeps it: drawn-length key names, and an active
      name of that length too (even when it dangles). */
  predicate NameLengths(ring: Ring)
  {
    |ring.activeName| == KeyNameLength && KeyNamesSized(ring.keys)
  }

  // ---------------------------------------------------------------------------
  // The ring as an ordered map from names to keys

  function Names(keys: seq<TicketKey>): set<Bytes>
  {
    if |keys| == 0 then {} else {keys[0].name} + Names(keys[1..])
  }

  lemma {:induction false} NamesMembership(keys: seq<TicketKey>, n: Bytes)
    ensures n in Names(keys) <==> exists i :: 0 <= i < |keys| && keys[i].name == n
  {
    if |keys| != 0 {
      NamesMembership(keys[1..], n);
      if n in Names(keys[1..]) {
        var i :| 0 <= i < |keys[1..]| && keys[1..][i].name == n;
        assert keys[i + 1].name == n;
      }
      forall i | 1 <= i < |keys| && keys[i].name == n ensures n in Names(keys[1..]) {
        assert keys[1..][i - 1].name == n;
      }
    }
  }

  /** No two keys of the ring share a name (PHP array keys are unique). */
  predicate Distinct(keys: seq<TicketKey>)
  {
    |keys| == 0 || (keys[0].name !in Names(keys[1..]) && Distinct(keys[1..]))
  }

  /** The key stored under `name`, if any. */
  function Lookup(keys: seq<TicketKey>, name: Bytes): (r: Option<TicketKey>)
    ensures r.None? <==> name !in Names(keys)
    ensures r.Some? ==> r.value.name == name && r.value in keys
  {
    if |keys| == 0 then None
    else if keys[0].name == name then Some(keys[0])
    else Lookup(keys[1..], name)
  }

  /** `$keys[$name] = $key`: an existing entry is overwritten where it stands,
      a new one is appended. */
  function Upsert(keys: seq<TicketKey>, k: TicketKey): (r: seq<TicketKey>)
    requires Distinct(keys)
    ensures Distinct(r) && Names(r) == Names(keys) + {k.name}
    ensures |r| == if k.name in Names(keys) then |keys| else |keys| + 1
    ensures Lookup(r, k.name) == Some(k)
    ensures forall n :: n != k.name ==> Lookup(r, n) == Lookup(keys, n)
    ensures forall x :: x in r ==> x in keys || x == k
    ensures k.name in Names(keys) ==>
              forall i :: 0 <= i < |keys| ==> r[i] == (if keys[i].name == k.name then k else keys[i])
    ensures k.name !in Names(keys) ==> r == keys + [k]
  {
    if k.name in Names(keys) then
      ReplaceNamedFacts(keys, k);
      ReplaceNamed(keys, k)
    else
      AppendFacts(keys, k);
      keys + [k]
  }

  /** The ring with every entry named like `k` overwritten by `k`, positions kept. */
  function ReplaceNamed(keys: seq<TicketKey>, k: TicketKey): (r: seq<TicketKey>)
    ensures |r| == |keys|
    ensures forall i :: 0 <= i < |keys| ==> r[i] == (if keys[i].name == k.name then k else keys[i])
  {
    if |keys| == 0 then []
    else
      var rest := ReplaceNamed(keys[1..], k);
      var r := [if keys[0].name == k.name then k else keys[0]] + rest;
      assert forall i :: 1 <= i < |keys| ==> r[i] == rest[i - 1] && keys[1..][i - 1] == keys[i];
      r
  }

  /** Overwriting a held name keeps the names unique and the other lookups. */
  lemma ReplaceNamedFacts(keys: seq<TicketKey>, k: TicketKey)
    requires Distinct(keys) && k.name in Names(keys)
    ensures var r := ReplaceNamed(keys, k);
            && Distinct(r) && Names(r) == Names(keys)
            && Lookup(r, k.name) == Some(k)
            && (forall n :: n != k.name ==> Lookup(r, n) == Lookup(keys, n))
            && (forall x :: x in r ==> x in keys || x == k)
  {
    ReplaceNamedNames(keys, k);
    ReplaceNamedLookups(keys, k);
    var r := ReplaceNamed(keys, k);
    forall x | x in r ensures x in keys || x == k {
      var i :| 0 <= i < |r| && r[i] == x;
    }
  }

  lemma {:induction false} ReplaceNamedNames(keys: seq<TicketKey>, k: TicketKey)
    requires Distinct(keys)
    ensures Names(ReplaceNamed(keys, k)) == Names(keys) && Distinct(ReplaceNamed(keys, k))
  {
    if |keys| != 0 {
      var r := ReplaceNamed(keys, k);
      assert r[1..] == ReplaceNamed(keys[1..], k);
      ReplaceNamedNames(keys[1..], k);
    }
  }

  lemma {:induction false} ReplaceNamedLookups(keys: seq<TicketKey>, k: TicketKey)
    requires k.name in Names(keys)
    ensures Lookup(ReplaceNamed(keys, k), k.name) == Some(k)
    ensures forall n :: n != k.name ==> Lookup(ReplaceNamed(keys, k), n) == Lookup(keys, n)
  {
    var r := ReplaceNamed(keys, k);
    assert r[1..] == ReplaceNamed(keys[1..], k);
    if keys[0].name != k.name {
      ReplaceNamedLookups(keys[1..], k);
    } else if k.name in Names(keys[1..]) {
      ReplaceNamedLookups(keys[1..], k);
    } else {
      ReplaceAbsent(keys[1..], k);
    }
  }

  /** Appending a new name keeps the names unique and the other lookups. */
  lemma {:induction false} AppendFacts(keys: seq<TicketKey>, k: TicketKey)
    requires Distinct(keys) && k.name !in Names(keys)
    ensures var r := keys + [k];
            && Distinct(r) && Names(r) == Names(keys) + {k.name}
            && Lookup(r, k.name) == Some(k)
            && (forall n :: n != k.name ==> Lookup(r, n) == Lookup(keys, n))
  {
    if |keys| != 0 {
      assert (keys + [k])[1..] == keys[1..] + [k];
      AppendFacts(keys[1..], k);
    }
  }

  /** Overwriting a name the ring does not hold changes nothing. */
  lemma {:induction false} ReplaceAbsent(keys: seq<TicketKey>, k: TicketKey)
    requires k.name !in Names(keys)
    ensures ReplaceNamed(keys, k) == keys
  {
    if |keys| != 0 {
      ReplaceAbsent(keys[1..], k);
      assert keys == [keys[0]] + keys[1..];
    }
  }

  // ---------------------------------------------------------------------------
  // Key lifecycle

  /** `generateNewKey`: stores a key under the hex rendering of the drawn name,
      makes it active and returns its name; every other entry is unchanged. */
  function GenerateNewKey(ring: Ring, draw: KeyDraw, now: int): (r: (Ring, Bytes))
    requires Distinct(ring.keys) && |draw.nameBytes| == NameDrawLength
    ensures r.1 == Hex(draw.nameBytes) && |r.1| == KeyNameLength
    ensures KeyNamesSized(ring.keys) ==> NameLengths(r.0)
    ensures r.0.activeName == r.1 && Distinct(r.0.keys)
    ensures Lookup(r.0.keys, r.1) == Some(TicketKey(r.1, draw.encryptionKey, draw.hmacKey, now))
    ensures forall n :: n != r.1 ==> Lookup(r.0.keys, n) == Lookup(ring.keys, n)
    ensures |r.0.keys| == if r.1 in Names(ring.keys) then |ring.keys| else |ring.keys| + 1
    ensures forall x :: x in r.0.keys ==> x in ring.keys || x == TicketKey(r.1, draw.encryptionKey, draw.hmacKey, now)
  {
    var name := Hex(draw.nameBytes);
    var k := TicketKey(name, draw.encryptionKey, draw.hmacKey, now);
    (Ring(Upsert(ring.keys, k), name), name)
  }

  /** The constructor: a ring holding one key, which is active. */
  function NewManager(draw: KeyDraw, now: int): (r: Ring)
    requires |draw.nameBytes| == NameDrawLength
    ensures |r.keys| == 1 && Distinct(r.keys) && NameLengths(r)
    ensures r.keys[0] == TicketKey(Hex(draw.nameBytes), draw.encryptionKey, draw.hmacKey, now)
    ensures r.activeName == Hex(draw.nameBytes)
  {
    GenerateNewKey(Ring([], []), draw, now).0
  }

  /** `getActiveKey`: the key the active name designates, absent exactly when the name dangles. */
  function ActiveKey(ring: Ring): (r: Option<TicketKey>)
    ensures r.None? <==> ring.activeName !in Names(ring.keys)
    ensures r.Some? ==> r.value.name == ring.activeName && r.value in ring.keys
  {
    Lookup(ring.keys, ring.activeName)
  }

  /** `getKeyByName`. */
  function KeyByName(ring: Ring, name: Bytes): (r: Option<TicketKey>)
    ensures r.None? <==> name !in Names(ring.keys)
    ensures r.Some? ==> r.value.name == name && r.value in ring.keys
  {
    Lookup(ring.keys, name)
  }

  // ---------------------------------------------------------------------------
  // Rotation: `uasort` by `created_at` descending (stable), then `array_slice`

  /** Places `x` in front of the first key that is not newer than it, so that
      among equally old keys `x` keeps its place ahead of those after it. */
  function Insert(x: TicketKey, s: seq<TicketKey>): (r: seq<TicketKey>)
    ensures |r| == |s| + 1
  {
    if |s| == 0 then [x]
    else if s[0].createdAt <= x.createdAt then [x] + s
    else [s[0]] + Insert(x, s[1..])
  }

  /** Insertion sort by creation time, newest first. */
  function SortNewestFirst(s: seq<TicketKey>): (r: seq<TicketKey>)
    ensures |r| == |s|
  {
    if |s| == 0 then [] else Insert(s[0], SortNewestFirst(s[1..]))
  }

  predicate NewestFirst(s: seq<TicketKey>)
  {
    forall i, j :: 0 <= i < j < |s| ==> s[i].createdAt >= s[j].createdAt
  }

  /** The keys created at instant `t`, in their order in `s`. */
  function CreatedAt(s: seq<TicketKey>, t: int): seq<TicketKey>
  {
    if |s| == 0 then []
    else (if s[0].createdAt == t then [s[0]] else []) + CreatedAt(s[1..], t)
  }

  lemma {:induction false} InsertPermutes(x: TicketKey, s: seq<TicketKey>)
    ensures multiset(Insert(x, s)) == multiset{x} + multiset(s)
    ensures Names(Insert(x, s)) == {x.name} + Names(s)
  {
    if |s| != 0 && s[0].createdAt > x.createdAt {
      InsertPermutes(x, s[1..]);
      var r := [s[0]] + Insert(x, s[1..]);
      assert r[1..] == Insert(x, s[1..]);
      assert s == [s[0]] + s[1..];
    } else if |s| != 0 {
      assert ([x] + s)[1..] == s;
    }
  }

  lemma {:induction false} InsertMembers(x: TicketKey, s: seq<TicketKey>, y: TicketKey)
    requires y in Insert(x, s)
    ensures y == x || y in s
  {
    if |s| != 0 && s[0].createdAt > x.createdAt && y != s[0] {
      InsertMembers(x, s[1..], y);
    }
  }

  lemma {:induction false} InsertKeepsOrder(x: TicketKey, s: seq<TicketKey>)
    requires NewestFirst(s)
    ensures NewestFirst(Insert(x, s))
  {
    if |s| == 0 {
    } else if s[0].createdAt <= x.createdAt {
      var r := [x] + s;
      forall i, j | 0 <= i < j < |r| ensures r[i].createdAt >= r[j].createdAt {
        assert r[j] == s[j - 1];
        if i > 0 {
          assert r[i] == s[i - 1];
        }
      }
    } else {
      var tail := s[1..];
      assert NewestFirst(tail) by {
        forall i, j | 0 <= i < j < |tail| ensures tail[i].createdAt >= tail[j].createdAt {
          assert tail[i] == s[i + 1] && tail[j] == s[j + 1];
        }
      }
      InsertKeepsOrder(x, tail);
      var rest := Insert(x, tail);
      var r := [s[0]] + rest;
      forall j | 0 <= j < |rest| ensures s[0].createdAt >= rest[j].createdAt {
        InsertMembers(x, tail, rest[j]);
        if rest[j] != x {
          var k :| 0 <= k < |tail| && tail[k] == rest[j];
          assert s[k + 1] == rest[j];
        }
      }
      forall i, j | 0 <= i < j < |r| ensures r[i].createdAt >= r[j].createdAt {
        assert r[j] == rest[j - 1];
        if i > 0 {
          assert r[i] == rest[i - 1];
        }
      }
    }
  }

  /** `CreatedAt` of a list with a key in front. */
  lemma CreatedAtCons(a: TicketKey, rest: seq<TicketKey>, t: int)
    ensures CreatedAt([a] + rest, t) == (if a.createdAt == t then [a] else []) + CreatedAt(rest, t)
  {
    assert ([a] + rest)[0] == a && ([a] + rest)[1..] == rest;
  }

  lemma {:induction false} InsertKeepsTies(x: TicketKey, s: seq<TicketKey>, t: int)
    ensures CreatedAt(Insert(x, s), t) == (if x.createdAt == t then [x] else []) + CreatedAt(s, t)
  {
    if |s| == 0 {
    } else if s[0].createdAt <= x.createdAt {
      CreatedAtCons(x, s, t);
    } else {
      InsertKeepsTies(x, s[1..], t);
      var rest := Insert(x, s[1..]);
      var head := if s[0].createdAt == t then [s[0]] else [];
      var mine := if x.createdAt == t then [x] else [];
      assert Insert(x, s) == [s[0]] + rest;
      CreatedAtCons(s[0], rest, t);
      assert s == [s[0]] + s[1..];
      CreatedAtCons(s[0], s[1..], t);
      assert CreatedAt(rest, t) == mine + CreatedAt(s[1..], t);
      assert head == [] || mine == [];
      assert head + (mine + CreatedAt(s[1..], t)) == mine + (head + CreatedAt(s[1..], t));
    }
  }

  lemma {:induction false} InsertKeepsDistinct(x: TicketKey, s: seq<TicketKey>)
    requires Distinct(s) && x.name !in Names(s)
    ensures Distinct(Insert(x, s))
  {
    if |s| == 0 {
    } else if s[0].createdAt <= x.createdAt {
      assert ([x] + s)[1..] == s;
    } else {
      InsertKeepsDistinct(x, s[1..]);
      InsertPermutes(x, s[1..]);
      var rest := Insert(x, s[1..]);
      assert ([s[0]] + rest)[1..] == rest;
    }
  }

  /** The sort is a stable sort: newest first, a permutation, and equally old
      keys keep their relative order. */
  lemma {:induction false} SortFacts(s: seq<TicketKey>)
    ensures NewestFirst(SortNewestFirst(s))
    ensures multiset(SortNewestFirst(s)) == multiset(s)
    ensures forall t :: CreatedAt(SortNewestFirst(s), t) == CreatedAt(s, t)
    ensures Names(SortNewestFirst(s)) == Names(s)
    ensures Distinct(s) ==> Distinct(SortNewestFirst(s))
  {
    if |s| != 0 {
      var rest := SortNewestFirst(s[1..]);
      SortFacts(s[1..]);
      InsertPermutes(s[0], rest);
      InsertKeepsOrder(s[0], rest);
      assert s == [s[0]] + s[1..];
      forall t ensures CreatedAt(SortNewestFirst(s), t) == CreatedAt(s, t) {
        InsertKeepsTies(s[0], rest, t);
        assert CreatedAt(s, t) == (if s[0].createdAt == t then [s[0]] else []) + CreatedAt(s[1..], t);
      }
      if Distinct(s) {
        InsertKeepsDistinct(s[0], rest);
      }
    }
  }

  lemma {:induction false} PrefixFacts(s: seq<TicketKey>, c: int)
    requires 0 <= c <= |s|
    ensures Names(s[..c]) <= Names(s)
    ensures Distinct(s) ==> Distinct(s[..c])
    decreases c
  {
    if c > 0 {
      assert s[..c][1..] == s[1..][..c - 1];
      PrefixFacts(s[1..], c - 1);
    }
  }

  /** The first `c` keys of the sorted ring: distinct, drawn from the ring, and
      none older than a key left out. */
  lemma KeptPrefixFacts(keys: seq<TicketKey>, c: int)
    requires Distinct(keys) && 0 <= c <= |keys|
    ensures var kept := SortNewestFirst(keys)[..c];
            && |kept| == c && Distinct(kept)
            && (forall x :: x in kept ==> x in keys)
            && (forall k, d :: k in kept && d in keys && d !in kept ==> k.createdAt >= d.createdAt)
  {
    var sorted := SortNewestFirst(keys);
    SortFacts(keys);
    assert |sorted| == |keys| by {
      assert |multiset(sorted)| == |multiset(keys)|;
    }
    var kept := sorted[..c];
    PrefixFacts(sorted, c);
    forall x | x in kept ensures x in keys {
      assert x in multiset(sorted);
    }
    forall d | d in keys ensures d in sorted {
      assert d in multiset(sorted);
    }
    SortedPrefixIsNewest(sorted, c);
  }

  /** In a newest-first list, no key of a prefix is older than a key after it. */
  lemma SortedPrefixIsNewest(sorted: seq<TicketKey>, c: int)
    requires NewestFirst(sorted) && 0 <= c <= |sorted|
    ensures forall k, d :: k in sorted[..c] && d in sorted && d !in sorted[..c] ==> k.createdAt >= d.createdAt
  {
    var kept := sorted[..c];
    assert forall j :: 0 <= j < c ==> sorted[j] == kept[j] && sorted[j] in kept;
    forall k, d | k in kept && d in sorted && d !in kept ensures k.createdAt >= d.createdAt {
      var i :| 0 <= i < c && kept[i] == k;
      var j :| 0 <= j < |sorted| && sorted[j] == d;
      assert j >= c;
      assert sorted[i] == k;
    }
  }

  /** How many entries `array_slice($list, 0, $maxKeys)` keeps of a list of
      `n`: a negative length stops that many entries before the end. */
  function SliceCount(n: nat, maxKeys: int): (c: nat)
    ensures c <= n
    ensures maxKeys >= 0 ==> c == if maxKeys < n then maxKeys else n
    ensures maxKeys < 0 ==> c == if n + maxKeys > 0 then n + maxKeys else 0
  {
    if maxKeys >= 0 then (if maxKeys < n then maxKeys else n)
    else if n + maxKeys > 0 then n + maxKeys else 0
  }

  /** `rotateKeys`: generates a key, keeps the first `maxKeys` keys of the ring
      stably sorted newest first, and re-points a dropped active name at the
      first kept key. Returns the ring and its active name. */
  function RotateKeys(ring: Ring, draw: KeyDraw, now: int, maxKeys: int): (r: (Ring, Bytes))
    requires Distinct(ring.keys) && |draw.nameBytes| == NameDrawLength
    ensures KeyNamesSized(ring.keys) ==> NameLengths(r.0)
    ensures var g := GenerateNewKey(ring, draw, now).0;
            && r.0.keys == SortNewestFirst(g.keys)[..SliceCount(|g.keys|, maxKeys)]
            && |r.0.keys| == SliceCount(|g.keys|, maxKeys)
            && (forall k, d :: k in r.0.keys && d in g.keys && d !in r.0.keys ==> k.createdAt >= d.createdAt)
    ensures Distinct(r.0.keys) && r.1 == r.0.activeName
    ensures Hex(draw.nameBytes) !in Names(ring.keys) && maxKeys >= 0 ==>
              |r.0.keys| == if maxKeys < |ring.keys| + 1 then maxKeys else |ring.keys| + 1
    ensures |r.0.keys| > 0 ==> r.1 in Names(r.0.keys)
    ensures Hex(draw.nameBytes) in Names(r.0.keys) ==> r.1 == Hex(draw.nameBytes)
    ensures Hex(draw.nameBytes) !in Names(r.0.keys) && |r.0.keys| > 0 ==> r.1 == r.0.keys[0].name
    ensures maxKeys == 0 ==> r.0.keys == [] && r.1 == Hex(draw.nameBytes) && ActiveKey(r.0).None?
    ensures forall x :: x in r.0.keys ==>
              x in ring.keys || x == TicketKey(Hex(draw.nameBytes), draw.encryptionKey, draw.hmacKey, now)
  {
    var (g, _) := GenerateNewKey(ring, draw, now);
    var c := SliceCount(|g.keys|, maxKeys);
    KeptPrefixFacts(g.keys, c);
    var kept := SortNewestFirst(g.keys)[..c];
    var active := if g.activeName in Names(kept) then g.activeName
                  else if |kept| > 0 then kept[0].name else g.activeName;
    (Ring(kept, active), active)
  }

  /** Keys all created in the same second are left in insertion order. */
  lemma {:induction false} SameSecondSortIsIdentity(s: seq<TicketKey>, t: int)
    requires forall i :: 0 <= i < |s| ==> s[i].createdAt == t
    ensures SortNewestFirst(s) == s
  {
    if |s| != 0 {
      SameSecondSortIsIdentity(s[1..], t);
      assert s == [s[0]] + s[1..];
    }
  }

  /** Rotating a ring whose keys, like the new one, all date from the current
      second keeps the oldest-inserted keys: the new key itself is dropped
      and the active name moves to the first key of the ring. */
  lemma SameSecondRotation(ring: Ring, draw: KeyDraw, now: int, maxKeys: int)
    requires Distinct(ring.keys) && |draw.nameBytes| == NameDrawLength && Hex(draw.nameBytes) !in Names(ring.keys)
    requires forall i :: 0 <= i < |ring.keys| ==> ring.keys[i].createdAt == now
    requires 0 < maxKeys <= |ring.keys|
    ensures RotateKeys(ring, draw, now, maxKeys).0.keys == ring.keys[..maxKeys]
    ensures RotateKeys(ring, draw, now, maxKeys).1 == ring.keys[0].name
    ensures Hex(draw.nameBytes) !in Names(RotateKeys(ring, draw, now, maxKeys).0.keys)
  {
    var k := TicketKey(Hex(draw.nameBytes), draw.encryptionKey, draw.hmacKey, now);
    var all := ring.keys + [k];
    SameSecondSortIsIdentity(all, now);
    assert SliceCount(|all|, maxKeys) == maxKeys;
    assert all[..maxKeys] == ring.keys[..maxKeys];
    PrefixFacts(ring.keys, maxKeys);
  }

  /** `rotateKeys` as written: the re-pointing branch takes its name from
      `array_keys`, which yields an integer for an integer-like key name, and
      assigns it to the `string` property `$activeKeyName`; under strict types
      that throws a type error. Every other rotation agrees with `RotateKeys`. */
  function RotateKeysAsWritten(ring: Ring, draw: KeyDraw, now: int, maxKeys: int): (r: Result<(Ring, Bytes)>)
    requires Distinct(ring.keys) && |draw.nameBytes| == NameDrawLength
    ensures r.Ok? ==> r.value == RotateKeys(ring, draw, now, maxKeys)
    ensures var kept := RotateKeys(ring, draw, now, maxKeys).0.keys;
            r.Err? <==> Hex(draw.nameBytes) !in Names(kept) && |kept| > 0 && IntegerKey(kept[0].name)
    ensures r.Err? ==> r.error == TypeError
  {
    var (g, _) := GenerateNewKey(ring, draw, now);
    var kept := SortNewestFirst(g.keys)[..SliceCount(|g.keys|, maxKeys)];
    if g.activeName in Names(kept) then Ok((Ring(kept, g.activeName), g.activeName))
    else if |kept| == 0 then Ok((Ring(kept, g.activeName), g.activeName))
    else if IntegerKey(kept[0].name) then Err(TypeError)
    else Ok((Ring(kept, kept[0].name), kept[0].name))
  }

  /** Integer-like names do come out of `generateNewKey`: the eight random
      bytes 12 34 56 78 12 34 56 78 give the name "1234567812345678". */
  lemma GeneratedNameCanBeIntegerKey(ring: Ring, e: Bytes, h: Bytes, now: int)
    requires Distinct(ring.keys)
    ensures IntegerKey(GenerateNewKey(ring, KeyDraw([0x12, 0x34, 0x56, 0x78, 0x12, 0x34, 0x56, 0x78], e, h), now).1)
  {
    DecimalHexIsIntegerKey([0x12, 0x34, 0x56, 0x78, 0x12, 0x34, 0x56, 0x78]);
  }

  /** The finding on one input: a fresh manager whose first key name came out
      integer-like, rotated down to one key within the same
      second, throws as written; `RotateKeys` keeps the old key active. */
  lemma IntegerNameBreaksRotation(k: TicketKey, draw: KeyDraw, now: int)
    requires IntegerKey(k.name) && k.createdAt == now
    requires |draw.nameBytes| == NameDrawLength && Hex(draw.nameBytes) != k.name
    ensures RotateKeysAsWritten(Ring([k], k.name), draw, now, 1) == Err(TypeError)
    ensures RotateKeys(Ring([k], k.name), draw, now, 1) == (Ring([k], k.name), k.name)
  {
    var ring := Ring([k], k.name);
    assert Names(ring.keys) == {k.name};
    SameSecondRotation(ring, draw, now, 1);
  }

  // ---------------------------------------------------------------------------
  // Tickets

  /** The JSON object a ticket encrypts: id, suite, base64 master secret, creation time. */
  function StateOf(p: Primitives, s: Session): StateFields
  {
    StateFields(Some(s.sessionId), Some(s.cipherSuite), Some(p.base64Encode(s.masterSecret)), Some(s.creationTime))
  }

  /** The bytes the ticket MAC covers: key name, iv and ciphertext. */
  function MacInput(keyName: Bytes, iv: Bytes, encryptedState: Bytes): Bytes
  {
    keyName + iv + encryptedState
  }

  /** `createTicket`: encrypts the session state under the active key with the
      drawn iv and MACs name, iv and ciphertext with the active HMAC key. Fails
      with a runtime error when no active key exists or a primitive fails. */
  function CreateTicket(ring: Ring, p: Primitives, s: Session, iv: Bytes): (r: Result<Ticket>)
    requires |iv| == IvLength
    ensures r.Err? ==> r.error == Runtime
    ensures ActiveKey(ring).None? ==> r.Err?
    ensures ActiveKey(ring).Some? ==>
              var key := ActiveKey(ring).value;
              (r.Err? <==> (p.jsonEncode(StateOf(p, s)).None? ||
                            p.encrypt(p.jsonEncode(StateOf(p, s)).value, key.encryptionKey, iv).None?))
    ensures r.Ok? ==>
              var key := ActiveKey(ring).value;
              && r.value.keyName == ring.activeName
              && r.value.iv == iv && |r.value.iv| == IvLength
              && (NameLengths(ring) ==> |r.value.keyName| == KeyNameLength)
              && p.encrypt(p.jsonEncode(StateOf(p, s)).value, key.encryptionKey, iv) == Some(r.value.encryptedState)
              && r.value.hmac == p.hmac(key.hmacKey, MacInput(ring.activeName, iv, r.value.encryptedState))
  {
    match ActiveKey(ring)
    case None => Err(Runtime)
    case Some(key) =>
      match p.jsonEncode(StateOf(p, s))
      case None => Err(Runtime)
      case Some(json) =>
        match p.encrypt(json, key.encryptionKey, iv)
        case None => Err(Runtime)
        case Some(ct) => Ok(Ticket(key.name, iv, ct, p.hmac(key.hmacKey, MacInput(key.name, iv, ct))))
  }

  /** Rebuilds a session from decoded state fields; `None` when a field is missing
      or the master secret is not strict base64. */
  function SessionFromState(p: Primitives, f: StateFields, clock: int): (r: Option<Session>)
    ensures r.Some? <==> (f.sessionId.Some? && f.cipherSuite.Some? && f.masterSecret.Some? &&
                          f.creationTime.Some? && p.base64Decode(f.masterSecret.value).Some?)
    ensures r.Some? ==> r.value == NewSession(f.sessionId.value, p.base64Decode(f.masterSecret.value).value,
                                              f.cipherSuite.value, TicketSessionVersion, f.creationTime.value, clock)
  {
    if f.sessionId.None? || f.cipherSuite.None? || f.masterSecret.None? || f.creationTime.None? then None
    else match p.base64Decode(f.masterSecret.value)
      case None => None
      case Some(ms) => Some(NewSession(f.sessionId.value, ms, f.cipherSuite.value, TicketSessionVersion, f.creationTime.value, clock))
  }

  /** `decryptTicket`: declines an unknown key name, then a MAC mismatch (before
      any decryption), then a decryption, JSON, field or base64 failure. */
  function DecryptTicket(ring: Ring, p: Primitives, t: Ticket, clock: int): (r: Option<Session>)
    ensures KeyByName(ring, t.keyName).None? ==> r.None?
    ensures KeyByName(ring, t.keyName).Some? &&
            t.hmac != p.hmac(KeyByName(ring, t.keyName).value.hmacKey, MacInput(t.keyName, t.iv, t.encryptedState))
            ==> r.None?
    ensures r.Some? ==>
              var key := KeyByName(ring, t.keyName).value;
              && t.hmac == p.hmac(key.hmacKey, MacInput(t.keyName, t.iv, t.encryptedState))
              && p.decrypt(t.encryptedState, key.encryptionKey, t.iv).Some?
              && r.value.tlsVersion == TicketSessionVersion && r.value.lifetime == DefaultLifetime
              && r.value.kind == Plain
    ensures r.Some? ==>
              var key := KeyByName(ring, t.keyName).value;
              var plain := p.decrypt(t.encryptedState, key.encryptionKey, t.iv).value;
              p.jsonDecode(plain).Some? && r == SessionFromState(p, p.jsonDecode(plain).value, clock)
    ensures KeyByName(ring, t.keyName).Some? &&
            t.hmac == p.hmac(KeyByName(ring, t.keyName).value.hmacKey, MacInput(t.keyName, t.iv, t.encryptedState)) ==>
              var key := KeyByName(ring, t.keyName).value;
              var d := p.decrypt(t.encryptedState, key.encryptionKey, t.iv);
              && (d.None? ==> r.None?)
              && (d.Some? && p.jsonDecode(d.value).None? ==> r.None?)
              && (d.Some? && p.jsonDecode(d.value).Some? ==> r == SessionFromState(p, p.jsonDecode(d.value).value, clock))
  {
    match KeyByName(ring, t.keyName)
    case None => None
    case Some(key) =>
      if p.hmac(key.hmacKey, MacInput(t.keyName, t.iv, t.encryptedState)) != t.hmac then None
      else match p.decrypt(t.encryptedState, key.encryptionKey, t.iv)
        case None => None
        case Some(plain) =>
          match p.jsonDecode(plain)
          case None => None
          case Some(f) => SessionFromState(p, f, clock)
  }

  /** A ticket created under a key that is still in the ring decrypts to a
      TLS 1.2 session with the original id, suite, master secret and creation
      time (a zero creation time reads back as the clock). */
  lemma CreateDecryptRoundTrip(ring: Ring, later: Ring, p: Primitives, s: Session, iv: Bytes, clock: int)
    requires Sound(p)
    requires |iv| == IvLength
    requires CreateTicket(ring, p, s, iv).Ok?
    requires KeyByName(later, ring.activeName) == ActiveKey(ring)
    ensures var r := DecryptTicket(later, p, CreateTicket(ring, p, s, iv).value, clock);
            && r == Some(NewSession(s.sessionId, s.masterSecret, s.cipherSuite, TicketSessionVersion, s.creationTime, clock))
            && r.value.sessionId == s.sessionId && r.value.cipherSuite == s.cipherSuite
            && r.value.masterSecret == s.masterSecret && r.value.tlsVersion == 0x0303
            && (s.creationTime != 0 ==> r.value.creationTime == s.creationTime)
  {
    var t := CreateTicket(ring, p, s, iv).value;
    var key := ActiveKey(ring).value;
    var json := p.jsonEncode(StateOf(p, s)).value;
    assert p.decrypt(t.encryptedState, key.encryptionKey, iv) == Some(json);
    assert p.jsonDecode(json) == Some(StateOf(p, s));
    assert p.base64Decode(p.base64Encode(s.masterSecret)) == Some(s.masterSecret);
  }

  /** A ticket created from a ring the manager keeps survives the wire format
      when its ciphertext is under 64 KiB: the name and iv lengths follow from
      the draws. */
  lemma CreatedTicketSurvivesWire(ring: Ring, p: Primitives, s: Session, iv: Bytes)
    requires Sound(p)
    requires |iv| == IvLength && NameLengths(ring)
    requires CreateTicket(ring, p, s, iv).Ok?
    requires |CreateTicket(ring, p, s, iv).value.encryptedState| <= 65535
    ensures Decode(Encode(CreateTicket(ring, p, s, iv).value)) == Ok(CreateTicket(ring, p, s, iv).value)
  {
    RoundTrip(CreateTicket(ring, p, s, iv).value);
  }

  /** Changing the MAC of a genuine ticket makes it undecryptable. */
  lemma TamperedMacRejected(ring: Ring, p: Primitives, s: Session, iv: Bytes, mac: Bytes, clock: int)
    requires |iv| == IvLength
    requires CreateTicket(ring, p, s, iv).Ok?
    requires mac != CreateTicket(ring, p, s, iv).value.hmac
    ensures DecryptTicket(ring, p, CreateTicket(ring, p, s, iv).value.(hmac := mac), clock).None?
  {
  }

  /** Changing the ciphertext of a genuine ticket is accepted only if the HMAC of
      the altered bytes collides with the original tag. */
  lemma TamperedStateNeedsMacCollision(ring: Ring, p: Primitives, s: Session, iv: Bytes, state: Bytes, clock: int)
    requires |iv| == IvLength
    requires CreateTicket(ring, p, s, iv).Ok?
    requires DecryptTicket(ring, p, CreateTicket(ring, p, s, iv).value.(encryptedState := state), clock).Some?
    ensures var key := ActiveKey(ring).value;
            var t := CreateTicket(ring, p, s, iv).value;
            p.hmac(key.hmacKey, MacInput(t.keyName, iv, state)) == p.hmac(key.hmacKey, MacInput(t.keyName, iv, t.encryptedState))
  {
  }

  /** A ticket whose key name another ring does not hold is declined there. */
  lemma ForeignTicketDeclined(other: Ring, p: Primitives, t: Ticket, clock: int)
    requires t.keyName !in Names(other.keys)
    ensures DecryptTicket(other, p, t, clock).None?
  {
  }

  /** `rotateKeys(0)` empties the ring, after which `createTicket` fails. */
  lemma RotateToZeroBreaksCreate(ring: Ring, draw: KeyDraw, now: int, p: Primitives, s: Session, iv: Bytes)
    requires Distinct(ring.keys) && |draw.nameBytes| == NameDrawLength && |iv| == IvLength
    ensures CreateTicket(RotateKeys(ring, draw, now, 0).0, p, s, iv) == Err(Runtime)
  {
  }
}
