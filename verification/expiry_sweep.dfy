/** The expiry sweep every session store performs: one pass over the entries of
    a map, dropping those a predicate rejects and counting them. */
module ExpirySweep {

  /** The entries a sweep keeps. */
  function Retain<K, V>(m: map<K, V>, keep: V -> bool): (r: map<K, V>)
    ensures r.Keys <= m.Keys
    ensures forall k :: k in m ==> (k in r <==> keep(m[k]))
    ensures forall k :: k in r ==> r[k] == m[k]
  {
    map k | k in m && keep(m[k]) :: m[k]
  }

  /** The `foreach ... unset ... ++$count` loop: removes every entry `keep`
      rejects, keeps the rest unchanged, and returns how many it removed. */
  method Sweep<K, V>(m: map<K, V>, keep: V -> bool) returns (r: map<K, V>, removed: nat)
    ensures r == Retain(m, keep)
    ensures removed == |m.Keys - r.Keys| && removed == |m| - |r|
  {
    r := m;
    removed := 0;
    var todo := m.Keys;
    while todo != {}
      invariant todo <= m.Keys && r.Keys <= m.Keys
      invariant forall k :: k in todo ==> k in r
      invariant forall k :: k in m && k !in todo ==> (k in r <==> keep(m[k]))
      invariant forall k :: k in r ==> r[k] == m[k]
      invariant removed == |m.Keys - r.Keys|
      decreases todo
    {
      var k :| k in todo;
      if !keep(m[k]) {
        assert m.Keys - (r.Keys - {k}) == (m.Keys - r.Keys) + {k};
        r := r - {k};
        removed := removed + 1;
      }
      todo := todo - {k};
    }
    assert r.Keys == Retain(m, keep).Keys;
    assert |m.Keys - r.Keys| == |m.Keys| - |r.Keys| by {
      assert m.Keys == (m.Keys - r.Keys) + r.Keys;
    }
  }
}
