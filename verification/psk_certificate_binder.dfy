/** `PSKCertificateBinder`: which certificate each PSK identity is bound to,
    with a reverse index from certificates to identity lists. The reverse
    index is kept only loosely in step with the forward map. */
module CertificateBinder {
  import opened Common

  /** A certificate object, known to the binder only by its object identity. */
  datatype Certificate = Certificate(handle: nat)

  /** `getCertificateHash`: the object's identity (`spl_object_hash`). */
  function CertificateKey(c: Certificate): nat
  {
    c.handle
  }

  datatype Binder = Binder(forward: map<Bytes, Certificate>, reverse: map<nat, seq<Bytes>>)

  function EmptyBinder(): (r: Binder)
    ensures r.forward == map[] && r.reverse == map[]
  {
    Binder(map[], map[])
  }

  /** Every bound identity appears in its certificate's list. */
  predicate Consistent(b: Binder)
  {
    forall p :: p in b.forward ==>
      CertificateKey(b.forward[p]) in b.reverse && p in b.reverse[CertificateKey(b.forward[p])]
  }

  /** No certificate is listed with an empty identity list. */
  predicate NoEmptyLists(b: Binder)
  {
    forall k :: k in b.reverse ==> b.reverse[k] != []
  }

  predicate Invariant(b: Binder)
  {
    Consistent(b) && NoEmptyLists(b)
  }

  /** `bindCertificateToPSK`: the forward entry is overwritten, and the
      identity is appended to the certificate's list whether or not it is
      already there; the previous certificate's list is left as it was. */
  function Bind(b: Binder, p: Bytes, c: Certificate): (r: Binder)
    ensures r.forward == b.forward[p := c]
    ensures CertificateKey(c) in r.reverse
    ensures r.reverse[CertificateKey(c)]
         == (if CertificateKey(c) in b.reverse then b.reverse[CertificateKey(c)] else []) + [p]
    ensures forall k :: k in b.reverse && k != CertificateKey(c) ==> k in r.reverse && r.reverse[k] == b.reverse[k]
    ensures r.reverse.Keys == b.reverse.Keys + {CertificateKey(c)}
    ensures Invariant(b) ==> Invariant(r)
  {
    var k := CertificateKey(c);
    var list := if k in b.reverse then b.reverse[k] else [];
    Binder(b.forward[p := c], b.reverse[k := list + [p]])
  }

  /** `getCertificateForPSK`. */
  function CertificateForPsk(b: Binder, p: Bytes): (r: Option<Certificate>)
    ensures r.Some? <==> p in b.forward
    ensures r.Some? ==> r.value == b.forward[p]
  {
    if p in b.forward then Some(b.forward[p]) else None
  }

  /** `isPSKBoundToCertificate`. */
  predicate IsBound(b: Binder, p: Bytes)
  {
    p in b.forward
  }

  /** `getPSKIdentitiesForCertificate`: the list in bind order, or empty. */
  function IdentitiesFor(b: Binder, c: Certificate): (r: seq<Bytes>)
    ensures CertificateKey(c) in b.reverse ==> r == b.reverse[CertificateKey(c)]
    ensures CertificateKey(c) !in b.reverse ==> r == []
  {
    if CertificateKey(c) in b.reverse then b.reverse[CertificateKey(c)] else []
  }

  /** The `array_filter` in `removeBindingForPSK`: every occurrence of `p`
      removed, the rest kept in order. */
  function Without(s: seq<Bytes>, p: Bytes): (r: seq<Bytes>)
    ensures forall x :: x in r <==> x in s && x != p
    ensures |r| <= |s|
    decreases |s|
  {
    if s == [] then []
    else
      var rest := Without(s[1..], p);
      assert forall x :: x in s <==> x == s[0] || x in s[1..];
      if s[0] == p then rest else [s[0]] + rest
  }

  /** The filter works piecewise: filtering a concatenation filters each part,
      so the kept identities stay in order and keep their multiplicity. */
  lemma {:induction false} WithoutDistributes(a: seq<Bytes>, b: seq<Bytes>, p: Bytes)
    ensures Without(a + b, p) == Without(a, p) + Without(b, p)
    decreases |a|
  {
    if a == [] {
      assert a + b == b;
    } else {
      assert (a + b)[1..] == a[1..] + b;
      WithoutDistributes(a[1..], b, p);
    }
  }

  /** A list without the identity passes the filter unchanged. */
  lemma {:induction false} WithoutAbsent(s: seq<Bytes>, p: Bytes)
    requires p !in s
    ensures Without(s, p) == s
    decreases |s|
  {
    if s != [] {
      assert p !in s[1..];
      WithoutAbsent(s[1..], p);
    }
  }

  /** `removeBindingForPSK`: false and no change for an unbound identity;
      otherwise the forward entry goes, every occurrence of the identity
      leaves its current certificate's list, and a list left empty is dropped. */
  function RemoveBinding(b: Binder, p: Bytes): (r: (bool, Binder))
    ensures r.0 <==> p in b.forward
    ensures !r.0 ==> r.1 == b
    ensures r.1.forward == b.forward - {p}
    ensures r.0 ==> var k := CertificateKey(b.forward[p]);
              && (k in r.1.reverse ==> p !in r.1.reverse[k])
              && (forall x :: k in b.reverse && x in b.reverse[k] && x != p ==> k in r.1.reverse && x in r.1.reverse[k])
              && (forall j :: j in b.reverse && j != k ==> j in r.1.reverse && r.1.reverse[j] == b.reverse[j])
              && r.1.reverse.Keys <= b.reverse.Keys
              && (k in b.reverse && Without(b.reverse[k], p) == [] ==> k !in r.1.reverse)
              && (k in b.reverse && Without(b.reverse[k], p) != [] ==>
                    k in r.1.reverse && r.1.reverse[k] == Without(b.reverse[k], p))
              && (k !in b.reverse ==> r.1.reverse == b.reverse)
    ensures Invariant(b) ==> Invariant(r.1)
  {
    if p !in b.forward then (false, b)
    else
      var k := CertificateKey(b.forward[p]);
      var reverse :=
        if k in b.reverse then
          var kept := Without(b.reverse[k], p);
          if kept == [] then b.reverse - {k} else b.reverse[k := kept]
        else b.reverse;
      var r := Binder(b.forward - {p}, reverse);
      assert Invariant(b) ==> Consistent(r) by {
        if Invariant(b) {
          forall q | q in r.forward
            ensures CertificateKey(r.forward[q]) in r.reverse && q in r.reverse[CertificateKey(r.forward[q])]
          {
            var j := CertificateKey(b.forward[q]);
            assert j in b.reverse && q in b.reverse[j];
            if j == k {
              assert q in Without(b.reverse[k], p);
            }
          }
        }
      }
      (true, r)
  }

  /** The forward map alone answers both queries. */
  lemma QueriesReadForwardMap(b: Binder, p: Bytes)
    ensures IsBound(b, p) <==> CertificateForPsk(b, p).Some?
  {
  }

  /** A bound identity is listed under its certificate. */
  lemma BoundIsListed(b: Binder, p: Bytes)
    requires Invariant(b) && IsBound(b, p)
    ensures p in IdentitiesFor(b, CertificateForPsk(b, p).value)
  {
  }

  /** The converse fails: rebinding leaves a stale entry in the old
      certificate's list, which survives even removing the binding. */
  lemma StaleReverseEntry(p: Bytes, c1: Certificate, c2: Certificate)
    requires CertificateKey(c1) != CertificateKey(c2)
    ensures var b := Bind(Bind(EmptyBinder(), p, c1), p, c2);
            && Invariant(b)
            && p in IdentitiesFor(b, c1) && CertificateForPsk(b, p) == Some(c2)
            && IdentitiesFor(RemoveBinding(b, p).1, c1) == [p]
            && !IsBound(RemoveBinding(b, p).1, p)
  {
    var b := Bind(Bind(EmptyBinder(), p, c1), p, c2);
    assert Without([p], p) == [];
    assert b.reverse[CertificateKey(c2)] == [p];
  }

  /** Binding the same pair twice lists the identity twice; one removal clears both. */
  lemma DuplicateEntries(p: Bytes, c: Certificate)
    ensures var b := Bind(Bind(EmptyBinder(), p, c), p, c);
            && IdentitiesFor(b, c) == [p, p]
            && IdentitiesFor(RemoveBinding(b, p).1, c) == []
  {
    var b := Bind(Bind(EmptyBinder(), p, c), p, c);
    assert b.reverse[CertificateKey(c)] == [p, p];
    assert Without([p, p], p) == [];
  }

  /** Identities bound to one certificate are listed in bind order. */
  lemma BindOrder(p1: Bytes, p2: Bytes, c: Certificate)
    ensures IdentitiesFor(Bind(Bind(EmptyBinder(), p1, c), p2, c), c) == [p1, p2]
  {
  }
}
