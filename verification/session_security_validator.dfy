/** `SessionSecurityValidator`: the checks a server makes before resuming a
    session — same cipher suite, no version downgrade — and the policy given
    by an untyped server-options array. */
module SecurityValidator {
  import opened Common
  import opened TlsSession
  import opened Tls13PskSession

  /** The PHP values a server-options array can hold, as far as the checks
      distinguish them. An array is its sequence of values in order. */
  datatype Value =
    | VNull
    | VBool(b: bool)
    | VInt(i: int)
    | VString(s: Bytes)
    | VArray(elems: seq<Value>)
    | VOther

  type Options = map<string, Value>

  /** The configuration after defaults are filled in. */
  datatype Config = Config(
    allowDowngrade: Value,
    requireExactMatch: Value,
    minimumTlsVersion: Value,
    allowedCipherSuites: Value)

  /** What `validateSessionAgainstServerOptions` is given: one of this
      package's sessions, or some other `SessionInterface` implementation, of
      which only the cipher suite is read. */
  datatype Subject =
    | OfTlsSession(session: Session)
    | OtherSession(cipherSuite: Bytes)

  function SubjectCipherSuite(subject: Subject): (r: Bytes)
    ensures subject.OfTlsSession? ==> r == subject.session.cipherSuite
    ensures subject.OtherSession? ==> r == subject.cipherSuite
  {
    match subject
    case OfTlsSession(s) => s.cipherSuite
    case OtherSession(c) => c
  }

  /** `validateTLS12Session`: the suites must be identical, and unless a
      downgrade is allowed the proposed version may not be below the stored one. */
  function ValidateTls12Session(session: Session, proposedCipherSuite: Bytes,
                                proposedTlsVersion: int, allowDowngrade: bool): (r: bool)
    ensures r <==> session.cipherSuite == proposedCipherSuite
                   && (allowDowngrade || proposedTlsVersion >= session.tlsVersion)
  {
    if session.cipherSuite != proposedCipherSuite then false
    else if !allowDowngrade && proposedTlsVersion < session.tlsVersion then false
    else true
  }

  /** `validateTLS13PSK`: byte equality, or `strcasecmp` equality when fuzzy. */
  function ValidateTls13Psk(session: Session, proposedCipherSuite: Bytes, fuzzyMatch: bool): (r: bool)
    requires IsPsk(session)
    ensures !fuzzyMatch ==> (r <==> session.cipherSuite == proposedCipherSuite)
    ensures fuzzyMatch ==> (r <==> FoldCase(session.cipherSuite) == FoldCase(proposedCipherSuite))
  {
    StrCaseCmpZeroIff(session.cipherSuite, proposedCipherSuite);
    if fuzzyMatch then StrCaseCmp(session.cipherSuite, proposedCipherSuite) == 0
    else session.cipherSuite == proposedCipherSuite
  }

  /** `$options[key] ?? default`: a missing key and a null value both give the default. */
  function OptionOr(options: Options, key: string, default: Value): (r: Value)
    ensures key in options && options[key] != VNull ==> r == options[key]
    ensures key !in options || options[key] == VNull ==> r == default
  {
    if key in options && options[key] != VNull then options[key] else default
  }

  /** `parseServerOptions`: downgrades off, exact matching on, TLS 1.2 as the
      minimum, and an empty allow-list unless the options say otherwise. */
  function ParseServerOptions(options: Options): (r: Config)
    ensures r.allowDowngrade == OptionOr(options, "allowDowngrade", VBool(false))
    ensures r.requireExactMatch == OptionOr(options, "requireExactMatch", VBool(true))
    ensures r.minimumTlsVersion == OptionOr(options, "minimumTlsVersion", VInt(0x0303))
    ensures r.allowedCipherSuites == OptionOr(options, "allowedCipherSuites", VArray([]))
  {
    Config(OptionOr(options, "allowDowngrade", VBool(false)),
           OptionOr(options, "requireExactMatch", VBool(true)),
           OptionOr(options, "minimumTlsVersion", VInt(0x0303)),
           OptionOr(options, "allowedCipherSuites", VArray([])))
  }

  /** `validateTlsVersion`: other session types pass unexamined; for ours,
      both options must have the right type, and the stored version may be
      below the minimum only when downgrades are allowed. */
  function ValidateTlsVersion(subject: Subject, c: Config): (r: Result<bool>)
    ensures subject.OtherSession? ==> r == Ok(true)
    ensures subject.OfTlsSession? ==> (r.Err? <==> !c.allowDowngrade.VBool? || !c.minimumTlsVersion.VInt?)
    ensures r.Err? ==> r.error == InvalidArgument
    ensures r.Ok? && subject.OfTlsSession? ==>
              (r.value <==> c.allowDowngrade.b || subject.session.tlsVersion >= c.minimumTlsVersion.i)
  {
    match subject
    case OtherSession(_) => Ok(true)
    case OfTlsSession(s) =>
      if !c.allowDowngrade.VBool? then Err(InvalidArgument)
      else if !c.minimumTlsVersion.VInt? then Err(InvalidArgument)
      else if !c.allowDowngrade.b && s.tlsVersion < c.minimumTlsVersion.i then Ok(false)
      else Ok(true)
  }

  predicate AllStrings(elems: seq<Value>)
  {
    forall i :: 0 <= i < |elems| ==> elems[i].VString?
  }

  /** Some entry is a string equal to `suite` up to ASCII case. */
  predicate CaselessMember(suite: Bytes, elems: seq<Value>)
  {
    exists i :: 0 <= i < |elems| && elems[i].VString? && FoldCase(elems[i].s) == FoldCase(suite)
  }

  /** `fuzzyMatchCipherSuite`: scans in order and stops at the first entry
      equal up to case; an entry that is not a string, reached before any
      match, is a type error. */
  function FuzzyMatch(suite: Bytes, elems: seq<Value>): (r: Result<bool>)
    ensures r.Err? ==> r.error == TypeError && !AllStrings(elems)
    ensures r == Ok(true) ==> CaselessMember(suite, elems)
    ensures AllStrings(elems) ==> r == Ok(CaselessMember(suite, elems))
    decreases |elems|
  {
    if elems == [] then Ok(false)
    else if !elems[0].VString? then Err(TypeError)
    else
      StrCaseCmpZeroIff(suite, elems[0].s);
      if StrCaseCmp(suite, elems[0].s) == 0 then Ok(true)
      else
        var rest := FuzzyMatch(suite, elems[1..]);
        assert AllStrings(elems) ==> AllStrings(elems[1..]) by {
          if AllStrings(elems) {
            forall i | 0 <= i < |elems[1..]| ensures elems[1..][i].VString? {
              assert elems[1..][i] == elems[i + 1];
            }
          }
        }
        assert rest.Err? ==> !AllStrings(elems) by {
          if rest.Err? {
            var i :| 0 <= i < |elems[1..]| && !elems[1..][i].VString?;
            assert elems[i + 1] == elems[1..][i];
          }
        }
        assert rest == Ok(true) ==> CaselessMember(suite, elems) by {
          if rest == Ok(true) {
            var i :| 0 <= i < |elems[1..]| && elems[1..][i].VString? && FoldCase(elems[1..][i].s) == FoldCase(suite);
            assert elems[i + 1] == elems[1..][i];
          }
        }
        assert AllStrings(elems) && CaselessMember(suite, elems) ==> CaselessMember(suite, elems[1..]) by {
          if AllStrings(elems) && CaselessMember(suite, elems) {
            var i :| 0 <= i < |elems| && elems[i].VString? && FoldCase(elems[i].s) == FoldCase(suite);
            assert i != 0;
            assert elems[1..][i - 1] == elems[i];
          }
        }
        rest
  }

  /** `validateCipherSuite`: an empty allow-list passes without reading
      `requireExactMatch`; otherwise that option must be a bool, and the suite
      must be a strict member of the list, or a caseless match when exactness
      is off. A list option that is not an array is a type error. */
  function ValidateCipherSuite(subject: Subject, c: Config): (r: Result<bool>)
    ensures c.allowedCipherSuites == VArray([]) ==> r == Ok(true)
    ensures c.allowedCipherSuites != VArray([]) && !c.requireExactMatch.VBool? ==> r == Err(InvalidArgument)
    ensures c.allowedCipherSuites != VArray([]) && c.requireExactMatch.VBool? && !c.allowedCipherSuites.VArray? ==>
              r == Err(TypeError)
    ensures c.allowedCipherSuites != VArray([]) && c.requireExactMatch == VBool(true) && c.allowedCipherSuites.VArray? ==>
              r == Ok(VString(SubjectCipherSuite(subject)) in c.allowedCipherSuites.elems)
    ensures c.allowedCipherSuites != VArray([]) && c.requireExactMatch == VBool(false) && c.allowedCipherSuites.VArray?
              && AllStrings(c.allowedCipherSuites.elems) ==>
              r == Ok(CaselessMember(SubjectCipherSuite(subject), c.allowedCipherSuites.elems))
    ensures c.allowedCipherSuites != VArray([]) && c.requireExactMatch == VBool(false) && c.allowedCipherSuites.VArray? ==>
              r == FuzzyMatch(SubjectCipherSuite(subject), c.allowedCipherSuites.elems)
  {
    if c.allowedCipherSuites == VArray([]) then Ok(true)
    else
      var suite := SubjectCipherSuite(subject);
      if !c.requireExactMatch.VBool? then Err(InvalidArgument)
      else if !c.allowedCipherSuites.VArray? then Err(TypeError)
      else if c.requireExactMatch.b then Ok(VString(suite) in c.allowedCipherSuites.elems)
      else FuzzyMatch(suite, c.allowedCipherSuites.elems)
  }

  /** `validateSessionAgainstServerOptions`: the version check first, and the
      suite check only when the version check passed. */
  function ValidateSessionAgainstServerOptions(subject: Subject, options: Options): (r: Result<bool>)
    ensures var c := ParseServerOptions(options);
            r == Ok(true) <==> ValidateTlsVersion(subject, c) == Ok(true) && ValidateCipherSuite(subject, c) == Ok(true)
    ensures var c := ParseServerOptions(options);
            ValidateTlsVersion(subject, c).Err? ==> r == ValidateTlsVersion(subject, c)
    ensures ValidateTlsVersion(subject, ParseServerOptions(options)) == Ok(false) ==> r == Ok(false)
    ensures ValidateTlsVersion(subject, ParseServerOptions(options)) == Ok(true) ==>
              r == ValidateCipherSuite(subject, ParseServerOptions(options))
  {
    var c := ParseServerOptions(options);
    match ValidateTlsVersion(subject, c)
    case Err(e) => Err(e)
    case Ok(versionOk) => if !versionOk then Ok(false) else ValidateCipherSuite(subject, c)
  }

  /** With no options, a session of ours is accepted exactly when its version
      is TLS 1.2 or later, and any other session is accepted. */
  lemma DefaultPolicy(subject: Subject)
    ensures subject.OfTlsSession? ==>
              ValidateSessionAgainstServerOptions(subject, map[]) == Ok(subject.session.tlsVersion >= 0x0303)
    ensures subject.OtherSession? ==> ValidateSessionAgainstServerOptions(subject, map[]) == Ok(true)
  {
  }

  /** Null options behave as missing ones. */
  lemma NullMeansDefault(subject: Subject, options: Options, key: string)
    requires key in options && options[key] == VNull
    ensures ValidateSessionAgainstServerOptions(subject, options)
         == ValidateSessionAgainstServerOptions(subject, options - {key})
  {
    assert ParseServerOptions(options) == ParseServerOptions(options - {key});
  }

  /** A version failure short-circuits: a malformed suite policy is then never looked at. */
  lemma VersionFailureShortCircuits(session: Session, options: Options)
    requires options == map["minimumTlsVersion" := VInt(session.tlsVersion + 1),
                            "requireExactMatch" := VString([]),
                            "allowedCipherSuites" := VOther]
    ensures ValidateSessionAgainstServerOptions(OfTlsSession(session), options) == Ok(false)
    ensures ValidateCipherSuite(OfTlsSession(session), ParseServerOptions(options)) == Err(InvalidArgument)
  {
  }

  /** Allowing downgrades never turns an accepted resumption into a refusal. */
  lemma DowngradePermissionIsMonotone(session: Session, suite: Bytes, version: int)
    requires ValidateTls12Session(session, suite, version, false)
    ensures ValidateTls12Session(session, suite, version, true)
  {
  }

  /** When every allowed entry is a string, exact acceptance implies caseless acceptance. */
  lemma {:induction false} ExactImpliesFuzzy(suite: Bytes, elems: seq<Value>)
    requires AllStrings(elems) && VString(suite) in elems
    ensures FuzzyMatch(suite, elems) == Ok(true)
  {
    var i :| 0 <= i < |elems| && elems[i] == VString(suite);
    assert CaselessMember(suite, elems);
  }

  /** The scan stops at the first caseless match: non-string entries after it
      are never reached. */
  lemma {:induction false} FuzzyStopsAtFirstMatch(suite: Bytes, elems: seq<Value>, k: nat)
    requires k < |elems| && elems[k].VString? && FoldCase(elems[k].s) == FoldCase(suite)
    requires forall j :: 0 <= j < k ==> elems[j].VString?
    ensures FuzzyMatch(suite, elems) == Ok(true)
    decreases k
  {
    StrCaseCmpZeroIff(suite, elems[0].s);
    if k > 0 && StrCaseCmp(suite, elems[0].s) != 0 {
      assert elems[1..][k - 1] == elems[k];
      forall j | 0 <= j < k - 1 ensures elems[1..][j].VString? {
        assert elems[1..][j] == elems[j + 1];
      }
      FuzzyStopsAtFirstMatch(suite, elems[1..], k - 1);
    }
  }

  /** Exact PSK matching implies fuzzy matching. */
  lemma ExactPskImpliesFuzzy(session: Session, suite: Bytes)
    requires IsPsk(session) && ValidateTls13Psk(session, suite, false)
    ensures ValidateTls13Psk(session, suite, true)
  {
  }
}
