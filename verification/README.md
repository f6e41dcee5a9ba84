# TLS session resumption, modelled in Dafny

This project models the core of `tourze/tls-session`, a PHP library for TLS session resumption:

- the session records (`TLSSession`, `TLS13PSKSession`);
- the session-ticket wire codec, which follows the layout recommended in section 4 of RFC 5077;
- the ticket key ring, with its rotation and its encrypt-then-MAC ticket pipeline;
- the three session stores (by session id, in memory, and by TLS 1.3 PSK identity);
- the 0-RTT early-data anti-replay manager;
- the resumption security validator;
- the TLS 1.2 and TLS 1.3 key derivation;
- the PSK-to-certificate binder.

Every mutable PHP object is an immutable datatype. Every operation is a pure function (or a small method, where the source loops) returning its result together with the new state. Exceptions are the `Err` case of a `Result`; `null` results are `None`.

The clock, the random-number generator and the cryptographic primitives are parameters:

- `now` or `clock` is the value `time()` would return;
- a `…Draw` value, or raw byte arguments, carry what `random_bytes` and `mt_rand` would return;
- a `Primitives.Primitives` record holds AES-256-CBC, HMAC-SHA256, JSON and base64 as function values;
- the TLS 1.2 PRF and TLS 1.3 HKDF are function-valued arguments.

Only the algebraic laws in `Primitives.Sound` are assumed of the crypto primitives:

- decryption inverts encryption;
- HMAC tags are 32 bytes;
- the JSON and base64 decoders invert their encoders.

Modules, one per source file, leaves first:

- `Common`: bytes, `Option`/`Result`, plus `bin2hex`, `(string)$int` and `strcasecmp` with their inverse or reference lemmas.
- `TlsSession`, `Tls13PskSession`: the session record, with the PSK variant as a case of `Kind`.
- `SessionTicket`: `encode`/`decode`.
- `Primitives`: the crypto bundle.
- `TicketManager`: the key ring, rotation, and ticket create/decrypt.
- `ExpirySweep`: the shared `foreach … unset … ++$count` sweep.
- `InMemoryStore`, `SessionIdStore`, `PskSessionManager`: the three stores.
- `EarlyData`: the 0-RTT manager.
- `SecurityValidator`: the resumption checks.
- `SessionKeys`, `KeyDerivation`: the key record and the deriver.
- `CertificateBinder`: the PSK-to-certificate index.

Behaviours of the code that the model makes explicit:

- `rotateKeys` sorts stably by second-granular creation time. When every key was created in the current second, the rotation keeps the oldest-inserted keys and drops the key it has just generated. The active name then moves to the first key of the ring (`TicketManager.SameSecondRotation`).
- The two store variants disagree on expiry. `InMemorySessionManager` uses each session's lifetime and a strict `<`. `SessionIdManager` uses a fixed hour and a strict `>`. At exactly one hour after creation, a default session is invalid for the first and still served by the second (`SessionIdStore.ExpiryPoliciesDiffer`).
- `ticketAgeAdd` is computed as `mt_rand(0, mt_getrandmax()) % (1 << 30)`, so it is a 30-bit value that can be zero (`PskSessionManager.AgeAddCanBeZero`).
- TLS 1.3 derivation expands one traffic secret with one set of labels for both directions. So client and server keys are identical, as written (`KeyDerivation.DeriveTls13HandshakeKeys`).

## Model

| member | source | states |
|---|---|---|
| Common.Hex | src/SessionTicketManager.php:50 | `bin2hex` yields two lower-case hex digits per byte, so 8 random bytes make a 16-byte key name |
| Common.HexRoundTrip | src/SessionTicketManager.php:50 | decoding the hex rendering gives back the random bytes |
| Common.HexInjective | src/InMemorySessionManager.php:24 | distinct random draws give distinct hex ids and names |
| Common.DecimalRoundTrip | src/TLS13PSKSession.php:60 | the `(string)` cast of the integer suite can be read back to the same integer |
| Common.DecimalHexIsIntegerKey | src/SessionTicketManager.php:50 | a hex name of at most 18 decimal digits not starting with 0 is an integer-like array key |
| Common.StrCaseCmpZeroIff | src/SessionSecurityValidator.php:60 | `strcasecmp` returns 0 exactly when both strings agree after ASCII lower-casing |
| TlsSession.NewSession | src/TLSSession.php:42-65 | the constructor stores every field as given (no id-length check), uses the clock for a zero timestamp, and starts the lifetime at 3600 |
| TlsSession.EffectiveTime | src/TLSSession.php:157 | a zero time argument stands for the current clock |
| TlsSession.ValidityBoundary | src/TLSSession.php:155-160 | a session is valid one second before creation plus lifetime and invalid at that instant (exclusive upper bound) |
| TlsSession.ValidityIsMonotone | src/TLSSession.php:155-160 | validity at a later instant implies validity at an earlier one |
| TlsSession.SetSessionId | src/TLSSession.php:72-79 | ids over 32 bytes raise invalid-argument; shorter ids are stored exactly and nothing else changes |
| TlsSession.SetCipherSuite | src/TLSSession.php:86-89 | sets the suite and changes no other field |
| TlsSession.SetTlsVersion | src/TLSSession.php:102-105 | sets the version and changes no other field |
| TlsSession.SetMasterSecret | src/TLSSession.php:112-115 | sets the master secret and changes no other field |
| TlsSession.SetCreationTime | src/TLSSession.php:122-125 | sets the creation time and changes no other field |
| TlsSession.SetLifetime | src/TLSSession.php:142-145 | sets the lifetime and changes no other field |
| TlsSession.Timestamp | src/TLSSession.php:150-153 | `getTimestamp` is the creation time |
| Tls13PskSession.NewPskSession | src/TLS13PSKSession.php:37-69 | version fixed at 0x0304, suite stored as decimal text that reads back as the argument, early data off with limit 0, PSK fields as given |
| Tls13PskSession.CipherSuiteTextInjective | src/TLS13PSKSession.php:60 | different integer suites give different suite text |
| Tls13PskSession.SetEarlyDataAllowed | src/TLS13PSKSession.php:166-169 | sets only the early-data flag |
| Tls13PskSession.SetMaxEarlyDataSize | src/TLS13PSKSession.php:186-190 | sets the limit and sets the flag to whether the limit is positive; nothing else changes |
| Tls13PskSession.SetPskIdentity | src/TLS13PSKSession.php:86-89 | sets only the PSK identity |
| Tls13PskSession.SetTicketAgeAdd | src/TLS13PSKSession.php:106-109 | sets only the age-add value |
| Tls13PskSession.SetTicketNonce | src/TLS13PSKSession.php:126-129 | sets only the nonce |
| Tls13PskSession.SetResumptionMasterSecret | src/TLS13PSKSession.php:146-149 | sets only the resumption master secret |
| Tls13PskSession.CouplingEstablished | src/TLS13PSKSession.php:37-42 | the constructor and `setMaxEarlyDataSize` leave "allowed iff limit > 0" true |
| Tls13PskSession.CouplingNotAnInvariant | tests/TLS13PSKSessionTest.php:134-137 | `setEarlyDataAllowed(false)` after a positive limit reaches "disallowed with a positive limit" |
| SessionTicket.PadKeyName | src/SessionTicket.php:146 | `str_pad` zero-pads a short key name to 16 bytes and never truncates a long one |
| SessionTicket.LengthBytes | src/SessionTicket.php:152-153 | the two length bytes are big-endian and encode the state length modulo 65536 |
| SessionTicket.Encode | src/SessionTicket.php:141-162 | the output is padded name, iv, masked length, state, hmac in that order; a well-formed ticket encodes to 66 + state length bytes |
| SessionTicket.Decode | src/SessionTicket.php:173-205 | fails with invalid-argument exactly when the input is under 36 bytes or shorter than 34 + declared length + 32; otherwise gives a well-formed ticket that re-encodes to the prefix it read |
| SessionTicket.RoundTripPadded | src/SessionTicket.php:141-205 | decoding an encoded ticket with a short key name gives the ticket with the name zero-padded |
| SessionTicket.RoundTrip | tests/SessionTicketTest.php:77-78 | decode after encode is the identity on well-formed tickets |
| SessionTicket.LongStateDoesNotRoundTrip | src/SessionTicket.php:153 | the 16-bit mask breaks the round trip for states of 65536 bytes or more |
| SessionTicket.DecodeIgnoresTrailingBytes | src/SessionTicket.php:198-204 | bytes after the HMAC do not affect decoding |
| TicketManager.Lookup | src/SessionTicketManager.php:91-98 | a name is found exactly when the ring holds a key of that name, and the key found carries it |
| TicketManager.Upsert | src/SessionTicketManager.php:56-60 | storing under a held name overwrites that entry at its own position and leaves every other position as it was; a new name is appended at the end; other lookups are unchanged and names stay unique |
| TicketManager.ReplaceNamedFacts | src/SessionTicketManager.php:56-60 | overwriting a held name in place keeps the names unique, finds the new key under it and leaves every other lookup unchanged |
| TicketManager.AppendFacts | src/SessionTicketManager.php:56-60 | appending a new name keeps the names unique, finds the new key under it and leaves every other lookup unchanged |
| TicketManager.GenerateNewKey | src/SessionTicketManager.php:47-65 | 8 drawn name bytes give a 16-character name; stores the drawn keys under it, makes it active, returns it, and leaves every other entry unchanged; a ring of 16-character names stays one |
| TicketManager.NewManager | src/SessionTicketManager.php:36-40 | a new manager holds exactly one key, and it is active, under a 16-character name |
| TicketManager.ActiveKey | src/SessionTicketManager.php:72-82 | absent exactly when the active name names no key |
| TicketManager.KeyByName | src/SessionTicketManager.php:91-98 | absent exactly when no key has the name |
| TicketManager.SortFacts | src/SessionTicketManager.php:113-116 | the sort orders newest first, is a permutation, keeps equally old keys in ring order, and keeps names unique |
| TicketManager.SliceCount | src/SessionTicketManager.php:119 | `array_slice` keeps min(maxKeys, n) entries, or n + maxKeys (at least 0) for a negative maxKeys |
| TicketManager.RotateKeys | src/SessionTicketManager.php:107-137 | keeps the first SliceCount keys of the stably sorted ring (min(n, old + 1) for a fresh name), none older than a dropped key; the new name stays active when it is kept, otherwise the first kept key becomes active; rotating to 0 empties the ring and leaves the name dangling; key and active names keep their 16 characters |
| TicketManager.SortedPrefixIsNewest | src/SessionTicketManager.php:113-119 | in a newest-first list, no key of a prefix is older than a key after it |
| TicketManager.RotateKeysAsWritten | src/SessionTicketManager.php:127-134 | as written, re-pointing to an integer-like first key name throws a type error; every other rotation equals `RotateKeys` |
| TicketManager.GeneratedNameCanBeIntegerKey | src/SessionTicketManager.php:50 | the drawn bytes 12 34 56 78 12 34 56 78 give an integer-like key name |
| TicketManager.IntegerNameBreaksRotation | src/SessionTicketManager.php:127-134 | a one-key ring with an integer-like name, rotated to one key in the same second, throws as written and keeps the old key active when corrected |
| TicketManager.SameSecondSortIsIdentity | src/SessionTicketManager.php:114-116 | keys created in the same second stay in insertion order |
| TicketManager.SameSecondRotation | tests/SessionTicketManagerTest.php:57-90 | with all keys from the current second, rotation keeps the first maxKeys inserted, drops the new key and makes the first key active |
| TicketManager.CreateTicket | src/SessionTicketManager.php:146-193 | fails with a runtime error exactly when there is no active key or JSON or encryption fails; otherwise the ticket has the active name (16 characters in a manager's ring), the drawn 16-byte iv, the encrypted state and the HMAC of name, iv and ciphertext under the active HMAC key |
| TicketManager.SessionFromState | src/SessionTicketManager.php:248-265 | declines a missing field or non-base64 secret, else rebuilds a TLS 1.2 session from the fields |
| TicketManager.DecryptTicket | src/SessionTicketManager.php:202-269 | declines an unknown key name and a MAC mismatch before decrypting; with a known key and a matching MAC it declines a failed decryption and an undecodable state, and otherwise returns the session rebuilt from the decoded state, with version 0x0303 |
| TicketManager.CreateDecryptRoundTrip | tests/SessionTicketManagerTest.php:143-205 | a ticket decrypts, under a ring still holding its key, to a 0x0303 session with the original id, suite, master secret and creation time |
| TicketManager.CreatedTicketSurvivesWire | src/SessionTicket.php:141-205 | a ticket created from a manager's ring, with a ciphertext under 64 KiB, survives encode then decode |
| TicketManager.TamperedMacRejected | src/SessionTicketManager.php:219-225 | a ticket with a changed MAC is declined |
| TicketManager.TamperedStateNeedsMacCollision | src/SessionTicketManager.php:219-225 | an altered ciphertext is accepted only if its HMAC collides with the original tag |
| TicketManager.ForeignTicketDeclined | src/SessionTicketManager.php:210-214 | a ticket whose key name the ring lacks is declined |
| TicketManager.RotateToZeroBreaksCreate | src/SessionTicketManager.php:119-152 | after `rotateKeys(0)`, `createTicket` fails with a runtime error |
| ExpirySweep.Retain | src/InMemorySessionManager.php:77-82 | the kept entries are exactly those the predicate accepts, unchanged |
| ExpirySweep.Sweep | src/InMemorySessionManager.php:72-85 | the sweep loop leaves exactly the accepted entries and counts the removed ones |
| InMemoryStore.StoreSession | src/InMemorySessionManager.php:54-59 | an upsert under the session id that always reports true |
| InMemoryStore.CreateSession | src/InMemorySessionManager.php:21-34 | 16 drawn bytes give a 32-character hex id; the 0x0303 session with the given suite and secret is created now and stored under it |
| InMemoryStore.GetSessionById | src/InMemorySessionManager.php:36-52 | returns the session exactly when present and valid now; an invalid one is removed |
| InMemoryStore.RemoveSession | src/InMemorySessionManager.php:61-70 | true exactly when present; afterwards absent, other entries unchanged |
| InMemoryStore.CleanExpiredSessions | src/InMemorySessionManager.php:72-85 | removes exactly the sessions invalid at one timestamp and returns their number |
| InMemoryStore.StoreThenGet | src/InMemorySessionManager.php:36-59 | a stored valid session is found under its id |
| InMemoryStore.ExpiredLooksAbsent | src/InMemorySessionManager.php:45-49 | an expired entry answers like an absent one and is evicted |
| InMemoryStore.SweepLeavesOnlyLive | src/InMemorySessionManager.php:72-85 | after a sweep, every lookup at that instant succeeds without eviction |
| SessionIdStore.CreateSession | src/SessionIdManager.php:26-37 | a 0x0303 session whose id is the 32 random bytes; not stored |
| SessionIdStore.CleanExpiredSessions | src/SessionIdManager.php:112-123 | removes exactly the sessions more than 3600 s old and returns their number, for every id |
| SessionIdStore.CleanExpiredSessionsAsWritten | src/SessionIdManager.php:112-123 | as written, the sweep throws a type error exactly when some expired session has an integer-like id; otherwise it removes exactly the expired sessions and counts them |
| SessionIdStore.StoreSessionAsWritten | src/SessionIdManager.php:58-64 | as written, storing throws exactly when the map after the upsert holds an expired integer-like id; otherwise it keeps exactly the unexpired sessions |
| SessionIdStore.IntegerIdBreaksStore | src/SessionIdManager.php:58-64 | with an expired session under "42", storing any other session throws as written; corrected, the expired one goes and the new one stays if fresh |
| SessionIdStore.StoreSession | src/SessionIdManager.php:58-64 | upserts then sweeps; the stored session survives only if unexpired; reports true |
| SessionIdStore.GetSession | src/SessionIdManager.php:46-87 | returns the session exactly when present and not expired; an expired one is removed |
| SessionIdStore.RemoveSession | src/SessionIdManager.php:96-105 | true exactly when present; afterwards absent |
| SessionIdStore.ClearAllSessions | src/SessionIdManager.php:128-131 | afterwards no id is found |
| SessionIdStore.StoreThenGet | src/SessionIdManager.php:58-87 | an unexpired stored session is found at the same instant |
| SessionIdStore.StoreLeavesNoExpired | tests/SessionIdManagerTest.php:117-121 | after any store no expired entry remains, so a following sweep counts 0 |
| SessionIdStore.ExpiryPoliciesDiffer | src/SessionIdManager.php:136-141 | at exactly one hour a default session is invalid by `isValid` yet not expired here; a second later it is |
| SessionIdStore.LifetimeIgnored | src/SessionIdManager.php:136-141 | a session with a longer lifetime still expires after the fixed hour |
| PskSessionManager.NewPskManager | src/TLS13PSKSessionManager.php:39-43 | the age-add value is the draw modulo 2^30, in [0, 2^30); both maps empty |
| PskSessionManager.AgeAddCanBeZero | src/TLS13PSKSessionManager.php:42 | the age-add value is zero for some draws |
| PskSessionManager.CreatePskSession | src/TLS13PSKSessionManager.php:55-90 | a PSK session under a 32-character hex identity and id drawn from 16 bytes each, an empty nonce replaced by 16 drawn bytes, stamped with the manager's age-add, keeping a non-empty nonce, copying early-data settings only when the flag is set, indexed by identity; the index invariant is kept |
| PskSessionManager.GetSessionByPskIdentity | src/TLS13PSKSessionManager.php:99-115 | returns the session exactly when indexed and valid; an invalid one is dropped |
| PskSessionManager.RemovePskSession | src/TLS13PSKSessionManager.php:124-133 | true exactly when indexed; afterwards not indexed |
| PskSessionManager.CleanExpiredPskSessions | src/TLS13PSKSessionManager.php:140-153 | drops exactly the invalid sessions and returns their number |
| PskSessionManager.SetEarlyDataAllowedFlag | src/TLS13PSKSessionManager.php:160-163 | sets only the manager flag |
| PskSessionManager.SetMaxEarlyDataSizeLimit | src/TLS13PSKSessionManager.php:170-174 | sets the limit and sets the flag to whether it is positive |
| PskSessionManager.CleanAllSessions | src/TLS13PSKSessionManager.php:179-183 | sweeps the inherited store of invalid sessions and empties the PSK index |
| PskSessionManager.CreateThenGet | src/TLS13PSKSessionManager.php:55-115 | a created session is found under its identity within its lifetime |
| PskSessionManager.FlagWithoutLimitDisablesEarlyData | src/TLS13PSKSessionManager.php:81-84 | the flag on with limit 0 yields sessions with early data off |
| PskSessionManager.SharedAgeAdd | src/TLS13PSKSessionManager.php:75 | all sessions from one manager carry the same age-add value |
| EarlyData.StoreEarlyData | src/EarlyDataManager.php:33-51 | rejects data over the session's limit with invalid-argument (the flag is not read); otherwise records data, identity and time under the hex id, 32 characters for the 16 drawn bytes |
| EarlyData.GetAndValidateEarlyData | src/EarlyDataManager.php:63-91 | returns the data exactly when the id is stored, unused, for the same identity and within the hour; success marks the id used, refusal changes nothing |
| EarlyData.ClearAllEarlyData | src/EarlyDataManager.php:96-100 | empties both tables, after which nothing is released |
| EarlyData.StoreThenGet | tests/EarlyDataManagerTest.php:126-150 | stored data is released to its identity within the hour |
| EarlyData.SecondRetrievalRefused | src/EarlyDataManager.php:71-73 | a released id is refused to any later caller |
| EarlyData.AtMostOnce | src/EarlyDataManager.php:63-91 | along any call sequence without a clear, no id is released twice and no previously used id is released |
| EarlyData.ClearForgetsConsumption | src/EarlyDataManager.php:96-100 | a clear forgets consumption, so an id stored again is released again |
| SecurityValidator.ValidateTls12Session | src/SessionSecurityValidator.php:26-43 | true exactly when the suites are identical and the proposed version is not lower unless downgrades are allowed |
| SecurityValidator.ValidateTls13Psk | src/SessionSecurityValidator.php:54-64 | byte equality, or equality up to ASCII case when fuzzy |
| SecurityValidator.OptionOr | src/SessionSecurityValidator.php:97-100 | `??` takes the default for a missing or null option |
| SecurityValidator.ParseServerOptions | src/SessionSecurityValidator.php:94-102 | the defaults are no downgrade, exact match, minimum 0x0303 and an empty list |
| SecurityValidator.ValidateTlsVersion | src/SessionSecurityValidator.php:112-133 | other session types pass; for ours, a non-bool or non-int option is invalid-argument, else passes exactly when downgrades are allowed or the version reaches the minimum |
| SecurityValidator.FuzzyMatch | src/SessionSecurityValidator.php:171-180 | on an all-string list, true exactly when some entry matches up to case; a type error only when a non-string entry is reached |
| SecurityValidator.ValidateCipherSuite | src/SessionSecurityValidator.php:143-161 | an empty list passes without reading `requireExactMatch`; otherwise a non-bool is invalid-argument, a non-array list is a type error, exact mode is strict membership, and fuzzy mode is caseless membership on a list of strings and the `FuzzyMatch` scan on any list |
| SecurityValidator.ValidateSessionAgainstServerOptions | src/SessionSecurityValidator.php:74-85 | accepts exactly when both checks accept; a version error or refusal is the answer without the suite check; after a passing version check the answer, errors included, is the suite check's |
| SecurityValidator.DefaultPolicy | src/SessionSecurityValidator.php:94-133 | with no options, our sessions pass exactly from TLS 1.2 up and other sessions pass |
| SecurityValidator.NullMeansDefault | src/SessionSecurityValidator.php:97-100 | a null option behaves as a missing one |
| SecurityValidator.VersionFailureShortCircuits | src/SessionSecurityValidator.php:80-84 | a version refusal hides a suite policy that would raise |
| SecurityValidator.DowngradePermissionIsMonotone | src/SessionSecurityValidator.php:38-40 | allowing downgrades never turns acceptance into refusal |
| SecurityValidator.ExactImpliesFuzzy | src/SessionSecurityValidator.php:156-180 | on an all-string list, strict membership implies a caseless match |
| SecurityValidator.FuzzyStopsAtFirstMatch | src/SessionSecurityValidator.php:173-177 | the scan answers true at the first caseless match, whatever entries follow |
| SecurityValidator.ExactPskImpliesFuzzy | src/SessionSecurityValidator.php:59-63 | exact PSK suite matching implies fuzzy matching |
| SessionKeys.WithoutMacKeys | src/KeyDerivation/SessionKeys.php:22-29 | the MAC keys default to absent |
| SessionKeys.ClientKeys | src/KeyDerivation/SessionKeys.php:37-44 | client write key, iv and MAC key |
| SessionKeys.ServerKeys | src/KeyDerivation/SessionKeys.php:51-58 | server write key, iv and MAC key |
| SessionKeys.WriteKeys | src/KeyDerivation/SessionKeys.php:65-72 | the server's write view is the server keys |
| SessionKeys.ReadKeys | src/KeyDerivation/SessionKeys.php:79-86 | the server's read view is the client keys |
| SessionKeys.DirectionsDetermineKeys | src/KeyDerivation/SessionKeys.php:22-58 | the client and server views together determine the record |
| SessionKeys.ServerViewSwapsDirections | src/KeyDerivation/SessionKeys.php:65-86 | read equals write exactly when client equals server |
| KeyDerivation.FromCode | src/KeyDerivation/SessionKeysDeriver.php:144-173 | a code found names the suite with that code; no suite is found for a code no listed suite has |
| KeyDerivation.CodeInjective | src/KeyDerivation/SessionKeysDeriver.php:144-173 | each listed suite is recovered from its code |
| KeyDerivation.TablesMatchDescriptions | src/KeyDerivation/SessionKeysDeriver.php:141-246 | the key, IV and MAC-key tables agree with the suite's cipher, mode and protocol; unlisted codes get 16, 12 and 0 |
| KeyDerivation.MacKeyIffCbc | src/KeyDerivation/SessionKeysDeriver.php:229-246 | exactly the CBC suites have a MAC key |
| KeyDerivation.Substr | src/KeyDerivation/SessionKeysDeriver.php:65-78 | `substr` with non-negative arguments is clamped to the string |
| KeyDerivation.SubstrAdjacent | src/KeyDerivation/SessionKeysDeriver.php:60-78 | adjacent clamped slices join into one |
| KeyDerivation.SliceKeyBlock | src/KeyDerivation/SessionKeysDeriver.php:60-87 | MAC keys are absent exactly when the MAC length is 0; for a block of the full length, the fields laid end to end are exactly the block, and each field has its table length |
| KeyDerivation.SliceAtIsSubstr | src/KeyDerivation/SessionKeysDeriver.php:60-78 | the slicing gives exactly the fields the six `substr` calls return, for blocks of any length |
| KeyDerivation.DeriveTls12Keys | src/KeyDerivation/SessionKeysDeriver.php:46-88 | MAC keys are absent exactly for a zero MAC length; with a PRF returning the 2*(key+iv+mac) bytes asked for, the write keys, IVs and MAC keys have their table lengths and make up the whole block |
| KeyDerivation.GcmExample | tests/KeyDerivation/SessionKeysDeriverTest.php:48-65 | 0xC02F gives 16-byte keys, 4-byte IVs and no MAC keys |
| KeyDerivation.DeriveTls13HandshakeKeys | src/KeyDerivation/SessionKeysDeriver.php:98-118 | keys and IVs come from "key" and "iv" labels with an empty context; client and server come out identical; no MAC keys |
| KeyDerivation.DeriveTls13ApplicationKeys | src/KeyDerivation/SessionKeysDeriver.php:128-132 | application keys come from the same "key" and "iv" expansion of the given secret, identical in both directions, with no MAC keys |
| KeyDerivation.Tls13Lengths | src/KeyDerivation/SessionKeysDeriver.php:101-110 | with a length-respecting HKDF, keys have the table length and IVs 12 bytes |
| CertificateBinder.Bind | src/PSKCertificateBinder.php:36-49 | overwrites the forward entry and appends the identity to the certificate's list even if present, leaving other lists alone; keeps the invariant |
| CertificateBinder.CertificateForPsk | src/PSKCertificateBinder.php:58-61 | the certificate exactly when bound |
| CertificateBinder.IdentitiesFor | src/PSKCertificateBinder.php:117-122 | the certificate's list, or empty |
| CertificateBinder.Without | src/PSKCertificateBinder.php:81-84 | the filter removes every occurrence of the identity and keeps everything else |
| CertificateBinder.WithoutDistributes | src/PSKCertificateBinder.php:81-84 | filtering a concatenation filters each part, so survivors keep their order and multiplicity |
| CertificateBinder.WithoutAbsent | src/PSKCertificateBinder.php:81-84 | a list without the identity passes unchanged |
| CertificateBinder.RemoveBinding | src/PSKCertificateBinder.php:70-96 | false and no change when unbound; otherwise unbinds, replaces the certificate's list by exactly the filtered list (dropping it when empty), keeps other lists, and keeps the invariant |
| CertificateBinder.QueriesReadForwardMap | src/PSKCertificateBinder.php:58-108 | `isPSKBoundToCertificate` agrees with `getCertificateForPSK` |
| CertificateBinder.BoundIsListed | src/PSKCertificateBinder.php:36-95 | under the invariant, a bound identity is in its certificate's list |
| CertificateBinder.StaleReverseEntry | src/PSKCertificateBinder.php:41-46 | rebinding leaves the identity in the old certificate's list, even after removal |
| CertificateBinder.DuplicateEntries | src/PSKCertificateBinder.php:46 | binding twice lists the identity twice; one removal clears both |
| CertificateBinder.BindOrder | tests/PSKCertificateBinderTest.php:99-116 | identities are listed in bind order |

## Findings

| source | as written | input that shows it | evidently intended | confidence | as-written member | corrected member |
|---|---|---|---|---|---|---|
| src/SessionIdManager.php:112-123 | the sweep passes the `foreach` key to `removeSession(string)`, and PHP stores an integer-like id as an integer key, so under `strict_types` the call throws a `TypeError`; `storeSession` (58-64) sweeps on every call and throws too | a session with id "42", stored and more than an hour old, then any `storeSession` call | remove the expired session and count it, whatever its id | not executed | SessionIdStore.CleanExpiredSessionsAsWritten, SessionIdStore.StoreSessionAsWritten, SessionIdStore.IntegerIdBreaksStore | SessionIdStore.CleanExpiredSessions, SessionIdStore.StoreSession |
| src/SessionTicketManager.php:127-134 | the re-pointing branch assigns the first value of `array_keys` to the `string` property `$activeKeyName` (line 26); for an integer-like key name that value is an int and the assignment throws a `TypeError` | a new manager whose key name came out as "1234567812345678", then `rotateKeys(1)` in the same second | make the first kept key active | not executed | TicketManager.RotateKeysAsWritten, TicketManager.IntegerNameBreaksRotation | TicketManager.RotateKeys |

## Left out

- Randomness: `random_bytes` and `mt_rand` results are parameters (`KeyDraw`, `PskDraw`, raw byte arguments). Their freshness is not assumed; a colliding draw overwrites, as a PHP array assignment does.
- The clock: `time()` is the `now`/`clock` parameter. One call of an operation sees one clock value.
- AES-256-CBC, HMAC-SHA256, `json_encode`/`json_decode` and base64 are uninterpreted function values. Only the round-trip laws of `Primitives.Sound` are assumed. The constant-time comparison of `hash_equals` is not expressible and is not claimed.
- The TLS 1.2 PRF and TLS 1.3 HKDF come from another package (`Tourze\TLSCryptoHash`). They are function arguments; their lengths are assumed only where a lemma says so.
- The `CipherSuite` constants come from another package and are taken to be the IANA registry code points.
- `spl_object_hash` is modelled as a certificate handle. `CertificateInterface` is not part of this model.
- `array_filter` keeps the original array keys. The model keeps only the values in order, so the key gaps PHP would return from `getPSKIdentitiesForCertificate` after a removal are not represented.
- `SessionInterface`, `SessionManagerInterface`, `ConcreteTLSSession` and `ConcreteInMemorySessionManager` declare nothing beyond what the session datatype and the stores model.
- `SessionTicketManager::getTicketLifetime` and `setTicketLifetime` are plain configuration that `decryptTicket` never reads.
- Getters that only return a field are field selectors of the datatypes.
- The inherited `createSession`/`getSessionById`/`storeSession`/`removeSession` of `TLS13PSKSessionManager` behave as in `InMemoryStore`. They are not repeated on `PskSessionManager`.
- PHP's 64-bit integer overflow is not modelled. Times and sizes are unbounded integers, which differ from PHP only beyond 2^63.
- `uasort`'s stability is that of PHP 8, the version the library requires.
- Concurrency: the early-data check-then-mark is sequential here, so atomicity under races is not addressed.
- Determinism of key derivation holds by construction, because the derivations are functions.
- SecurityValidator.FuzzyMatch: on a list holding non-strings, only "an error implies a non-string" and "true implies a caseless match" are stated. `SecurityValidator.FuzzyStopsAtFirstMatch` covers a match reached before any non-string.
- KeyDerivation.SliceKeyBlock: the layout and the lengths are stated only for a key block of at least the requested length. For a shorter PRF output the model cuts the fields with the same clamped `substr` (`KeyDerivation.SliceAtIsSubstr`), but it states nothing about their layout.
- TicketManager.DecryptTicket: the JSON field types PHP would reject with a `TypeError` inside the `try` are folded into `None` fields of `StateFields`. Both paths decline.
- The stores hold session values, not PHP object handles. A session returned by a lookup, or kept by the caller after storing, is the same object as the stored one in PHP. Later changes through its setters (or through reflection, as the tests do) therefore reach the store there, and not in the model; each store operation sees the stored values as they were when stored.
- SessionIdStore.CleanExpiredSessionsAsWritten: the sessions removed before the type error is thrown stay removed in PHP; the error value does not carry that partial state.
