# Stackfort control plane: a Dafny model

Stackfort is a hosting control plane written in Go. Its core package keeps everything in one
SQLite database whose write transactions run one after the other; a privileged agent on the
host executes commands and streams files. This project models the parts of that system whose
correctness depends on what happens across many transactions, and proves what every run of
them keeps.

| modules | what they model |
|---|---|
| `Domains`, `DomainRouting`, `DomainHosts`, `DomainTls`, `DomainRedirects`, `DomainCertificates`, `DomainReplay`, `DomainLifecycle`, `DomainIsolation`, `DomainEffects`, `DomainRequests`, `DomainStore`, `HostNames` | the domain lifecycle: creation, edits, suspension, removal, activation, redirects, TLS intent and certificates, redelivered operations |
| `AppliedState` | which configuration revision an account's host runs |
| `ResponseCache` | the agent's idempotency cache |
| `RateLimit` | the login and bootstrap rate limiters |
| `Sessions`, `SessionOverlap`, `Logins`, `LoginEffects` | browser sessions, alone and overlapping, password and second-factor logins |
| `Bootstrap` | the one-time claim of the first administrator |
| `Hosting`, `HostingEffects`, `Provisioning`, `Decimal` | package limits, host intents, and the reconcile queue |
| `Audit` | the hash-chained audit log |
| `Rotation` | database credential rotation and phpMyAdmin handoffs |
| `Download` | ranged file downloads between agent and client |

## How the model is built

A write transaction is one step of a transition system: it commits a new state or is refused
and changes nothing. Work that the program spreads over several transactions (loading a
credential and committing a login, the three phases of a bootstrap claim, the two reads of a
provisioning snapshot, the read and the write of a session check) is several steps, and all
interleavings are covered; results about session checks that run undisturbed say so. `Run` folds a step function over a list of steps, and the main
theorems hold for every list.

Beside each step function stands a class whose methods carry out the same transaction
statement by statement, with rollback where the source rolls back; each method is proved to
end in exactly the state, and give exactly the answer, that the step function prescribes. The
theorems about runs are therefore theorems about those methods. What a step must not do is said
by the invariants over runs; what it must do is said, without reference to its definition, by
the lemmas named "...IsExact", "...Iff" and "...TakesEffect": when it takes effect, and what then
holds.

Identifiers are natural numbers of which only equality matters, except where their text does
(host names, idempotency keys). Times are integers in nanoseconds; stored timestamps are
taken to keep their order and value. New identifiers, the clock, random tokens and the
answers of tables outside a model are parameters. Assumed from the schema: live domain names
are unique, a capability digest is unique for ever, one open capability and one pending
rotation per user (partial unique indexes), primary keys. A few fields exist only to say what
happened (an origin of a session, the intents of past revisions, the order of promotions);
their comments say so and no transaction decides by them.

## Where the code and a promise part

- `docs/domain-records.md` (lines 26-30) and the schema comment in migration 003 (lines 84-85)
  say that a live row reserves both its name and the "www" alias. Normalisation strips one
  leading "www." label only, so a request with a doubled label stores a name that is another
  row's alias. `DoubledWwwSharesAlias` shows this for every base name; `CreateExclusiveIff`
  gives the exact condition under which a creation keeps every host with one owner, and
  `SingleWwwMakesHostsExclusive` shows that requests without a doubled label are always safe.
- Target preparation is there to refuse a redirect that would loop to its own domain
  (`internal/core/domain.go` lines 1028-1032). It compares the port text after dropping "443"
  only, while "0443" is accepted and names the same port. `LoopAdmittedIffMisspelled` proves that
  a looping redirect is let through if and only if its port is the default one with leading
  zeros, `PaddedPortLoops` that this happens for every name, and `UsualSpellingNeverLoops` that
  otherwise no reachable target loops.
- A certificate order sorts the names it read and compares them with the stored names, which are
  a name followed by its "www" alias (`internal/core/tls_certificate.go` lines 72-73 and 139).
  `OrderableIffNameSortsFirst` proves that an order can succeed if and only if the name sorts
  below its alias; `LateNamesAreNeverOrdered` gives the family for which it never can,
  `WaitingIsReachable` shows that such domains come to wait for a certificate, and
  `ReachableCertificatesAreInNameOrder` that none ever holds one.
- `docs/password-authentication-and-sessions.md` (lines 71-73) promises expiry after 30 minutes of
  inactivity, with activity written back at most once a minute. That update is not guarded by time
  (`internal/core/authentication.go` lines 577-581), and the time is taken before the row is read.
  A touch that waited for the writer can therefore move the last-seen time back and let a session
  in use expire (`LateTouchExample`: three and a half minutes after an accepted request;
  `LateTouchBreaksPromise` for every such touch). `PromiseKeptIff` gives the exact condition under
  which the next request less than 29 minutes after any activity is let through, and
  `InOrderStaysAbreast` shows that it holds as long as no touch lands behind a later one. An expiry
  that was noticed is not yet final either (`NoticeIsNotFinal`); the write that revokes is
  (`RevocationIsFinal`).
- The same document (lines 60-61) says that a concurrent password change prevents a session from
  being issued. That holds of the password step (`NoStaleSession`). A challenge that a login with
  the former password left open survives the change, and the second step does not read the
  credential (`internal/core/authentication.go` lines 292-435).
  `ChangedPasswordStillCompletes` shows the family; `TwoStepSessionCurrentIff` proves that a living
  session of a two-step login rests on the present password if and only if that password was not
  changed between its steps.
- Verification of the audit log checks every visible event, and a checkpoint of the head is to
  catch a removed tail (`internal/core/audit.go` lines 200-201). What they pin is what was hashed:
  `CheckpointPinsEncodings` needs a collision-free hash only, and
  `RewriteDetectedIffEncodingDiffers` says exactly which rewritten rows are noticed. The JSON
  encoder compacts the embedded details, so a blank slipped into stored details is not among
  them (`BlankGoesUndetected`).
- The comment on the provisioning scan says that deterministic keys make repeated scans safe.
  The stored operation is also compared by actor, so a scan is refused at an account whose
  current key was queued on somebody's behalf, and nothing behind it is queued.
  `RequestedAccountStopsScan` shows the family and `RequestedAccountIsReachable` a run that leads
  there; `RepeatedScan` proves that scans are safe if and only if no listed account is in that
  position, and `SystemRequeueIsIdle` that the system never adds to a key it queued before.
- A limit of `n` attempts per window is `2n - 1` in an arbitrary interval of that length.
  `RowBound` and `PolicyBound` prove the bound for what a policy admits, alone and inside any run,
  and so for what is authorized. `GlobalBoundIsAttained` shows that runs reach it for all attempts
  together, `SourceBoundIsAttained` that one source reaches it when the global limit is at least
  twice the source's, and `ConfiguredBoundsAreAttained` that both limiters of the program do.
  `AnchoredWindowBound` proves that a window counted from its first attempt admits at most `n`.
- The cache's size bound needs a positive limit, and its eviction uses the empty string for
  "none": `NoRoomNoBound` covers the first, and `Cache.Execute` requires non-empty keys, which
  request validation guarantees.

## Model

| member | source | states |
|---|---|---|
| `HostNames.LikeDecidesUnder` | internal/core/domain.go:1141-1175 | on stored names the SQL pattern '%.' followed by a name matches exactly the proper subdomains of that name |
| `HostNames.AncestorsComparable` | internal/core/domain.go:1133-1180 | two names above one host are equal or one lies above the other |
| `HostNames.SortedIsOrdered` | internal/core/tls_certificate.go:72-73 | sorting puts names in order and keeps each as often as it occurs |
| `HostNames.PairSorted` | internal/core/tls_certificate.go:72-139 | a pair of names is the sorted form of some list if and only if it is in order |
| `DomainRouting.ReplaceRows` | internal/core/domain.go:316-351 | a replaced target supersedes the old row, makes the new one current and touches no other table but TLS and certificates |
| `DomainRouting.NoConflictJoins` | internal/core/domain.go:1133-1180 | passing the two wildcard queries means that no other live wildcard is at or above the name and, for a wildcard, no other live domain is below it |
| `DomainRouting.ReachableInv` | internal/core/domain.go:38-707 | after any run: one unsuperseded target per domain, unique live names, no live domain below another live wildcard |
| `DomainHosts.WildcardsAreDisjoint` | internal/core/domain.go:1133-1180 | after any run no live domain lies below a live wildcard and no host lies below the wildcards of two domains |
| `DomainHosts.SharedHostIsAlias` | internal/core/domain_normalization.go:74-83 | if two live rows claim one host, one row's name is the other's "www" alias |
| `DomainHosts.ExclusiveIffNoAliasClash` | docs/domain-records.md:26-30 | after any run every host has at most one owner if and only if no live name is another live row's alias |
| `DomainHosts.CreateExclusiveIff` | internal/core/domain.go:38-212 | a committed creation keeps hosts exclusive if and only if its alias was free in both directions |
| `DomainHosts.OtherStepsKeepExclusive` | internal/core/domain.go:222-707 | no other transaction can give a host a second owner |
| `DomainHosts.SingleWwwMakesHostsExclusive` | internal/core/domain_normalization.go:74-83 | if no request doubles the "www" label, every host has at most one owner after any run |
| `DomainHosts.DoubledWwwSharesAlias` | internal/store/migrations/003_domain_records.sql:84-88 | for every base name, registering it and its doubled form gives the alias two owners |
| `DomainRedirects.LoopAdmittedIffMisspelled` | internal/core/domain.go:1005-1033 | for every request, preparation refuses a target if and only if it is malformed, or leads to its own host on port 443 by number and spells the port "" or "443"; an accepted target loops exactly when the request did |
| `DomainRedirects.MisspelledIffPadded` | internal/core/domain_normalization.go:146-155 | the other spellings of the default port are exactly those with leading zeros |
| `DomainRedirects.ReachableTargets` | internal/core/domain.go:952-1037 | whatever preparation ensures of every requested target holds of every target row after any run |
| `DomainRedirects.ReachableLoopsAreMisspelled` | internal/core/domain.go:1028-1032 | after any run a target that leads back to its own domain has a padded port |
| `DomainRedirects.UsualSpellingNeverLoops` | internal/core/domain.go:1028-1032 | if no request pads the default port, no target of any reachable state leads back to its own domain |
| `DomainRedirects.PaddedPortLoops` | internal/core/domain_normalization.go:146-155 | for every name, a creation that redirects it to itself on a padded default port commits and is current |
| `DomainTls.ReachableTls` | internal/core/domain.go:1343-1451 | after any run each TLS row has exactly the names and challenge its current target calls for (RFC 8555 sections 8.3 and 8.4), its status agrees with its certificate reference, and the active certificates are exactly the referenced ones |
| `DomainTls.IntentChangesIffWildcard` | internal/core/domain.go:1394-1441 | in consistent rows the stored intent differs from the new one exactly when the wildcard flag flips |
| `DomainTls.ReplaceRetiresIffWildcardFlips` | internal/core/domain.go:1383-1441 | a replaced target retires the active certificate and resets issuance if and only if the wildcard flag flips; other certificates stay |
| `DomainTls.ActivateKeepsTls` | internal/core/tls_certificate.go:441-560 | activating a staged certificate keeps one active certificate per domain, the referenced one, covering the intended names |
| `DomainTls.OrderKeepsTls` | internal/core/tls_certificate.go:29-211 | placing an order, with whatever names were read and then sorted, keeps intent, status and certificates consistent |
| `DomainCertificates.OrderableIffNameSortsFirst` | internal/core/tls_certificate.go:72-142 | after any run, a first order for an active domain that waits for one can succeed if and only if the name sorts below its "www" alias |
| `DomainCertificates.LateNamesAreNeverOrdered` | internal/core/tls_certificate.go:139-142 | for a name that starts after "w" every first order is refused, in every reachable state |
| `DomainCertificates.WaitingIsReachable` | internal/core/domain.go:655-707 | for every name a run of four transactions leaves the domain active and waiting for its first certificate |
| `DomainCertificates.ReachableCertificatesAreInNameOrder` | internal/core/tls_certificate.go:72-190 | after any run every certificate, of a first order or a renewal, covers exactly its domain's name and alias, and the name sorts below the alias |
| `DomainReplay.NextHistory` | internal/core/domain.go:1505-1524 | a step changes no recorded correlation, adds at most its own, and never alters or revives a target row |
| `DomainReplay.RecordedIsFinal` | internal/core/domain.go:1464-1503 | once an operation is recorded, every further step carrying it changes nothing and is answered as done only if it is the recorded mutation |
| `DomainReplay.RedeliveryInvisible` | internal/core/domain.go:1464-1524 | a step whose operation was committed earlier can be inserted anywhere later in any run without effect |
| `DomainReplay.DeduplicationIsExact` | internal/core/domain.go:1464-1524 | a run with any repeats ends in the state of the run that keeps only each operation's first successful delivery |
| `DomainReplay.OneDeliveryEach` | internal/core/domain.go:1464-1524 | that reduced run holds at most one delivery of each operation |
| `DomainReplay.ConfirmAllExact` | internal/core/domain.go:671-693 | the confirmation loop activates exactly the pending domains listed with their current target and changes nothing else |
| `DomainReplay.ActivationIffConfirmed` | internal/core/domain.go:655-707 | a step activates a domain if and only if it is an admissible confirmation of its current target under the active revision |
| `DomainReplay.StaleNeverActivates` | internal/core/domain.go:657-702 | confirmations of superseded targets never activate the domain, however late they come and whatever else happens |
| `DomainReplay.ReachableApplied` | internal/core/applied_state.go:57-177 | after any run at most one revision per account is active, one row per operation, and revisions only ever become inactive |
| `DomainReplay.SupersededRevisionConfirmsNothing` | internal/core/domain.go:657-670 | once an operation's revision was superseded, confirmations in its name change nothing for ever |
| `DomainLifecycle.StatusChangesAreLegal` | internal/core/domain.go:447-617 | every step keeps a row's owner and name and changes its status only as the lifecycle allows: to active by confirmation, to suspended and back, to pending by an edit, to removed from any live status |
| `DomainLifecycle.RemovalIsFinal` | internal/core/domain.go:532-617 | over any run a removed domain stays removed |
| `DomainLifecycle.CreateStaysWithinPackage` | internal/core/domain.go:115-131 | a committed creation leaves the account within its package's number of domains and kinds of target |
| `DomainIsolation.AccountsAreIsolated` | internal/core/domain.go:38-707 | after any run, nothing one account requests touches any row of another account's domain |
| `DomainIsolation.EditIsExact` | internal/core/domain.go:286-420 | an edit sets what it names, keeps the rest, moves the cache to a new namespace and makes an unsuspended domain pending |
| `DomainEffects.StatusRequestIsExact` | internal/core/domain.go:459-617 | after any run, a suspension, resumption or removal that is not a repeat is answered as done if and only if the account has limits, owns the domain and the domain has a status to start from; then that row alone has the new status, and a removal also turns its TLS off and retires its active certificate |
| `DomainEffects.RemovalFreesName` | internal/core/domain.go:532-617 | after any run, a committed removal leaves the domain's name free and no certificate of it active |
| `DomainEffects.FirstDelivery` | internal/core/domain.go:1464-1524 | a step that is not a repeat commits exactly if its operation is the account's and its effect goes through, and is then recorded |
| `DomainEffects.ReachableMutationsOwned` | internal/core/domain.go:1464-1524 | after any run every recorded mutation belongs to the account of its operation |
| `DomainRequests.ConflictIffNotClear` | internal/core/domain.go:1133-1180 | the two wildcard queries find a conflict exactly when a live route or the new one is at or below the other's wildcard |
| `DomainRequests.CreationIsExact` | internal/core/domain.go:38-212 | after any run, a creation that is not a repeat commits if and only if the request is well posed, the account has room, package and files permit the target, the identifiers are new and the route joins all live ones; then exactly the requested rows are there |
| `DomainRequests.EditTakesEffect` | internal/core/domain.go:222-445 | after any run, an edit that is not a repeat commits if and only if it names something, the account owns the domain, which is not removed, and what it names fits package, cache rules and live routes; it then changes what it names, of this domain only |
| `DomainRequests.OrderCommitsIff` | internal/core/tls_certificate.go:64-165 | an order goes through exactly for an active domain with HTTP-01 issuance on, its stored names, and when a first certificate or a renewal is due |
| `DomainRequests.OrderLeaves` | internal/core/tls_certificate.go:166-211 | it adds one certificate for the stored names and marks the issuance, and changes nothing else |
| `DomainRequests.ActivationIsExact` | internal/core/tls_certificate.go:441-560 | after any run, an activation commits if and only if the certificate is the domain's active one, which changes nothing, or staged for the names intended now with TLS on; it then replaces the former one |
| `DomainRequests.StageAndFailAreExact` | internal/core/tls_certificate.go:362-619 | staging moves an ordering certificate, failing an enabled issuance, and nothing else |
| `DomainStore.Repository.CreateDomain` | internal/core/domain.go:38-212 | the creation transaction ends as the transition system prescribes, and a refusal leaves no trace |
| `DomainStore.Repository.UpdateDomain` | internal/core/domain.go:222-445 | the same for the edit transaction |
| `DomainStore.Repository.ReplaceCurrentTarget` | internal/core/domain.go:316-351 | supersede, insert and refresh in order equal the replacement of the model |
| `DomainStore.Repository.RefreshTlsIntent` | internal/core/domain.go:1383-1441 | two conditional updates with the same comparison equal one conditional refresh |
| `DomainStore.Repository.ChangeDomainStatus` | internal/core/domain.go:459-530 | suspension and resumption with their guarded update and correlation row |
| `DomainStore.Repository.RemoveDomain` | internal/core/domain.go:532-617 | removal, correlation row, certificates and TLS row in the source's order |
| `DomainStore.Repository.ValidateExpectations` | internal/core/domain.go:635-650 | the scan with a seen-set accepts exactly lists of at most 10,000 expectations with distinct domains |
| `DomainStore.Repository.ConfirmDomainActivation` | internal/core/domain.go:619-707 | the loop ends in the prescribed state and returns the number of domains it activated |
| `AppliedState.RecordingActivates` | internal/core/applied_state.go:57-177 | a recording leaves exactly one active revision for the account, the requested one, keeps other accounts and all history |
| `AppliedState.ReplayIsExact` | internal/core/applied_state.go:79-138 | re-recording the active operation with equal content is a no-op; a superseded one or other content conflicts |
| `AppliedState.RecordingIff` | internal/core/applied_state.go:57-177 | a recording is answered if and only if account and desired state exist, the operation is the account's, and it has produced this very revision, still active, or nothing yet while the identifier is new |
| `AppliedState.Store.Record` | internal/core/applied_state.go:57-177 | the transaction equals the model and keeps its invariant |
| `ResponseCache.SizeBounded` | internal/agentrpc/handler.go:1743-1748 | the cache never holds more entries than its limit |
| `ResponseCache.NoRoomNoBound` | internal/agentrpc/handler.go:1743-1745 | with a limit below one the bound fails at the first stored response |
| `ResponseCache.AnswersAreExact` | internal/agentrpc/handler.go:1721-1750 | every call is answered by a conflict or a replay if its key is there unexpired, and otherwise with the status and response of its own execution; only responses below 500 are kept |
| `ResponseCache.ReplayIsFaithful` | internal/agentrpc/handler.go:1731-1738 | a replay returns status and response of the latest stored execution under the key, with the same digest and only the request identifier exchanged |
| `ResponseCache.ConflictIsGenuine` | internal/agentrpc/handler.go:1732-1734 | a conflict is reported only against a live execution of the key with another digest |
| `ResponseCache.ReexecutionExplained` | internal/agentrpc/handler.go:1721-1772 | for any clock, a second execution under a key follows an expiry or an eviction from a full cache of entries that expire no earlier |
| `ResponseCache.ExecutedOnce` | internal/agentrpc/handler.go:1721-1772 | with a clock that never goes back, a stored command is not executed again before its time to live unless `limit` other keys were stored since |
| `ResponseCache.Cache.Prune` | internal/agentrpc/handler.go:1752-1758 | deleting while walking the map in any order leaves exactly the unexpired entries |
| `ResponseCache.Cache.EvictOldest` | internal/agentrpc/handler.go:1760-1772 | the minimum search in any order removes one entry with the earliest expiry |
| `ResponseCache.Cache.Execute` | internal/agentrpc/handler.go:1721-1750 | one call extends the cache's history by one step of the model |
| `RateLimit.CleanupIsInvisible` | internal/core/authentication.go:820-822 | deleting day-old rows never changes any present or later answer of the limiter |
| `RateLimit.AuthorizationTidies` | internal/core/authentication.go:820-822 | after an authorized attempt no row but the global one is older than a day, and no younger one is lost |
| `RateLimit.RowBound` | internal/core/authentication.go:834-889 | over any attempts in time order, one policy admits at most `2 * limit - 1` in any interval as long as its window |
| `RateLimit.RunProjects` | internal/core/authentication.go:791-832 | seen from one policy, a run of the limiter is the sequence of the attempts that reach its row: same row, same admissions |
| `RateLimit.PolicyBound` | internal/core/authentication.go:791-889 | in any run and any interval as long as its window, the global and each source policy admit at most `2 * limit - 1` attempts, also counting those a later check refuses, and no more are authorized |
| `RateLimit.AnchoredWindowBound` | internal/core/authentication.go:863-889 | a window counted from its first attempt admits at most `limit` |
| `RateLimit.RowBoundIsAttained` | internal/core/authentication.go:834-889 | for every policy some attempts in time order reach the bound of `RowBound` |
| `RateLimit.GlobalBoundIsAttained` | internal/core/authentication.go:791-889 | for every configuration a run reaches the bound of `PolicyBound` for all attempts together |
| `RateLimit.SourceBoundIsAttained` | internal/core/authentication.go:791-889 | a run reaches it for one source if the global limit is at least twice the source's |
| `RateLimit.ConfiguredBoundsAreAttained` | internal/core/bootstrap.go:38-43 | runs of the two configured limiters reach it: 239 and 19 logins a minute, 59 and 9 bootstrap attempts |
| `RateLimit.WaitIsExact` | internal/core/authentication.go:834-889 | on one row, earlier retries are refused with exactly the remaining time and the first retry at or after the announced time is admitted |
| `RateLimit.RunWaitIsExact` | internal/core/authentication.go:791-889 | in any run, cleanup included, a policy's refusal is answered with its waiting time; until then every attempt that reaches the policy is refused with exactly the remainder, and the first one after it is admitted by it |
| `RateLimit.ConfigurationsAreSane` | internal/core/bootstrap.go:38-43 | the login and bootstrap policies meet the hypotheses of these theorems |
| `RateLimit.FifthFailureBlocks` | internal/core/authentication.go:912-955 | failures within one window block the identity exactly from the fifth on, for fifteen minutes after the last |
| `RateLimit.AuthorizedIff` | internal/core/authentication.go:791-832 | in any run an attempt is authorized if and only if both policies admit it and its identity is not blocked; if both admit it the answer is the identity's remaining block |
| `RateLimit.FailuresBlockAttempts` | internal/core/authentication.go:812-955 | in any run, cleanup included, an identity is blocked exactly from the fifth failure of a window on, counted since its last success, until fifteen minutes after the last; attempts meanwhile are refused, and told the exact remainder if both policies admit them |
| `RateLimit.SuccessEndsBlock` | internal/core/authentication.go:229-233 | after a success and until the next failure the policies alone decide |
| `RateLimit.Limiter.ApplyAttemptLimit` | internal/core/authentication.go:834-889 | the transaction on one row equals the model |
| `RateLimit.Limiter.AuthorizePasswordAttempt` | internal/core/authentication.go:791-832 | the loop over policies, the identity check and the cleanup equal one step of the model |
| `RateLimit.Limiter.IdentityBlocked` | internal/core/authentication.go:891-910 | the remaining block of an identity |
| `RateLimit.Limiter.RecordIdentityLoginFailure` | internal/core/authentication.go:912-955 | counting a failed password equals the model |
| `Sessions.IdleIsExactToTheMinute` | internal/core/authentication.go:561-598 | over any run of undisturbed requests, an admissible one less than 29 minutes after the last accepted one is accepted, for any clock; with a forward clock one 30 minutes or more after it is not |
| `Sessions.ClosedForCause` | internal/core/authentication.go:561-598 | in a run of undisturbed requests a session is closed only by a revocation or by a request at its absolute expiry or at least 29 minutes after the last accepted one |
| `Sessions.ExpiryIsFinal` | internal/core/authentication.go:567-577 | in a run of undisturbed requests, after an expiry was noticed or the session was revoked no later request is accepted |
| `Sessions.NeverPastAbsoluteExpiry` | internal/core/authentication.go:562-563 | no undisturbed request is accepted at or after the absolute expiry (overlapping ones: `OverlapNeverExtendsIdle`) |
| `Sessions.ServedIff` | internal/core/authentication.go:553-598 | an undisturbed request is accepted if and only if the session is open, the identity active, the CSRF proof good and neither expiry reached; what it does to the row is stated for every case |
| `Sessions.AcceptedWereAdmitted` | internal/core/authentication.go:553-598 | however requests overlap, every accepted one was read from an open, unexpired session with an active identity and a good proof |
| `Sessions.UnprovenChangesNothing` | internal/core/authentication.go:573-575 | a request without proof or active identity is never accepted and never recorded as seen, whenever it is written |
| `Sessions.NewSessionsLast` | internal/core/authentication.go:148-155 | a new session admits its first request for 30 minutes and, however requests overlap, none at or after twelve hours |
| `Sessions.LogoutCloses` | internal/core/authentication.go:606-650 | a revocation closes the session for good, whatever requests are under way |
| `Sessions.AcceptedPassesGate` | internal/core/authorization.go:294-297 | an accepted request passes the session part of the authorization gate at the same instant |
| `Sessions.OverlapNeverExtendsIdle` | internal/core/authentication.go:474-604 | however requests overlap, each accepted one comes before the absolute expiry and less than the idle time after the login or an earlier accepted request |
| `Sessions.RevocationReachesLaterReads` | internal/core/authentication.go:957-985 | a request that reads the session after it was revoked, by logout or by an expiry, is never accepted, whatever interleaves |
| `Sessions.Session.Read` | internal/core/authentication.go:474-598 | the read phase and its checks decide as the model does |
| `Sessions.Session.Write` | internal/core/authentication.go:570-604 | the guarded write, on the row as it is by then, ends as the model prescribes |
| `Sessions.Session.Authenticate` | internal/core/authentication.go:474-604 | the two phases in a row are one step of an undisturbed run |
| `SessionOverlap.InOrderStaysAbreast` | internal/core/authentication.go:577-598 | however requests overlap, as long as no touch lands behind a later last-seen time, that time stays less than a minute behind every accepted request and every pending one that will not touch |
| `SessionOverlap.PromiseKeptIff` | internal/core/authentication.go:561-577 | in any state, every request less than 29 minutes after some activity is let through if and only if no activity is more than a minute ahead of the last-seen time, or the session ends first anyway |
| `SessionOverlap.OverlapIdleIsExactToTheMinute` | internal/core/authentication.go:474-604 | for a request whose read and write lie anywhere in a run: without late touches before its read it is accepted within 29 minutes of some activity unless the session is revoked meanwhile, and it is accepted only within 30 minutes of one before its read |
| `SessionOverlap.OverlapClosedForCause` | internal/core/authentication.go:561-598 | without late touches, a session is closed or about to be only after a revocation or the read of a request at the absolute expiry or at least 29 minutes after every activity |
| `SessionOverlap.RevocationIsFinal` | internal/core/authentication.go:957-985 | over any run a revoked session stays revoked, and all it still accepts are requests read before that needed no write |
| `SessionOverlap.LateTouchBreaksPromise` | internal/core/authentication.go:577-581 | after any run, a touch that lands more than a minute behind an accepted request lets a later request within 29 minutes of it close the session |
| `SessionOverlap.LateTouchExample` | internal/core/authentication.go:577-581 | a touch of minute 1 that lands after one of minute 28 closes the session at 31:30 |
| `SessionOverlap.NoticeIsNotFinal` | internal/core/authentication.go:567-572 | a request can be accepted after another one noticed the expiry and before that one revokes |
| `Logins.NoStaleSession` | internal/core/authentication.go:104-247 | under every interleaving an unrevoked password session was verified with the present credential of an identity without a second factor, and a second-factor session with the present factor |
| `Logins.TwoStepSessionCurrentIff` | internal/core/authentication.go:265-453 | over any run, a living session of a two-step login, opened with the password of that moment, rests on the present password if and only if it was not changed between the two steps |
| `Logins.UnchangedMeanwhile` | internal/core/identity.go:122-192 | nothing but setting it changes an identity's password, over any stretch of a run |
| `Logins.ChangedPasswordStillCompletes` | internal/core/authentication.go:292-435 | for any identity and passwords, a login started before a password change completes after it with a living session |
| `Logins.ChallengesStayBounded` | internal/core/authentication.go:265-453 | at most one open challenge per identity, at most five attempts and at most one session per challenge |
| `Logins.ConsumedIsFinal` | internal/core/authentication.go:292-310 | a challenge once consumed never leads anywhere again |
| `Logins.CodesAreSingleUse` | internal/core/totp.go:108-607 | each time step and each recovery code of a factor is accepted at most once over any run of logins, enrollment starts, activations and removals |
| `Logins.SessionsAreEarned` | internal/core/authentication.go:157-435 | after any run every session goes back to a step that found it earned: a login whose loaded credential was still current and needed no second factor, an open, unexpired challenge with an accepted code, or direct creation |
| `Logins.LoginRotates` | internal/core/authentication.go:761-789 | over any run, the session that a login names, in its first step or through its challenge, is revoked for ever once the login has its own |
| `LoginEffects.SecondStepIsExact` | internal/core/authentication.go:292-435 | the second step creates its session if and only if the challenge is open with time and attempts left, the attempt not limited, the identity active and the code good; a bad code costs an attempt, and what else uses a challenge up is stated for every case |
| `LoginEffects.AttemptsCountRefusals` | internal/core/authentication.go:360-372 | over any run a challenge has counted exactly the codes that were refused |
| `LoginEffects.FiveGuessesAtMost` | internal/core/authentication.go:360-372 | over any run a challenge stands at most five refused codes, and the fifth uses it up |
| `LoginEffects.PasswordStepIsExact` | internal/core/authentication.go:157-247 | with a loaded credential that is still current the password step creates a session without a second factor, and otherwise a fresh five-minute challenge in place of all others |
| `LoginEffects.RevocationLasts` | internal/core/identity.go:140-175 | over any run a session that was revoked, or whose identity's password or factor was set, never revives |
| `LoginEffects.DisableIsExact` | internal/core/totp.go:380-452 | a factor is removed only with a code it accepts, and then with every session of the identity |
| `LoginEffects.IdentityStepsAreExact` | internal/core/identity.go:122-192 | setting activity, password or factor changes just that; the activating code of a factor is spent and its recovery codes are good |
| `LoginEffects.LoadAndCreateAreExact` | internal/core/authentication.go:663-712 | a login loads the present credential of an active identity, and no other |
| `LoginEffects.BeginIsExact` | internal/core/totp.go:108-215 | starting a replacement takes a code the factor accepts, and uses it up |
| `Logins.Repository.SetPasswordCredential` | internal/core/identity.go:122-192 | replacing the credential revokes every session of the identity in the same transaction |
| `Logins.Repository.CommitPasswordLogin` | internal/core/authentication.go:157-261 | the committing transaction equals the model and creates at most one session or challenge |
| `Logins.Repository.CompleteMfaLogin` | internal/core/authentication.go:265-453 | the second step equals the model and succeeds exactly when a code was accepted |
| `Bootstrap.ClaimedAtMostOnce` | internal/core/bootstrap.go:126-408 | under every interleaving at most one capability is open, at most one claim succeeds, it consumed a matching capability that was unexpired, and its identity is an administrator |
| `Bootstrap.RunKeepsHistory` | internal/store/migrations/005_administrator_bootstrap.sql:41-61 | a capability keeps digest and lifetime for ever and ends at most once |
| `Bootstrap.KnownDigestChangesNothing` | internal/core/bootstrap_digest.go:81-169 | registering a digest that was ever registered changes nothing; it succeeds exactly for an import of the open, unexpired digest, and reports the original lifetime |
| `Bootstrap.AdministratorsEndBootstrap` | internal/core/bootstrap_digest.go:88-95 | once an administrator exists nothing can be registered or claimed any more |
| `Bootstrap.NewDigestIsExact` | internal/core/bootstrap_digest.go:81-169 | after any run, a digest never registered before is registered if and only if the request is valid, there is no administrator and no capability in the way; it is then open for the time asked for, and the one before it closed for its reason |
| `Bootstrap.ClaimPhasesAreExact` | internal/core/bootstrap.go:282-373 | after any run, a claim is let through exactly while its digest is that of the open, unexpired capability; an expired one is closed |
| `Bootstrap.ClaimIsExact` | internal/core/bootstrap.go:195-262 | a claim makes its identity the one administrator if and only if it was validated, its capability is still usable, and identity and address are free; the capability is then consumed in its name |
| `Bootstrap.IdentitiesAndRolesAreExact` | internal/core/identity.go:14-310 | outside a claim an identity needs a free identifier and address, and the role an identity |
| `Bootstrap.BootstrapSucceeds` | internal/core/bootstrap.go:126-279 | registering any digest, authorizing, validating and committing makes any identity the administrator |
| `Bootstrap.Repository.RegisterDigest` | internal/core/bootstrap_digest.go:68-169 | the registration transaction with its rollback equals the model |
| `Bootstrap.Repository.AuthorizeAttempt` | internal/core/bootstrap.go:282-373 | the first phase of a claim equals the model and closes an expired capability |
| `Bootstrap.Repository.CommitClaim` | internal/core/bootstrap.go:195-279 | the last phase of a claim equals the model |
| `Hosting.ReachableCore` | internal/core/account.go:391-513 | after any run each account has one unsuperseded assignment, both intents ask for its limits, and an applied intent is applied as desired |
| `Hosting.ReadyMeansCurrentLimits` | internal/core/hosting_reconcile.go:14-34 | a host-ready account runs with exactly the limits of its one current assignment, whatever stale or repeated confirmations came |
| `Hosting.UidsAreDistinct` | internal/core/account.go:77-87 | allocated numeric identities are distinct and inside the reserved range |
| `HostingEffects.RevisionsCountPublications` | internal/core/package.go:14-199 | over any run a package's revision is the number of times it was published |
| `HostingEffects.PublicationIsExact` | internal/core/package.go:95-199 | a publication sets the limits offered from then on, and nothing else |
| `HostingEffects.OpeningIsExact` | internal/core/account.go:68-189 | after any run, an account is opened if and only if its package exists, its identifiers are new and the number is the next free one of the range; it then asks for the package's limits with none applied |
| `HostingEffects.AssignmentIsExact` | internal/core/account.go:391-513 | after any run, an assignment takes effect if and only if the account exists unarchived, the package exists, its present revision is not assigned already and the identifier is new; both intents then ask for its limits under new revisions and the account is not ready |
| `HostingEffects.ConfirmationsAreExact` | internal/core/hosting_filesystem.go:85-109 | a confirmation marks what is desired as applied, exactly for the present revision and a known operation |
| `HostingEffects.BlocksAreExact` | internal/core/hosting_resources.go:127-181 | a block is recorded exactly for the present revision and a known operation |
| `HostingEffects.StatusAndOperationsAreExact` | internal/core/operation.go:111-184 | a new operation of any kind is known to its account; a change of status touches only the account's status |
| `HostingEffects.UidsInRange` | internal/core/account.go:77-87 | after any run every number lies between 200,000 and 249,999 |
| `Hosting.Repository.CreateHostingAccount` | internal/core/account.go:68-189 | the creation transaction equals the model, with the next free number, and reports success exactly if it changed something |
| `Hosting.Repository.AssignPackageRevision` | internal/core/account.go:391-513 | superseding, inserting and revising both intents equals the model, and succeeds exactly for an unarchived account with a present assignment to another revision; a refusal leaves no trace |
| `Hosting.Repository.ConfirmFilesystemApplied` | internal/core/hosting_filesystem.go:85-109 | the guarded update takes effect exactly for the present revision and an operation of the account, of whatever kind |
| `Hosting.Repository.ConfirmResourcesApplied` | internal/core/hosting_resources.go:90-117 | the same for resource limits |
| `Provisioning.HostKeyInjective` | internal/accountprovisioning/service.go:142-143 | the idempotency key determines the account and both revisions |
| `Provisioning.ReachableQueue` | internal/accountprovisioning/service.go:96-149 | after any run every snapshot, also one read in two halves, and every queued payload holds the intents of its own revisions |
| `Provisioning.EqualKeysEqualSnapshots` | internal/accountprovisioning/service.go:96-143 | two snapshots with equal keys, each read in halves anywhere in a run, are equal |
| `Provisioning.EnqueueRefusedIffOtherActor` | internal/core/operation.go:111-127 | queueing is refused if and only if the key is taken by an operation of another actor; payloads never differ |
| `Provisioning.AppliedIsWhatWasSent` | internal/core/hosting_filesystem.go:85-109 | a confirmation for an operation's revisions records exactly what was sent to the host, and for superseded revisions nothing |
| `Provisioning.RepeatedScan` | internal/accountprovisioning/service.go:79-94 | after any run, a scan of any accounts stops exactly at the first claimed one; without one it queues all, and repeating it adds nothing |
| `Provisioning.SystemRequeueIsIdle` | internal/core/operation.go:111-127 | whatever happens in between, queueing a key that the system queued before succeeds and adds nothing |
| `Provisioning.RequestedAccountStopsScan` | internal/accountprovisioning/service.go:79-94 | an account queued on an actor's behalf stops every later scan that reaches it |
| `Provisioning.RequestedAccountIsReachable` | internal/accountprovisioning/service.go:62-94 | creating any account and queueing it for an actor leaves it in need of reconciliation and stops every scan that starts with it |
| `Provisioning.ReadyIffNothingToDo` | internal/core/hosting_reconcile.go:14-70 | in any state an account is ready if and only if it is active with all rows, nothing is blocked and the repair list does not select it |
| `Provisioning.ReconcilingMakesReady` | internal/core/hosting_reconcile.go:14-34 | reconciling the host identity and confirming both present revisions makes any active account ready |
| `Provisioning.Service.QueueSnapshot` | internal/accountprovisioning/service.go:96-149 | reading the account's rows, building key and payload and creating the operation equals the model; missing rows are refused |
| `Provisioning.Service.QueuePending` | internal/accountprovisioning/service.go:81-94 | the loop, which reads each account's rows when it gets there, equals the model's scan |
| `Decimal.ParseCanonicalExact` | internal/agentclient/client.go:849-855 | the canonical parse accepts exactly the printed form of 64-bit numbers and inverts it |
| `Audit.RowRoundTrip` | internal/core/audit.go:131-176 | what is hashed when a row is read back is what was hashed when it was written |
| `Audit.BuiltLogsVerify` | internal/core/audit.go:64-198 | every log built by appends verifies |
| `Audit.AppendExtends` | internal/core/audit.go:119-176 | an append succeeds exactly for payloads that can be encoded, keeps every row, and adds one that reads back as the event and is linked to the old head |
| `Audit.LogsReadBack` | internal/core/audit.go:64-198 | a log reads back as the encodable events that were appended, in order |
| `Audit.PrefixValid` | internal/core/audit.go:200-201 | every prefix of a valid log is valid |
| `Audit.HeadDeterminesEncodings` | internal/core/audit.go:202-271 | with a hash free of collisions, valid logs of equal length and head agree on every link and every encoding |
| `Audit.CheckpointPinsEncodings` | internal/core/audit.go:200-271 | if also no occurring input hashes to the start value, the head alone determines length, links and encodings |
| `Audit.CheckpointPinsRows` | internal/core/audit.go:200-271 | as far as the encoder tells payloads apart, it determines the rows |
| `Audit.RewriteDetectedIffEncodingDiffers` | internal/core/audit.go:317-330 | a row rewritten with its hashes kept is detected if and only if its encoding differs; the head is the same either way |
| `Audit.BlankGoesUndetected` | internal/core/audit.go:317-330 | an encoder that compacts details lets a blank slipped into stored details pass, in every log and row |
| `Audit.VerifyAuditChain` | internal/core/audit.go:202-271 | the walk accepts exactly the valid logs and otherwise names the first row that does not fit |
| `Audit.AuditTable.AppendEvent` | internal/core/audit.go:64-198 | an append keeps the old rows, adds the event linked to the newest one, and keeps the table valid |
| `Rotation.CredentialsFollowTheBook` | internal/core/database_credential_rotation.go:200-257 | after any run a user's generation is one plus the promotions, the credential is the last promoted candidate or, for a deleted user, blank, promotions follow preparation order with at most one outstanding and only for active users, and issued handoffs belong to the present generation |
| `Rotation.PreparedRotationsComplete` | internal/core/database_credential_rotation.go:203-231 | after any run every prepared rotation can be promoted: its user is neither deleted nor being deleted |
| `Rotation.DeletionIsFinal` | internal/core/managed_database.go:494-620 | over any run a deleted user's row never changes again and its credential stays blank |
| `Rotation.PreparationIsExact` | internal/core/database_credential_rotation.go:64-120 | after any run, a preparation is done if and only if it repeats the same actor's request for the user, which changes nothing, or the user is active with nothing outstanding; its candidate is then the one outstanding |
| `Rotation.PromotionIsExact` | internal/core/database_credential_rotation.go:200-257 | after any run, completing an outstanding rotation makes its candidate the credential of the next generation and revokes exactly the user's outstanding handoffs |
| `Rotation.HandoffsAreExact` | internal/core/phpmyadmin_handoff.go:27-127 | a handoff is issued if and only if the caller may and the user is active, for half a minute and the present generation, in place of the session's others for the user |
| `Rotation.RedemptionIsExact` | internal/core/phpmyadmin_handoff.go:129-224 | a handoff is redeemed if and only if it is outstanding, unexpired and still allowed for an active user |
| `Rotation.UserStepsAreExact` | internal/core/managed_database.go:352-616 | activation and deletion move a user on from its own status, deletion only without grants or rotations |
| `Rotation.PreparingChangesNoCredential` | internal/core/database_credential_rotation.go:64-120 | preparing changes no credential, generation or handoff |
| `Rotation.RepeatsChangeNothing` | internal/core/database_credential_rotation.go:64-80 | repeating a preparation under its key or a completed rotation changes nothing and answers the same operation |
| `Rotation.HandoffsAreSingleUse` | internal/core/phpmyadmin_handoff.go:129-224 | each handoff is redeemed at most once, before it expires, and hands out the credential of the generation it was issued for |
| `Rotation.OneHandoffPerSession` | internal/core/phpmyadmin_handoff.go:93-109 | after any run at most one handoff is outstanding per browser session and database user |
| `Rotation.Repository.PrepareRotation` | internal/core/database_credential_rotation.go:64-120 | the preparing transaction equals the model, also for a key that another kind of operation took |
| `Rotation.Repository.CompleteRotation` | internal/core/database_credential_rotation.go:200-257 | the promoting transaction equals the model |
| `Download.ResolvedIsWanted` | internal/hostfiles/download.go:109-135 | a resolved range is exactly the requested byte positions (section 14.1.2 of RFC 9110), within the file and the limit, and no 64-bit operation wraps |
| `Download.RefusedIff` | internal/hostfiles/download.go:109-135 | a valid range is unsatisfiable exactly when it asks for no byte of the file, and too large exactly when it spans more than the limit |
| `Download.DecodeIffEmitted` | internal/agentclient/client.go:720-751 | the client decodes a tuple if and only if the agent may send it and the headers are the ones the agent emits (section 14.4 of RFC 9110) |
| `Download.RangeTextReadsBack` | internal/agentclient/client.go:740-751 | a Content-Range header splits in one way, into the first and last position and the size in canonical decimals (section 14.4 of RFC 9110) |
| `Download.RangeTextIsWanted` | internal/agentrpc/handler.go:652-689 | the header of a resolved range names exactly the positions that were asked for |
| `Download.EndToEnd` | internal/agentrpc/handler.go:652-689 | whatever range is resolved, the agent's check passes and the client learns exactly the bytes asked for |
| `Download.UnsatisfiedExact` | internal/agentclient/client.go:863-868 | the size in an unsatisfied-range header is read back exactly and nothing else is accepted |

## Left out

- IDNA normalisation, document roots and their resolution, the parsing of redirect URLs into host and port text and their length limit: a name arrives normalised, a root resolves or not, a redirect has a normalised host and a port text.
- Request validators, permissions and the authorization table: wide but with one-branch facts; where a transaction depends on them the answer is a parameter.
- Cryptography: password derivation, TOTP and HOTP values, envelopes and token digests are opaque values compared for equality; the audit hash and encoder are function parameters, and that the encoder compacts details is a hypothesis of the one lemma that needs it.
- Timestamps that no decision reads, reason codes and audit entries written by the other transactions.
- HTTP, sockets, processes, systemd, NGINX and container work on the host, and the web interface.
- The operations worker, its leases and retries; an operation is known by its identifier, account and key.
- The failure limiter of second-factor codes, which is a parameter of the second login step.
- The recent-authentication requirement of some authorized actions.
- `Logins.NoStaleSession`: the match with the present credential covers sessions created by the password step; the second step does not read the credential, which `TwoStepSessionCurrentIff` makes precise, and neither does direct creation.
- `Sessions.Session.Authenticate`: one undisturbed request; `Read` and `Write` are the two transactions, and overlapping ones are covered by the phases of `Sessions` and `SessionOverlap`.
- `Provisioning.Service.QueuePending`: the accounts are the ones the listing query returned, which have all rows; no other transaction runs between two of them, and interleaved ones are covered by `SystemRequeueIsIdle` and the step model of `Hosting`.
- Package updates that are refused for an outdated revision, and archived packages, which no transaction of the program makes; a package of the model is an active one.
- The conditions and cleanup of archiving an account; a step of the model may set any status.
- `Hosting.Repository.CreateHostingAccount`: does not model memberships, user names and home directories.
- `RateLimit.SourceBoundIsAttained`: gives a sufficient relation between the two limits; with a smaller global limit that one may decide first.
- Database provisioning beyond a user's status; whether a user still has grants is a parameter of its deletion.
- `Rotation.HandoffsAreSingleUse`: grants, the browser session and its authorization are one parameter of the redemption.
- `Download.EndToEnd`: the media type, request correlation and modification time headers are not modelled.
