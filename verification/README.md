# Verified model of the router control host

The router control host is a service that enrols routers, keeps their secrets in a vault, applies
and removes VPN tunnels on them, recertifies their identity, and serves a public submission form.
This project models the parts of it whose correctness depends on many steps or many callers, and
proves what holds of every run, every interleaving or every input. Device calls, store calls, the
clock, the resolver and the probes may succeed or fail in any way unless a row says otherwise.

`dafny verify dfyconfig.toml` checks everything.

| files | subject |
|---|---|
| `TunnelStore`, `VpnProtocol`, `VpnInvariants`, `VpnHistory`, `VpnRuns`, `VpnTheorems`, `VpnRoles`, `VpnOutcomes` | activating and deactivating VPN profiles: any number of concurrent requests on one router, each with an unlocked part and a body under the router's lock |
| `ApplyLocks`, `CatalogRemoval` | one-lock requests beside catalog removals that take the routers' locks in sorted order; what these locks keep apart |
| `SlidingWindow`, `SubmitLimiter`, `LimiterTheorems`, `LoginThrottle` | the two rate limiters, against histories that forget nothing |
| `Credentials`, `CredentialTheorems`, `CredentialKeys` | credential put and router enrolment: every exit balances the vault, also when requests overtake each other; idempotency keys |
| `GateAFreshness` | same-tuple recertification: append-only history and deadlines |
| `DnsPool`, `AddressPin` | the bounded resolver pool and the choice of a private address |
| `TextCodec`, `SessionCookie`, `ApiPath` | the session cookie and the path that authorisation sees |
| `FakeWifi`, `ConnectionFields` | the fake Wi-Fi device and the fields of a live connection |

Some properties that one would expect of the code do not hold of it. For each the exact condition
is proved under which the code does meet it, and a run or an input that fails is given:

- An active assignment can name an interface that was torn down after it was written: when the
  clear that follows a successful teardown fails, the request fails and the assignment stays,
  although a comment in the code promises that it does not (`FailedClearLeavesStale`). Among
  teardowns by requests of its own role this is the only way (`StaleExactlyWhenClearFailed`).
- The other way is a request of another role: the guard of a teardown looks at its own role only
  (`OtherRoleCanBeTornDown`, `ActivationTearsOtherRole`). From states whose active assignments all
  name their own interface, no run does this exactly if the clients name no interface for two roles
  (`SafeAcrossIff`). An assignment that rests on profile metadata is not protected by that
  (`MetadataIsUnsafe`, `SafeFromAnyStateIff`).
- The guard of a deactivation resolves the active assignment with the profile metadata of the
  unlocked snapshot. If that metadata changes before the lock is taken, an interface is torn down
  that the assignment no longer resolves to (`MetadataMovesOn`). This cannot happen exactly if the
  assignment names its own interface, as every one written by an activation does
  (`GuardIsCurrentIff`).
- A catalog removal locks the routers of the store's listing, which stops at fifty. A later router
  is not excluded (`RemovalExcludesListed`): it can activate the profile after the removal has
  checked it, and the removal then revokes the secrets of an active assignment before it is refused
  (`ActiveLosesSecrets`). This cannot happen exactly if every router that activates is among the
  first fifty (`SecretsKeptIff`, `SecretsKeptForListed`). That an active assignment names a retired
  profile cannot happen at all (`NeverActiveAndRetired`).
- The resolver pool's comment promises a cap on live threads. A resolver thread is put into the
  pool before it is started; a prune by another caller in between drops it, because it does not
  count as alive yet. Dropping is the only way out of the pool (`UntrackedExactlyIfDropped`), and
  there is a cap exactly if there is one caller at a time (`BoundedIffOneCaller`).
- A slug limit of zero or less does not block: an untracked slug is let through before its limit is
  looked at (`PlainReadingIff`). The host itself sets the limit to 10. A closed interval obeys the
  limits exactly if it is shorter than the window (`ClosedWindowIff`); a half-open one may be as
  long (`LimiterWindowBounds`).
- The readback of the fake device is not a function of the last command per attribute: it also
  depends on whether the access point was ever configured (`LastCommandsDecideIff`,
  `NamedThenCleared`). A key alone does not make it look configured (`LooksUnconfiguredIff`).
- A host key pin that is the algorithm's name alone is not the same as no pin, although both pin
  nothing (`SamePinIff`).
- A live enrolment with a password whose probe failed, and whose failure could not be written down
  either, leaves a credential record without its secret (`SecretCanBeLost`). Nothing else does
  (`DanglingExactlyWhenLost`).

## Model

| member | source | states |
|---|---|---|
| `TunnelStore.ActiveIsNewest` | router_control/persistence/store.py:3390-3403 | the assignment in force is the newest row of the role that is wanted active and not retired; there is none exactly if there is no such row |
| `TunnelStore.ClearEmpties` | router_control/persistence/store.py:3425-3445 | clearing a role leaves it no live row and no active assignment |
| `TunnelStore.ClearKeepsOthers` | router_control/persistence/store.py:3425-3445 | clearing a role changes no other role's rows or assignment |
| `TunnelStore.ActiveIsLive` | router_control/persistence/store.py:3390-3445 | an active assignment is counted by the clear, so a clear of it reports at least one row |
| `TunnelStore.AppendRow` | router_control/persistence/store.py:3341-3381 | a written row becomes the active assignment of its role and of no other |
| `TunnelStore.ResolveMeans` | router_control/application/vpn_assignment_helpers.py:22-42 | an assignment's interface is its locator, else that of its policy metadata, else that of the profile's metadata |
| `VpnInvariants.Reachable` | router_control_host/routes.py:881-1031 | every state that any interleaving of requests and catalog changes reaches satisfies the protocol invariant: the table is the replay of the log, one body at a time holds the lock, each body's log is a prefix of its own trace, and every role's torn-down interfaces are accounted for |
| `VpnInvariants.KeepMove` | router_control_host/routes.py:2798-2872 | one step of any request, succeeding or failing, keeps that invariant for every other request and every role |
| `VpnTheorems.TornSinceMeans` | router_control_host/routes.py:957-1031 | the interfaces that requests of a role tore down since its assignment last changed, read directly off the event log, in both directions |
| `VpnTheorems.TornByOthersMeans` | router_control_host/routes.py:3122-3190 | the same for teardowns by requests of other roles |
| `VpnTheorems.ClearFailedSinceMeans` | router_control_host/routes.py:1000-1031 | the same for clears that failed after a successful teardown |
| `VpnTheorems.OneBodyAtATime` | router_control/application/router_apply_lock.py:48-64 | two requests on a router are never inside their bodies together |
| `VpnHistory.ReadPriorSomewhere` | router_control_host/routes.py:935-956 | every activation past its read has read, by one step of its own in the run and holding the lock, the assignment in force and the metadata it resolved it with |
| `VpnHistory.SnapshotSomewhere` | router_control_host/routes.py:3063-3098 | every deactivation past its snapshot has taken the metadata of the snapshotted profile by one step of its own in the run, before it waited for the lock, and the snapshotted assignment resolves to its interface under it |
| `VpnHistory.ActiveOrigin` | router_control_host/routes.py:2842-2858 | in every run an assignment in force is the initial one, or was written by an activation and names its own interface |
| `VpnTheorems.TeardownIsGuarded` | router_control_host/routes.py:881-919 | in every run a deactivation tears down only while its role has no active assignment, or the active one is of the snapshotted profile and resolves to the requested interface under the metadata of the snapshot; where snapshot and metadata come from; and it resolves there under the current catalog if and only if it names its own interface or the metadata is unchanged |
| `VpnTheorems.GuardIsCurrentIff` | router_control_host/routes.py:3122-3133 | in all runs from a state the guard holds by the catalog of the moment of the teardown if and only if the role's assignment in that state, if any, names its own interface |
| `VpnTheorems.MetadataMovesOn` | router_control_host/routes.py:3063-3133 | from any state with an assignment that names no interface, a run that tears down the interface it resolved to at the snapshot while it now resolves to another |
| `VpnTheorems.DeactivatedLeavesNone` | router_control_host/routes.py:3122-3190 | whenever a deactivation reports success its interface was the last thing torn down and its role has no active assignment |
| `VpnTheorems.StaleExactlyWhenClearFailed` | router_control_host/routes.py:922-1031 | with the lock free, an active assignment names an interface that requests of its role tore down since it was written if and only if a clear failed after a successful teardown and nothing has replaced the assignment since; counting everyone, if and only if that, or a request of another role tore the interface down |
| `VpnTheorems.FailedClearLeavesStale` | router_control_host/routes.py:1000-1031 | from any state with an assignment, a run that ends with the assignment active and its interface torn down |
| `VpnRoles.OtherRoleCanBeTornDown` | router_control_host/routes.py:881-919 | from any state, a run in which a deactivation for an idle role tears down another role's interface, reports success and leaves that assignment active, without any failed clear |
| `VpnRoles.ActivationTearsOtherRole` | router_control_host/routes.py:957-1031 | the same by an activation that replaces its own role's assignment |
| `VpnRoles.SafeAcrossIff` | router_control_host/routes.py:881-1031 | for every choice of which interfaces the clients name for which role, in rows, requests and metadata: all runs, by activations and deactivations, from all states whose active assignments name their own interface, never tear down an interface that another role's assignment is on, if and only if no interface is named for two roles |
| `VpnRoles.RunAllNamed` | router_control_host/routes.py:2842-2858 | that every active assignment names its own interface is kept by every run |
| `VpnRoles.SafeFromAnyStateIff` | router_control_host/routes.py:943-956 | from all states, with assignments that rely on profile metadata among them, the roles are kept apart if and only if the clients name no interface at all |
| `VpnRoles.MetadataIsUnsafe` | router_control_host/routes.py:943-956 | for any interface named for one role alone, a state and a run in which that role tears it down under another role's assignment that rests on profile metadata |
| `VpnRoles.RunNamed` | router_control_host/routes.py:881-1031 | in every such run each teardown, each waiting request and each assignment that names its interface stays with the interfaces of its role |
| `VpnTheorems.ActivatedReplacesPrior` | router_control_host/routes.py:2798-2872 | whenever an activation reports success its role's one live row names the profile and interface, the profile metadata agrees, and the assignment in force when the lock was taken was dealt with before the new tunnel was applied: kept if it was the same profile on the same interface; otherwise the interface it resolved to by locator, policy metadata or profile metadata was torn down and it was cleared, in that order; or, resolving to none and of the same profile, it was cleared |
| `VpnTheorems.FailedActivationExits` | router_control_host/routes.py:935-1031 | the complete list of what a failed activation leaves behind, with the lock free: what was torn down is what the prior assignment resolved to when it was read, and an assignment is gone only after its logged clear or retirement |
| `VpnOutcomes.EveryEventHasItsCause` | router_control_host/routes.py:2840-2858 | in every run every teardown, apply, clear and write in the log entered it by one step of its own request whose device or store call succeeded, for what that request was about to do; a failed clear by one that did not succeed |
| `VpnOutcomes.FailingCallFails` | router_control_host/routes.py:1016-1031 | a failing call ends the request as failed: an activation past its read, a deactivation at its teardown or clear; and so does a profile that has left the catalog when it is to be written |
| `VpnOutcomes.FirstStep` | router_control_host/routes.py:2734-2759 | a request is refused exactly if it is not admitted, its profile is not in the catalog, or there is no interface to use |
| `VpnOutcomes.PurposeIsAsked` | router_control_host/routes.py:706-722 | in every run the role, profile and interface a body works on are those of its request; the interface is the one spelled out, else that of the profile's metadata at intake |
| `VpnOutcomes.ActivationSucceeds` | router_control_host/routes.py:2798-2872 | from any state an activation alone, all of whose calls succeed, reports success if its profile is in the catalog, there is an interface, and the assignment in force is absent, resolvable or of the same profile |
| `VpnOutcomes.DeactivationSucceeds` | router_control_host/routes.py:3122-3190 | from any state a deactivation alone, all of whose calls succeed, reports success if its role has no assignment or one that resolves to its interface |
| `ApplyLocks.SortKeysAscending` | router_control_host/vpn_catalog_remove_routes.py:50-53 | the keys of a removal are in strictly ascending code-point order |
| `ApplyLocks.LessMeans` | router_control_host/vpn_catalog_remove_routes.py:53 | the order of the keys: at the first difference the one that ends or has the smaller code point comes first |
| `ApplyLocks.LockNameMeans` | router_control/application/router_apply_lock.py:38-45 | white space around a key does not matter and a blank key stands for the default lock |
| `ApplyLocks.RemovalLocksAscending` | router_control_host/vpn_catalog_remove_routes.py:50-64 | with trimmed router ids the locks themselves are taken in strictly ascending order and cover the listed routers and the default key |
| `ApplyLocks.StepKeepsInv` | router_control/application/router_apply_lock.py:38-56 | every step keeps mutual exclusion of every lock and the order of every request |
| `ApplyLocks.SomeoneCanStep` | router_control_host/vpn_catalog_remove_routes.py:56-64 | while some request is unfinished, some request can step |
| `ApplyLocks.NeverDeadlocks` | router_control_host/vpn_catalog_remove_routes.py:56-64 | for any number of requests and every schedule: no deadlock, a bound on the length, and a schedule that cannot be continued has finished every request |
| `ApplyLocks.ClientsNeverDeadlock` | router_control_host/vpn_catalog_remove_routes.py:50-64 | the same for every mix of removals, each with its own listing, and one-lock requests |
| `ApplyLocks.BodyHoldsAll` | router_control_host/vpn_catalog_remove_routes.py:56-64 | a body runs only while all its locks are held by it and by nobody else |
| `ApplyLocks.CoexistIffDisjoint` | router_control/application/router_apply_lock.py:48-64 | two requests can be in their bodies together exactly if they share no lock |
| `ApplyLocks.RemovalExcludesListed` | router_control/persistence/store.py:594-599 | a removal excludes a router's requests exactly if the router is among the first fifty listed |
| `ApplyLocks.SoloFinishesIffDistinct` | router_control/application/router_apply_lock.py:38-45 | a request on its own can finish exactly if its keys stand for distinct locks |
| `CatalogRemoval.NeverActiveAndRetired` | router_control/persistence/store.py:3241-3325 | in every run of activations on any routers, deactivations and removals, whatever the removals lock, no active assignment names a retired profile |
| `CatalogRemoval.SecretsKeptIff` | router_control_host/vpn_catalog_remove_routes.py:84-99 | in all runs an active assignment keeps its secrets if and only if the removals lock every router that activates |
| `CatalogRemoval.SecretsKeptForListed` | router_control_host/vpn_catalog_remove_routes.py:50-64 | for generated router ids that is: every router that activates is among the first fifty listed |
| `CatalogRemoval.RunKeepsInv` | router_control_host/vpn_catalog_remove_routes.py:84-99 | with every router locked, in every run what an activation has applied is unrevoked and what a removal has checked is inactive |
| `CatalogRemoval.ActiveLosesSecrets` | router_control_host/vpn_catalog_remove_routes.py:84-99 | for any router a removal does not lock, a run in which its secrets are revoked under a new active assignment and the removal is then refused |
| `CatalogRemoval.RemovalRetires` | router_control_host/vpn_catalog_remove_routes.py:84-99 | a removal alone, every call of which succeeds, retires an inactive profile and revokes its own secrets |
| `CatalogRemoval.ActivationWritesActive` | router_control/persistence/store.py:3341-3381 | an activation alone, every call of which succeeds, makes an unretired profile active |
| `SlidingWindow.PruneKeepsNewer` | router_control_host/public_entry_routes.py:204-206 | pruning keeps the stamps at exactly the positions with stamps newer than the cutoff, in ascending order of position |
| `SlidingWindow.KeepNewer` | router_control_host/public_entry_routes.py:204-206 | the pruning loop computes that |
| `SubmitLimiter.SubmitRateBucket.IsBlocked` | router_control_host/public_entry_routes.py:193-195 | blocked exactly if the stamps left after pruning reach the limit |
| `SubmitLimiter.SubmitRateBucket.Record` | router_control_host/public_entry_routes.py:197-199 | prunes, then appends the stamp |
| `SubmitLimiter.SubmitRateBucket.Reset` | router_control_host/public_entry_routes.py:201-202 | forgets every stamp |
| `SubmitLimiter.SubmitRateBucket.IsStale` | router_control_host/public_entry_routes.py:208-210 | stale exactly if nothing is left after pruning |
| `SubmitLimiter.EntrySubmitRateLimiter.EvictStale` | router_control_host/public_entry_routes.py:234-237 | the loop prunes every slug bucket and removes exactly the empty ones |
| `SubmitLimiter.EntrySubmitRateLimiter.IsBlocked` | router_control_host/public_entry_routes.py:242-251 | its answer and the buckets it leaves, as functions of the buckets before |
| `SubmitLimiter.EntrySubmitRateLimiter.Record` | router_control_host/public_entry_routes.py:253-266 | the buckets it leaves, including the refusal to track one slug too many |
| `SubmitLimiter.EntrySubmitRateLimiter.Reset` | router_control_host/public_entry_routes.py:268-271 | the limiter is as new |
| `SubmitLimiter.EntrySubmitRateLimiter.TrackedSlugCount` | router_control_host/public_entry_routes.py:273-275 | the number of slugs with an event in the window |
| `SubmitLimiter.HandleSubmit` | router_control_host/public_entry_routes.py:413-472 | whether a request is accepted and the buckets it leaves: checked first, recorded only if let through and valid |
| `LimiterTheorems.LimiterRefinesHistory` | router_control_host/public_entry_routes.py:213-275 | for every call sequence under a clock that never goes back, the limiter answers exactly as a specification that keeps the full history of recorded submissions |
| `LimiterTheorems.StepRefines` | router_control_host/public_entry_routes.py:234-275 | one call: same answer, and buckets and history still agree about every event that can count |
| `LimiterTheorems.NewLimiterCoupled` | router_control_host/public_entry_routes.py:214-232 | a new limiter agrees with the empty history |
| `LimiterTheorems.GlobalIsMerge` | router_control_host/public_entry_routes.py:234-266 | after every call sequence one history explains all buckets at once: its recent events are the global bucket's, and each slug's share is that slug's bucket |
| `LimiterTheorems.PlainReadingIff` | router_control_host/public_entry_routes.py:242-251 | the code blocks at a reached limit for all histories if and only if the slug limit is positive, or nothing can pass at all |
| `LimiterTheorems.ServingRefines` | router_control_host/public_entry_routes.py:413-472 | serving every sequence of requests by its own answers, the limiter lets through exactly what the history specification accepts, every one of them is recorded, and its buckets stand for them |
| `LimiterTheorems.LimiterWindowBounds` | router_control_host/public_entry_routes.py:413-472 | in every run of one-at-a-time requests any half-open interval of the window's length, not only one that ends now, holds at most the limits of submissions the limiter let through, overall and per slug |
| `LimiterTheorems.LimiterDefaultBounds` | router_control_host/public_entry_routes.py:24-27 | with the settings in use: 20 overall and 10 per slug in any 60 seconds |
| `LimiterTheorems.ClosedWindowIff` | router_control_host/public_entry_routes.py:204-206 | for all positive settings and every length: every closed interval of that length obeys both limits in every run the limiter serves, if and only if the length is less than the window |
| `LimiterTheorems.DefaultsAreExact` | router_control_host/public_entry_routes.py:24-27 | the host's limits are reached: 10 requests for one page and 20 for two are let through at once, and closed intervals obey the limits exactly if shorter than 60 seconds |
| `LimiterTheorems.LimiterTrackedBounds` | router_control_host/public_entry_routes.py:234-275 | the limiter's tracked slugs never outnumber the global limit nor the slug capacity, whatever the settings |
| `LimiterTheorems.LimiterIgnoresCapacity` | router_control_host/public_entry_routes.py:239-251 | when the global limit is at most the slug capacity, the limiter's answer in every served run is that of the two rate limits alone |
| `LoginThrottle.Throttle.IsBlocked` | router_control_host/auth.py:371-373 | blocked exactly if the failures left after pruning reach the limit |
| `LoginThrottle.Throttle.RecordFailure` | router_control_host/auth.py:375-377 | prunes, then appends the failure |
| `LoginThrottle.Throttle.Reset` | router_control_host/auth.py:379-380 | forgets every failure |
| `LoginThrottle.FailuresBounded` | router_control_host/session_routes.py:248-270 | with k logins in flight, under every interleaving, any half-open interval of the window's length holds at most max - 1 + k failures recorded since the last reset |
| `LoginThrottle.FailureBoundIsExact` | router_control_host/session_routes.py:248-270 | for positive limit, window and k that bound is reached, so a number bounds the failures if and only if it is at least max - 1 + k |
| `LoginThrottle.OneAtATimeBounded` | router_control_host/auth.py:356-388 | one login at a time: at most 10 in any 60 seconds |
| `LoginThrottle.DefaultBoundIsExact` | router_control_host/auth.py:356-388 | and 10 is reached |
| `LoginThrottle.SuccessResets` | router_control_host/session_routes.py:266-270 | a success forgets every failure and the next check passes |
| `Credentials.CredentialHost.PutCredential` | router_control_host/routes.py:1869-2029 | the handler's step-by-step vault and store calls have exactly the stated net effect and reply at every exit |
| `Credentials.CredentialHost.RemintOrUndo` | router_control_host/routes.py:1936-1953 | a replacement secret is recorded and returned, or taken back without a trace |
| `Credentials.CredentialHost.BeginEnroll` | router_control_host/routes.py:1271-1348 | the enrolment handler up to its suspension at the live probe: net effect and answer at every exit, with the refusals of a supplied reference |
| `Credentials.CredentialHost.WriteRouter` | router_control_host/routes.py:1294-1336 | the write of the router over every outcome of the store call, with the rollback |
| `Credentials.CredentialHost.FinishEnroll` | router_control_host/routes.py:1349-1434 | the handler from the probe's verdict on, over every verdict and outcome of the store calls |
| `Credentials.CredentialHost.Rollback` | router_control_host/routes.py:613-620 | deletes the secret exactly if this request made it |
| `Credentials.CredentialHost.RevokeCredential` | router_control_host/routes.py:2287-2292 | marks secret and record, the vault first; nothing happens for a record whose secret is not there |
| `CredentialTheorems.PutIsBalanced` | router_control_host/routes.py:1869-2029 | at every exit of a put the vault holds what it held, or that plus exactly the one secret recorded and returned; a failing exit leaves no trace |
| `CredentialTheorems.PutReturnsUnrevoked` | router_control_host/routes.py:1857-1866 | every reference a put returns is recorded and unrevoked at that moment |
| `CredentialTheorems.PutAnswersExactly` | router_control_host/routes.py:1869-2029 | how a put is answered: refused for what it brings or a conflict, with the stored reference while that is unrevoked, with a new one if it could be stored, otherwise it raises |
| `CredentialTheorems.UsableMeans` | router_control_host/routes.py:1857-1866 | a stored response is replayed exactly if the reference it names, stripped, is recorded and unrevoked |
| `CredentialKeys.PutRetryIsIdempotent` | router_control_host/routes.py:1905-1929 | with the stored answers as state: a put answered with a reference is answered with it again after any further puts and revocations of others, and changes nothing; the same key with another digest is refused |
| `CredentialKeys.OneUnrevokedPerKey` | router_control_host/routes.py:1930-1953 | over every run of puts and revocations there is at most one unrevoked reference per idempotency key |
| `CredentialKeys.PutByKey` | router_control/persistence/store.py:1581-1675 | what a put does follows from what is stored under its key and whether that reference is revoked |
| `CredentialTheorems.EnrollIsBalanced` | router_control_host/routes.py:1286-1434 | at every exit of an enrolment the vault is balanced, a supplied secret is never touched, and a new secret stays only with a written router and, if live, a matching probe |
| `CredentialTheorems.EnrollAnswers` | router_control_host/routes.py:1286-1434 | an enrolment is answered with a reference exactly if its router was written with it and, if live, the probe matched and the result was stored; then the reference is recorded, its secret is there, and a secret made for it is the password |
| `CredentialTheorems.EnrollFailures` | router_control_host/routes.py:1350-1399 | a refused or raising enrolment leaves the vault as it was unless its probe matched and could not be stored; a failed probe is answered with 422 if that could be stored |
| `CredentialTheorems.EnrollRefusals` | router_control_host/routes.py:1271-1336 | the refusals before the router is written, in the order of the checks |
| `CredentialTheorems.SuppliedExactly` | router_control_host/routes.py:455-505 | a supplied reference may be used exactly if the vault holds it as an unrevoked management password and no record says otherwise |
| `CredentialTheorems.SuppliedRefusals` | router_control_host/routes.py:455-505 | 400 for a blank or revoked reference, 404 for an unknown one, 422 for one of another kind |
| `CredentialTheorems.RevokedIsUnusable` | router_control_host/routes.py:2287-2292 | a revoked reference can be used by neither a put nor an enrolment, and nothing else changes |
| `CredentialTheorems.BeginLeaves` | router_control_host/routes.py:436-525 | up to its probe an enrolment has left no trace, or has written exactly its reference, with a secret exactly if it made one |
| `CredentialTheorems.RunLeavesNoOrphans` | router_control_host/routes.py:1286-1434 | over every run of puts, revocations and enrolments, with others overtaking an enrolment during its probe: no secret or record that was there is lost or changed but for being revoked, and at no moment is there a new secret without a record |
| `CredentialTheorems.DanglingExactlyWhenLost` | router_control_host/routes.py:1350-1399 | over every such run every unrevoked record has its secret if and only if no step finished an enrolment with a password and an unrevoked record whose probe failed and whose failure could not be written |
| `CredentialTheorems.SecretCanBeLost` | router_control_host/routes.py:1350-1399 | from any books and for any live enrolment with a password, a run of two steps that leaves a record without its secret |
| `GateAFreshness.NormalizePinTwice` | scripts/gate_a_freshness_lib.py:59-63 | normalising a pin twice is normalising it once |
| `GateAFreshness.SamePinIff` | scripts/gate_a_freshness_lib.py:59-63 | two pins are the same if and only if they agree after stripping and removing the algorithm's name in any case, and neither or both are blank |
| `GateAFreshness.DiffTupleFields` | scripts/gate_a_freshness_lib.py:110-156 | the loop lists exactly the differing fields in order, and none exactly if the evidence shows the certified tuple |
| `GateAFreshness.DiffsAreDrift` | scripts/gate_a_freshness_lib.py:110-156 | which fields differ, said for each of the twelve by its own comparison: seven directly, the identity flag only if configured, three under their own key or else an alias, the pin by what it pins |
| `GateAFreshness.PyEqMeans` | scripts/gate_a_freshness_lib.py:125-129 | values are compared by equality in which true is 1 and false is 0 |
| `GateAFreshness.TextMeans` | scripts/gate_a_freshness_lib.py:147-152 | the text of a value, empty if the value counts as false |
| `GateAFreshness.NoDiffsIff` | scripts/gate_a_freshness_lib.py:110-156 | no differences exactly if every field matches under its own comparison |
| `GateAFreshness.EvaluateAndApply` | scripts/gate_a_freshness_lib.py:159-259 | the step-by-step rewriting of the configuration has exactly the specified outcome and result |
| `GateAFreshness.EvaluateExactly` | scripts/gate_a_freshness_lib.py:159-259 | for every configuration: drift exactly if the tuple differs, reported as the differing fields; ineligible exactly if it agrees and a flag is missing; recertified exactly if the configuration is complete and the evidence accepted; otherwise the configuration is returned as it was; deadline and proactivity of a refresh |
| `GateAFreshness.RefreshKeeps` | scripts/gate_a_freshness_lib.py:229-244 | a refresh changes no key outside the six it writes and points at the new evidence |
| `GateAFreshness.RefreshWrites` | scripts/gate_a_freshness_lib.py:208-244 | the history entry keeps the superseded certification field by field, and the six keys get the new evidence and labels |
| `GateAFreshness.ShaTextMeans` | scripts/gate_a_freshness_lib.py:242 | the digest is recorded in lower case without the algorithm's name |
| `GateAFreshness.DeadlineMeans` | scripts/gate_a_freshness_lib.py:78-81 | a certification lasts its freshness hours from its evidence, 24 if the file does not say |
| `GateAFreshness.RunIsAppendOnly` | scripts/gate_a_freshness_lib.py:159-259 | over any sequence of evidence the certified tuple never changes, acceptance depends on the initial certification and that evidence alone, and history plus current pointer is the initial history, the initial pointer and every accepted pointer in order |
| `GateAFreshness.PollStaysFresh` | scripts/recertify-gate-a-freshness.py:70-121 | one poll: a refresh is proactive and the deadline is more than a poll gap away afterwards |
| `GateAFreshness.NeverExpires` | scripts/gate_a_freshness_lib.py:78-94 | if polls are at most the margin apart, gap plus evidence lag is less than the freshness, and every due poll's evidence is accepted, a certification fresh at the first poll never reaches its deadline |
| `DnsPool.TrackedBound` | router_control_host/host_probes.py:75-126 | with k callers interleaved at the lock steps the pool never tracks more than 31 + k threads |
| `DnsPool.TrackedBoundIsExact` | router_control_host/host_probes.py:75-126 | for positive k that bound is reached, so a number bounds the tracked threads if and only if it is at least 31 + k |
| `DnsPool.FreshIsBounded` | router_control_host/host_probes.py:34-36 | the empty pool meets the premise of that bound for every k |
| `DnsPool.UntrackedExactlyIfDropped` | router_control_host/host_probes.py:75-79 | a live thread is untracked exactly if a prune removed it between its being added and started |
| `DnsPool.OneCallerIsBounded` | router_control_host/host_probes.py:82-126 | one call at a time: every live thread stays tracked and at most 32 live |
| `DnsPool.TwoCallersUnbounded` | router_control_host/host_probes.py:113-119 | for every m a run of two callers after which m threads live and none is tracked |
| `DnsPool.BoundedIffOneCaller` | router_control_host/host_probes.py:34-36 | for every number of callers: the live threads have a bound if and only if there is at most one caller, and then it is 32 |
| `AddressPin.InNetIsRange` | router_control_host/host_probes.py:27-32 | membership by clearing host bits is membership in the range of addresses |
| `AddressPin.AllowedExactlyPrivate` | router_control_host/host_probes.py:44-62 | the layered test accepts exactly the blocks of section 3 of RFC 1918, fc00::/7 of section 3.1 of RFC 4193, and IPv4-mapped forms (section 2.5.5.2 of RFC 4291) of the former |
| `AddressPin.PickPinnedAddress` | router_control_host/host_probes.py:129-150 | a pin exactly if some address parses and every one that parses is private; the pin is the first that parses |
| `AddressPin.VerdictIgnoresOrder` | router_control_host/host_probes.py:129-150 | the verdict is unchanged under reordering of the results |
| `TextCodec.IntRoundTrip` | router_control_host/auth.py:110-121 | printed integers parse back |
| `SessionCookie.MintedAcceptedExactly` | router_control_host/auth.py:160-200 | a minted cookie is too early, accepted or expired by the clock alone: accepted exactly from 60 seconds before issue until 28800 after |
| `SessionCookie.MintedBindsPlan` | router_control_host/auth.py:124-150 | its session id comes back and a plan bound to it verifies at exactly those times |
| `SessionCookie.AcceptedIsSigned` | router_control_host/auth.py:160-200 | every accepted cookie, minted or not, is exactly its four fields under the key's own hash of them, is in force by its own times, and yields its fourth field as session id |
| `SessionCookie.MintText` | router_control_host/auth.py:110-121 | the minted cookie is version, time of issue, time of issue plus 28800, session id, and the keyed hash of `rc-proto-session:v1|` and all of that |
| `SessionCookie.AcceptedIff` | router_control_host/auth.py:160-200 | a cookie is accepted if and only if the key is set and the cookie is four fields under the key's own hash of them, in force by the times it carries |
| `SessionCookie.SignedIsAccepted` | router_control_host/auth.py:194-200 | four fields in force are accepted with that hash, and refused as wrongly signed with any other |
| `SessionCookie.BindingExactly` | router_control_host/auth.py:135-150 | for every cookie and expected binding: it verifies if and only if the cookie is accepted and the binding is not empty and is the key's hash of `rc-plan-session:v1|` and the cookie's own fourth field |
| `SessionCookie.RefusedByTimes` | router_control_host/auth.py:178-194 | fields that are not in force are refused for the first reason that applies |
| `SessionCookie.EarlyRefusals` | router_control_host/auth.py:160-173 | no cookie, no key, no signature |
| `TextCodec.JoinSplit` | router_control_host/auth.py:174-178 | joining what was split gives the text back |
| `ApiPath.NormalizeApiPath` | router_control_host/app.py:114-127 | repeated replacement terminates and equals one collapsing pass with a leading slash; NUL and ".." are refused |
| `ApiPath.AcceptedIff` | router_control_host/app.py:120-121 | a path is accepted if and only if it has no NUL and no two dots in a row |
| `ApiPath.ReplaceKeepsCollapse` | router_control_host/app.py:122-123 | one left-to-right replacement does not change what collapsing yields |
| `ApiPath.NormalizedIsCanonical` | router_control_host/app.py:114-127 | an accepted path has a leading slash, no empty segment and no "..", and is its own normal form |
| `ApiPath.PathMeaning` | router_control_host/app.py:114-127 | the normal form is the rendering of the non-empty segments and the trailing slash, and determines them |
| `ApiPath.SamePathIff` | router_control_host/app.py:114-127 | two paths are authorised as one exactly if their segments and trailing slash agree |
| `FakeWifi.InterpretsAs` | router_control_host/fake_wifi_device.py:57-63 | a command line is read as the access point and command that were written, whatever the case of its first word |
| `FakeWifi.NotInterpreted` | router_control_host/fake_wifi_device.py:57-61 | a line that begins otherwise, or goes on after a line break, is no command |
| `FakeWifi.FixedSwitches` | router_control_host/fake_wifi_device.py:67-106 | each fixed command turns the switch it names |
| `FakeWifi.ClassifyFixed` | router_control_host/fake_wifi_device.py:65-106 | a command that begins like neither a name nor a key command is read as a fixed one |
| `FakeWifi.ClassifyKey` | router_control_host/fake_wifi_device.py:80-83 | a key command sets the key, whatever the key |
| `FakeWifi.ClassifySsid` | router_control_host/fake_wifi_device.py:73-76 | a trimmed network name comes back from its command |
| `FakeWifi.FakeWifiDevice.ApplyCommand` | router_control_host/fake_wifi_device.py:57-106 | the device's state stays that of the commands received |
| `FakeWifi.FakeWifiDevice.Perform` | router_control_host/fake_wifi_device.py:52-106 | changes the one access point it is addressed to, and creates it if needed |
| `FakeWifi.FakeWifiDevice.ReadbackFor` | router_control_host/fake_wifi_device.py:108-148 | the readback is that of the last command per attribute and of having been configured |
| `FakeWifi.LastOnIsLast` | router_control_host/fake_wifi_device.py:65-106 | the last operation on an attribute is one that no later operation on it follows |
| `FakeWifi.StateIsFromLast` | router_control_host/fake_wifi_device.py:57-106 | after any commands an access point's state is that of its own last operations |
| `FakeWifi.OthersNeverMatter` | router_control_host/fake_wifi_device.py:52-106 | command sequences that agree on what is addressed to an access point agree on its readback |
| `FakeWifi.LastCommandsDecideIff` | router_control_host/fake_wifi_device.py:108-148 | with the same last commands, two histories give the same readback if and only if both or neither ever configured the access point |
| `FakeWifi.NamedThenCleared` | router_control_host/fake_wifi_device.py:73-79 | two histories with the same last commands and different readbacks |
| `FakeWifi.LooksUnconfiguredIff` | router_control_host/fake_wifi_device.py:108-148 | looks unconfigured exactly if nothing configured it or only a key is set; clearing alone never makes it look configured |
| `FakeWifi.ReadbackMeans` | router_control_host/fake_wifi_device.py:108-148 | each field of the readback from the last command on its switch, and when the name is missing altogether |
| `ConnectionFields.MissingConnectionFields` | router_control_host/wifi_live_transport.py:276-322 | lists exactly the fields that do not resolve, and none exactly if there is no gap |
| `ConnectionFields.CompleteExactlyWhenNothingMissing` | router_control_host/wifi_live_transport.py:381-422 | parameters resolve if and only if nothing is missing and the request was asked for a source address |
| `ConnectionFields.ConnectsExactly` | router_control_host/wifi_live_transport.py:381-422 | for every request and store: parameters exist if and only if host, source address, user name and credential are there where they come from and a key is at hand, and then they are these, each in its place |
| `ConnectionFields.MissingExactly` | router_control_host/wifi_live_transport.py:276-322 | each field is missing if and only if it is blank where it comes from; a source address only if one was asked for |
| `ConnectionFields.KeyIff` | router_control/application/ssh_host_key_pin.py:291-338 | the key a request goes by: the stored one of the router if the store knows the router, else the offered one |
| `ConnectionFields.MismatchIff` | router_control/application/ssh_host_key_pin.py:311-323 | a key is refused if and only if another is stored and a well-formed one is offered |
| `ConnectionFields.EndpointDecides` | router_control_host/wifi_live_transport.py:225-251 | with a stored endpoint the request's host and source address change neither the parameters nor what is missing |
| `ConnectionFields.BoundConnectsToEndpoint` | router_control_host/wifi_live_transport.py:225-251 | a bound request connects to the stored host from the stored source address |
| `ConnectionFields.UnrecordedIdNeverConnects` | router_control/application/ssh_host_key_pin.py:291-338 | a router id without a row of its own never connects; the key is looked up under the id as spelled, although the other fields are looked up under the trimmed id |

## Left out

- The activate and deactivate bodies are steps of a state machine on values, not methods of a class, because requests interleave between any two of them; update in place is not visible in that form.
- Text columns of the VPN model stand for their content after stripping; requests without a router id, which touch no assignment, are not modelled.
- A clear that reports no row and a clear that raises are one failing step; every other failure of a step is one outcome, without its message.
- The direct tunnel apply and teardown routes, which write no assignments, the watchdogs and the durable worker.
- In the model of the activate and deactivate bodies a catalog removal is an arbitrary catalog change; in `CatalogRemoval` an activation's body is its apply and its assignment write, taking several locks is one step (which `CoexistIffDisjoint` justifies), and the gate on an activation in progress is an arbitrary refusal.
- A limiter call reads the clock once; the code reads it once per bucket it prunes.
- The slug buckets are held by value, which hides that they are objects; nothing outside the limiter refers to them.
- Throttle calls are single steps, and each resolver pool step under its lock is one step; interleaving inside a call is not modelled.
- Deleting from the vault always succeeds, and exceptions of calls that the handlers do not guard are not modelled.
- The outcomes of idempotency lookups are arbitrary in the balance theorems, which cover other processes; `CredentialKeys` keeps the table for puts of one process, where nothing comes between lookup and write, and takes digests as given. Enrolment keys are not kept.
- Rotation of references, and the refusal to revoke the secret of an active tunnel.
- Evidence and certification files hold JSON scalars; dated labels are arbitrary, and instants and numbers are read by arbitrary functions of their text.
- HMAC, fingerprint normalisation, address parsing and percent-decoding are arbitrary functions; HMAC is taken to yield non-empty hex.
- Case folding and white space are those of ASCII and Latin-1; digits of other scripts and signatures that are not ASCII are not modelled.
- The router behind a management host is an arbitrary function of the host.
- The readback's constant fields, and its state and link, which repeat whether the access point is up.
- Router ids are generated without white space and every caller of the connection check either passes a source address or names a router; what the lock and connection lemmas say beyond that concerns no caller in the repository.
- `wizard_draft_router`, the typed RCI mutation routes, HTTP wiring, pages, error texts, SSH sessions, backups and the persistence layer beyond the statements cited.
