# Gateway: a verified model

This project models the parts of the gateway in which several steps, several files or several parties must
agree, and proves what they promise:

- the **ACME account-key rollover** (section 7.3.5 of RFC 8555): local files, a certificate authority whose
  reply may be lost or whose effect may come late, and a loss of power at any step
  (`RolloverMachine`, `RolloverSafety`, `RolloverTheorems`, `RolloverCommands`), and how many operators at once
  its promises survive (`RolloverOperators`, `RolloverTwoOperators`, `RolloverLoss`, `RolloverReplay`);
- the **publication of a renewed certificate**: two live files replaced by single-file renames, with backups,
  rollbacks, activation and a full rehearsal, under any schedule of failing operations
  (`RenewalDisk`, `RenewalStaging`, `RenewalTransaction`, `RenewalRehearsal`);
- the **backend limiter, failover and round robin** under any interleaving of requests
  (`BackendLimiter`, `ProxyConcurrency`, `RoundRobin`);
- the **configuration**: validation, its life on disk, routing, the order-free fingerprint and what it says about
  routing, certificate choice and the double reload (`Config`, `Lifecycle`, `Routing`, `Sorting`, `Parity`,
  `ParityRouting`, `TlsRuntime`, and `Examples` with small configurations at which a claim fails);
- **DNS-01 issuance** (sections 7.1.6, 7.4, 7.5 and 8.4 of RFC 8555) as a trace of effects, for every answer of
  the outside world (`ChallengeNames`, `Issuance`, `IssuanceSafety`, `AcmeIssuer`);
- the **client address behind trusted proxies** (`TrustedProxy`).

Code that changes state step by step is a class whose methods change fields, and every file operation in it may
fail, by a schedule that is fixed before the run (`Faults`); a ghost list keeps every state a crash could have left.
The rollover and the concurrent proxy are transition systems; the rollover commands are methods whose every step is
a step of that system. What the surroundings do (authority, DNS, resolver, other requests, failing operations, parsers
of the standard library) is always a parameter and may be anything, so no operation chooses its own outcome.

## Where the code does something other than its words

Each point names the lemma that gives an input, and the lemma that says exactly when it happens.

- A rollover probe can report that the authority recognises neither key (`NeitherHappens`): exactly when, at its
  start, the authority has left both keys or a request for a third key can still take effect (`NeitherExactly`).
  With a single replacement under the active key it cannot (`SingleReplacementProbe`).
- A pending envelope torn by a crash is never overwritten or removed. When its key is the one the authority holds
  (`TornAuthorityHappens`), no sequence of commands ever brings disk and authority together; in every other case
  one does (`SettlesExactlyWithoutTornAuthority`).
- The account commands take no lock. With two operators at once a torn pending envelope can be renamed over the
  active one and the key is lost (`TornWriteLosesAKey`); without torn writes it takes three operators
  (`ThirdOperatorLosesAKey`). The promise holds for exactly one operator (`SafeForExactlyOneOperator`), and for
  exactly two when no pending envelope is left torn (`SafeForExactlyTwoWithoutTornWrites`). That a request is backed
  on disk before it leaves, and that it is not sent again blindly, holds for exactly one operator
  (`RequestsBackedForExactlyOneOperator`, `ReplayFreeForExactlyOneOperator`); `RequestLeavesUnbacked` and
  `ReplayRunReplays` give the runs of two.
- Routes are ranked by the length of the prefix as written, so an empty prefix ranks below the "/" it stands for
  (`SlashWinsOverEmpty`); when that changes the answer is said by `EmptyRanksBelowSlash` and
  `AnswerIsByMeaningExactly`.
- Route identifiers need not be unique, so two validated configurations that differ in the order of two routes can
  have different fingerprints (`OrderShowsInTheFingerprint`). Whatever sort the library uses, all reorderings have
  one fingerprint exactly when entries with colliding trimmed identifiers are canonically equal
  (`FingerprintIgnoresOrderExactly`).
- The comment on the fingerprint calls it complete; it drops a trailing dot that routing keeps
  (`TrailingDotEscapesTheFingerprint`). Two canonically equal routes match the same requests exactly when both or
  neither host ends in a dot (`AlikeRoutesMatchExactly`). Validated configurations with equal fingerprints, trimmed
  texts, distinct route identifiers, live routes and no ties route all requests alike exactly when their canonically
  equal routes agree about the dot (`EqualFormsRouteAlikeExactly`).
- The fingerprint also leaves out the trusted proxies (`TrustedProxiesEscapeTheFingerprint`). Two lists of them name the
  same client for every request exactly when they trust the same peers and, if they trust any, the same addresses in
  forwarding headers (`PoliciesAlikeExactly`).
- Validation trims the name of a route's certificate profile, the TLS inventory does not, so a valid configuration
  may have no inventory (`SpacedProfileIsNotServable`); `NewInventory` says exactly when it has one.
- The check of an ACME order counts identifiers but does not notice repeated ones (`RepeatedIdentifierPasses`); an
  accepted order is for exactly the requested names if and only if it repeats none
  (`OrderMatchesExactlyWithoutRepeats`).
- For the zone's own name with a dot before it, the record is created under one name and looked for under another
  (`DottedZoneIsObservedElsewhere`), and for no other name (`PresentedWhereObservedExactly`).
- Round robin stays fair when its 64-bit counter wraps for exactly those numbers of candidates that divide 2^64
  (`FairAcrossTheWrapExactly`); `UnfairAtTheWrap` gives the stretch of tickets for the others.
- The check for a zone on a bare trusted-proxy address never decides: making a prefix of the address drops the zone
  first, so a link-local address with its zone is accepted and trusted without it (`ZonedEntryIsAccepted`). A bare
  entry is accepted exactly when its address without the zone may be trusted (`BareEntryIgnoresItsZone`).

## Model

| member | source | states |
|---|---|---|
| RolloverSafety.StepKeepsInv | internal/tlsconfig/acme_account_rollover_transaction.go:80-172 | every step keeps: bundles bound forward, each request backed on disk, active key never behind a request, command knowledge sound, in every directory a loss of power may leave |
| RolloverSafety.ActivateStep | internal/tlsconfig/acme_account_rollover_recovery.go:115-160 | a pending envelope can only replace the active one when the authority holds its key |
| RolloverSafety.ReachableInv | internal/tlsconfig/acme_account_rollover_transaction.go:80-172 | the invariant holds after any run from a registered account |
| RolloverTheorems.KeyNeverLost | internal/tlsconfig/acme_account_rollover_transaction.go:115-160 | in every reachable state and every directory a loss of power may leave, the key the authority recognises loads as the active key or from a bundle bound to the active key |
| RolloverTheorems.ProbeMeaning | internal/tlsconfig/acme_account_rollover_probe.go:136-192 | what each report of the two non-atomic reads says, if and only if, about the key held at both reads |
| RolloverTheorems.SingleReplacementProbe | internal/tlsconfig/acme_account_rollover_probe.go:167-190 | with one replacement under the active key "neither" cannot be reported, and "both" means the change fell between the reads |
| RolloverTheorems.NeitherHappens | internal/tlsconfig/acme_account_rollover_probe.go:167-190 | a run from a registered account that ends with the report "neither" |
| RolloverTheorems.NeitherExactly | internal/tlsconfig/acme_account_rollover_probe.go:167-190 | a probe can still report "neither" if and only if, when it starts, the authority holds a third key or holds the old one with a request for a third key on its way |
| RolloverTheorems.ActivationIsAuthoritative | internal/tlsconfig/acme_account_rollover_recovery.go:82-88 | activation happens only when the authority holds the new key, and then that key loads as the active one |
| RolloverTheorems.RequestIsBacked | internal/tlsconfig/acme_account_rollover_transaction.go:128-153 | before a request leaves, every directory a loss of power may leave holds a byte-exact retired copy, the whole pending envelope and the bundle |
| RolloverTheorems.NoBlindReplay | internal/tlsconfig/acme_account_rollover_transaction.go:128-153 | between two requests for one replacement key lies the removal of its pending envelope by a recovery that had observed the old key as authoritative |
| RolloverTheorems.ExecuteReaches | internal/tlsconfig/acme_account_rollover_transaction.go:253-273 | a fault-free execution passes its retired-copy and pending checks and sends its request whenever no pending envelope is in the way |
| RolloverTheorems.RecoveryConverges | internal/tlsconfig/acme_account_rollover_recovery.go:90-160 | a recovery with the observed outcome ends with active key equal to authority key, pending envelope gone, directory synced; after an old outcome an execution can go through again |
| RolloverTheorems.BlockedStep | internal/tlsconfig/acme_account_rollover_recovery.go:68-160 | no command touches a torn pending envelope of the key the authority holds, and the authority cannot move on |
| RolloverTheorems.TornAuthorityHappens | internal/tlsconfig/acme_account_rollover_transaction.go:128-140 | a run from a registered account that ends, durably and between commands, with a torn pending envelope for the key the authority holds |
| RolloverTheorems.SettlesExactlyWithoutTornAuthority | internal/tlsconfig/acme_account_rollover_recovery.go:68-160 | from a synced state some run of the commands ends with active key equal to authority key if and only if that key has no torn pending envelope |
| RolloverCommands.AccountStore.PrepareRollover | internal/tlsconfig/acme_account_rollover.go:45-127 | success if and only if the active key opens, a key is generated and its bundle written; then a durable bundle under a new name loads; after a failed write exactly the stages of it may be left |
| RolloverCommands.AccountStore.KeepRetiredCopy | internal/tlsconfig/acme_account_rollover_transaction.go:253-273 | a retired copy equal to the active envelope is kept exactly when one is there and readable or none is there and its write succeeds; a different one stops the command and changes nothing |
| RolloverCommands.AccountStore.StageReplacement | internal/tlsconfig/acme_account_rollover_transaction.go:100-140 | ready if and only if the bundle loads, the retired copy is kept, no pending envelope is there and its write succeeds; both files are then in place and nothing is sent |
| RolloverCommands.AccountStore.ExecutePrepared | internal/tlsconfig/acme_account_rollover_transaction.go:53-172 | confirmed if and only if bundle, retired copy and new pending envelope are in place, the authority carries out this very request after it left, the reply arrives, and rename and sync succeed; then the new key is active, durably; in every other case the files are exactly those the last operation left |
| RolloverCommands.AccountStore.Probe | internal/tlsconfig/acme_account_rollover_probe.go:136-192 | answered exactly when both reads are; the report is that of the keys held at the two reads; no file changes |
| RolloverCommands.AccountStore.Recover | internal/tlsconfig/acme_account_rollover_recovery.go:68-160 | recovered if and only if the expectation is actionable, everything loads, both reads say what is expected, and no later operation fails; then the pending envelope is activated or removed, durably; rejection and mismatch change no file, and an interruption has a failed operation |
| RolloverCommands.AccountStore.SubmitAndActivate | internal/tlsconfig/acme_account_rollover_transaction.go:151-160 | the request is confirmed exactly when the authority carried it out and replied and the rename and sync succeed; the ledger of the authority and the files afterwards are stated in every case |
| RolloverCommands.CarriedOutExactly | internal/tlsconfig/acme_account_rollover_transaction.go:151-153 | a request has been carried out if and only if the authority did so while it was on its way and its old key was held |
| RolloverOperators.OneOperatorIsTheMachine | internal/tlsconfig/acme_account_rollover_transaction.go:80-172 | a site with one operator runs event for event as the single-command machine, and nothing torn is ever renamed |
| RolloverTwoOperators.TwoOperatorsNeverLoseAKey | internal/tlsconfig/acme_account_rollover_transaction.go:80-172 | however two operators interleave, while no pending envelope is left torn, the key the authority recognises loads |
| RolloverTwoOperators.OtherStep | internal/tlsconfig/acme_account_rollover_recovery.go:68-160 | no step of one operator breaks what the command of the other relies on |
| RolloverLoss.TornWriteLosesAKey | internal/tlsconfig/acme_account_rollover_transaction.go:136-156 | for every number of operators from two on, a run that renames a torn pending envelope over the active one |
| RolloverLoss.ThirdOperatorLosesAKey | internal/tlsconfig/acme_account_rollover_transaction.go:144-156 | for every number of operators from three on, a run without torn writes after which the recognised key cannot be loaded |
| RolloverLoss.SafeForExactlyOneOperator | internal/tlsconfig/acme_account_rollover_transaction.go:80-172 | no run of k operators loses the key if and only if k is at most one |
| RolloverLoss.SafeForExactlyTwoWithoutTornWrites | internal/tlsconfig/acme_account_rollover_transaction.go:80-172 | no run of k operators without torn pending envelopes loses the key if and only if k is at most two |
| RolloverReplay.RequestLeavesUnbacked | internal/tlsconfig/acme_account_rollover_transaction.go:128-144 | for every number of operators from two on, a run after which a request can leave although its pending envelope is gone |
| RolloverReplay.ReplayRunReplays | internal/tlsconfig/acme_account_rollover_transaction.go:128-144 | a run of two operators sends one request twice with no removal of its pending envelope in between |
| RolloverReplay.RequestsBackedForExactlyOneOperator | internal/tlsconfig/acme_account_rollover_transaction.go:128-153 | every request of k operators is backed in every directory a loss of power may leave if and only if k is at most one |
| RolloverReplay.ReplayFreeForExactlyOneOperator | internal/tlsconfig/acme_account_rollover_transaction.go:128-153 | no run of k operators sends a request again blindly if and only if k is at most one |
| RenewalDisk.Disk.RestoreFile | internal/tlsconfig/renewal_transaction.go:454-464 | the destination is wholly old or wholly new, success is the new content |
| RenewalDisk.Disk.ReplaceLivePair | internal/tlsconfig/renewal_transaction.go:377-404 | success is exactly the new pair; one failing operation leaves exactly the old pair; at every moment each file is wholly old or wholly new |
| Certificates.SerialTextNamesOneNumber | internal/tlsconfig/renewal_candidate.go:45-57 | comparing serial numbers by their decimal text is comparing the numbers |
| Certificates.SerialTextIsTrimmed | internal/tlsconfig/renewal_activation.go:69-71 | a serial text is never blank and has nothing to trim |
| RenewalStaging.StagedCandidateVerifies | internal/tlsconfig/renewal_verify.go:20-102 | acceptable material can be staged, and what staging makes of it verification accepts, with the same pair and identity |
| RenewalStaging.ValidateRequest | internal/tlsconfig/renewal_request.go:50-85 | a request is valid exactly with an identity, a serial, at least one name, each usable once normalised, and the one supported reason |
| RenewalStaging.ValidateCandidate | internal/tlsconfig/renewal_candidate.go:23-62 | material is accepted exactly from the moment it becomes valid up to the moment it expires, for its own key, under a new serial, covering every requested name; the fields of the candidate |
| RenewalStaging.StageVerifiesMeans | internal/tlsconfig/renewal_verify.go:20-130 | a staging directory verifies if and only if it holds a certificate, a key and a complete manifest that agree in digest, serial, expiry and names |
| RenewalStaging.StageCandidate | internal/tlsconfig/renewal_stage.go:41-148 | a staging directory appears whole under a free name or not at all, without failures exactly when material and candidate agree; the live files are never touched |
| RenewalStaging.VerifyStaged | internal/tlsconfig/renewal_verify.go:20-130 | acceptance means manifest, certificate and key agree, and refusal without a read failure means they do not |
| RenewalStaging.PreparePublication | internal/tlsconfig/renewal_publication.go:39-104 | without failures a plan is made exactly when the staging directory verifies, is for the profile, and follows the serial that is live; it names that serial |
| RenewalTransaction.CreateBackup | internal/tlsconfig/renewal_transaction.go:280-337 | a complete backup under a name not used before, or no change |
| RenewalTransaction.CheckPlan | internal/tlsconfig/renewal_transaction.go:50-90 | acceptance means the staged and live pairs are still those of the plan |
| RenewalTransaction.PublishPair | internal/tlsconfig/renewal_transaction.go:98-133 | success is the staged pair live; an error with at most one failing operation is the previous pair live |
| RenewalTransaction.ExecutePublication | internal/tlsconfig/renewal_transaction.go:50-133 | under at most one fault exactly the candidate is live, or an error and exactly the previous pair; after any faults and at every moment both pairs are salvageable; without faults success if and only if the plan is publishable, which a pair with a backup is not |
| RenewalTransaction.RestorePublication | internal/tlsconfig/renewal_transaction.go:135-185 | success if and only if the candidate is live and its backup matches (no faults); then exactly the saved pair is live; otherwise nothing is written |
| RenewalTransaction.RestoreUndoes | internal/tlsconfig/renewal_transaction.go:135-185 | restoring what the backup holds over any published pair gives back the live files of before |
| RenewalTransaction.PublishThenRestore | internal/tlsconfig/renewal_transaction.go:135-185 | publication then restoration is the identity on the live files; without faults both succeed exactly on a publishable plan |
| RenewalTransaction.PublishableMeans | internal/tlsconfig/renewal_transaction.go:50-90 | when a plan is publishable, in terms of the plan, the staged manifest, the live pair and the backups |
| RenewalTransaction.RestorableMeans | internal/tlsconfig/renewal_transaction.go:135-185 | when a publication can be restored, in terms of the receipt, the live pair and the content of its backup |
| RenewalRehearsal.Activate | internal/tlsconfig/renewal_activation.go:34-91 | success: disk and listener hold the candidate; completed rollback: listener untouched and disk restored; refusal changes nothing; without faults success exactly when the publication is served and everything loads |
| RenewalRehearsal.PublishAndActivate | internal/tlsconfig/renewal_activation.go:73-79 | disk and listener that agreed before agree again, on the candidate or on the previous pair; without faults activation succeeds exactly on a deployable plan |
| RenewalRehearsal.Rehearse | internal/tlsconfig/renewal_rehearsal.go:37-110 | success ends with the starting pair on disk and in service whatever the issuer gave, and with a backup that forbids publishing from that pair again; without faults it succeeds if and only if the request is valid and not from the future, the pair is currently valid for its key and names, its serial differs as a number from the live one, which is the requested one, stage and backup names are free, and all profiles load before and after |
| BackendLimiter.FailoverTriesAPrefix | internal/proxy/handler.go:292-328 | the attempts are a prefix of the candidates, all but the last moved on, and a request that may not be replayed is tried once |
| BackendLimiter.FailoverAnswers | internal/proxy/handler.go:292-328 | a response is returned if and only if a reachable attempt answers with a status that ends the loop |
| BackendLimiter.Limiter.RoundTrip | internal/proxy/backend_limiter.go:26-66 | whatever other requests do while this one waits, it keeps exactly one slot when a body is returned and none otherwise; a body is returned exactly when limiter and base transport allow it and the wait is not cancelled before a slot is free |
| BackendLimiter.Body.Close | internal/proxy/backend_limiter.go:80-96 | the slot is given back by the first close and by no later one |
| BackendLimiter.FailoverRoundTrip | internal/proxy/handler.go:292-328 | at most m attempts (m the limit or the number of candidates), each but the last a refusal or a 502, 503 or 504 to a request that may be repeated; giving up uses all m; the first candidate in reach that serves is the answer unless a wait is cancelled; one slot is held exactly with a response |
| BackendLimiter.TryInTurn | internal/proxy/handler.go:292-328 | the attempts made settle the verdict of the recursive loop, each as its candidate has it unless its wait was cancelled |
| BackendLimiter.Forward | internal/proxy/handler.go:272-276 | a request is tried three times at most, and three times, or once for each candidate, before it is given up |
| ProxyConcurrency.StepKeepsInv | internal/proxy/backend_limiter.go:37-65 | every step of every request keeps: occupancy equals the number of holders, within the limit, one slot per request at most |
| ProxyConcurrency.SlotsAreAccountedFor | internal/proxy/backend_limiter.go:37-65 | for every interleaving an authority's occupancy is the number of requests holding one of its slots and at most max; taken and released slots balance once a request has failed or its body is closed |
| ProxyConcurrency.ReleaseNeverBlocks | internal/proxy/backend_limiter.go:48-56 | giving a slot back can always proceed |
| ProxyConcurrency.WaitingIsForAHolder | internal/proxy/backend_limiter.go:38-46 | a waiting request holds nothing and waits for a slot that another request holds |
| ProxyConcurrency.NoDeadlock | internal/proxy/handler.go:292-328 | while a request is unfinished some request can move on without any cancellation, even with max 1 and shared authorities |
| ProxyConcurrency.RequestsFinish | internal/proxy/handler.go:292-328 | arrived requests make only so many steps; when none can move, all are finished and every slot is free |
| ProxyConcurrency.VerdictIsFailover | internal/proxy/handler.go:292-328 | in any interleaving a request ends with the verdict of the recursive loop on its own attempts |
| RoundRobin.Rotator.RotateCandidates | internal/proxy/handler.go:206-217 | the candidates from the one the 64-bit ticket names on, then those before it; the ticket grows by one and wraps; fewer than two candidates use no ticket |
| RoundRobin.ConsecutiveTicketsAreFair | internal/proxy/handler.go:206-217 | over any consecutive tickets before the wrap each candidate is first its share of times, rounded down or up |
| RoundRobin.RoundRobinIsFair | internal/proxy/handler.go:206-217 | the same for the requests of one service, however they interleave with those of other services |
| RoundRobin.FairAcrossTheWrapExactly | internal/proxy/handler.go:206-217 | fairness over all stretches of tickets holds if and only if the number of candidates divides 2^64 |
| RoundRobin.PlaceIsWhereItStands | internal/proxy/handler.go:206-217 | where a candidate stands in the list rotated by a ticket |
| RoundRobin.EveryoneIsTriedEqually | internal/proxy/handler.go:206-217 | in as many consecutive tickets as candidates each is among the first min(3, k) exactly that often |
| Config.Found | internal/config/config.go:166-191 | with distinct identifiers a lookup of a service, backend or profile is membership |
| Config.Validate | internal/config/config.go:70-164 | validation accepts exactly the well-formed configurations of the one supported schema |
| Config.ValidateRoutes | internal/config/config.go:125-162 | enabled routes are accepted exactly when service, host, TLS mode and profile are in order and no two conflict in host, prefix and methods |
| Config.ValidateBackends | internal/config/config.go:97-108 | backends are accepted exactly with identifier, usable URL and health path, and distinct identifiers |
| Config.ValidateServices | internal/config/config.go:109-122 | services are accepted exactly with an identifier, references that exist, and distinct identifiers |
| Lifecycle.Store.StageRevision | internal/config/activation.go:43-98 | a validated candidate gets a directory with its manifest, the active file is untouched; exact condition and exact outcome without faults |
| Lifecycle.Store.WriteEntry | internal/config/activation.go:72-98 | a new directory appears in three recorded stages; a failure leaves a stage of it under a name that was free, and nothing else changes |
| Lifecycle.Store.CreateSnapshot | internal/config/recovery.go:48-108 | the snapshot holds exactly the active bytes and can be restored from |
| Lifecycle.Store.ReplaceActive | internal/config/activation.go:158-198 | success is exactly the new content; an error under one fault is exactly the old content |
| Lifecycle.Store.ActivateStaged | internal/config/activation.go:100-217 | success implies the active content was the expected one and is in a new snapshot; one fault leaves it unchanged on error; without faults success if and only if activatable |
| Lifecycle.Store.RestoreSnapshot | internal/config/recovery.go:110-205 | success implies the expected content was active and the snapshot's is now; one fault leaves it unchanged on error; without faults success if and only if restorable |
| Lifecycle.Store.ActivateThenRestore | internal/config/recovery.go:162-191 | activation and restoration give back the exact active content |
| Lifecycle.AnyRun | internal/config/activation.go:100-217 | over any run with any failures the active file always held validated content and everything it ever held is still on disk; when nothing is to fail the run does what its operations say, one after the other |
| Lifecycle.RevisionMeans | internal/config/recovery.go:21 | a revision is forty lower-case hexadecimal digits |
| Routing.ResolveAnswers | internal/routing/router.go:23-65 | the answer is the eligible route of longest prefix, earliest on ties, with its service and enabled backends, and nothing only when none is eligible |
| Routing.EligibleMeans | internal/routing/router.go:39-61 | when a route is eligible, in terms of host without port and case, prefix, method, TLS, and an enabled backend of its service |
| Routing.BackendsInOrder | internal/routing/router.go:52-58 | the backends of a match are the enabled ones its service names, in that order and as often |
| Routing.SortIsStable | internal/routing/router.go:35-37 | the sort is descending, a permutation, and keeps file order among equal lengths |
| Routing.FirstOfSortedIsBest | internal/routing/router.go:35-64 | sort plus first match is longest-prefix choice on the unsorted list |
| Routing.ResolveCandidates | internal/routing/router.go:23-65 | the collecting, sorting and searching loops compute the declared answer |
| Routing.EqualLengthsEqualPrefixes | internal/routing/router.go:75-80 | matching prefixes of equal length are equal |
| Routing.EmptyRanksBelowSlash | internal/routing/router.go:35-37 | ranking prefixes as written answers differently from ranking what they stand for if and only if the answer by meaning has an empty prefix and a later eligible route has "/" |
| Routing.AnswerIsByMeaningExactly | internal/routing/router.go:75-80 | the answer is the answer by meaning unless it has "/" and an earlier eligible route has an empty prefix |
| Examples.SlashWinsOverEmpty | internal/routing/router.go:35-37 | a validated configuration and a request at which the two rankings differ |
| Routing.OrderMattersOnlyOnTies | internal/routing/router.go:35-64 | the answer is the same under every reordering if and only if all longest eligible routes are one and the same |
| Sorting.SortedUniqueOnlyWithoutTies | internal/config/parity.go:86-142 | sorting by identifier has one possible outcome if and only if equal identifiers mean equal entries |
| Sorting.SortStringsPermutes | internal/config/parity.go:86-142 | sorted texts agree if and only if the texts are the same up to order |
| Sorting.SortWithSorts | internal/config/parity.go:96-142 | a sort whose order of places depends on the keys alone sorts |
| Sorting.SomeSorterIsGood | internal/config/parity.go:96-142 | there is such a sort, so what is said of all of them is said of something |
| Sorting.ExchangeShows | internal/config/parity.go:96-142 | under any such sort, exchanging two different entries with one key changes the outcome |
| Parity.ConfigParityFingerprint | internal/config/parity.go:78-154 | a fingerprint exists exactly for well-formed configurations, is one value for a given library sort, and is of a canonical form |
| Parity.RouteSeen | internal/config/parity.go:98-118 | two routes are canonically equal if and only if every field agrees up to white space, host equivalence, "/" for an empty prefix, and case and order of methods |
| Parity.ServiceSeen | internal/config/parity.go:86-96 | two services are canonically equal if and only if identifier and name agree up to white space and the references up to order |
| Parity.FingerprintSeesEveryEntry | internal/config/parity.go:78-154 | equal fingerprints mean the same canonical entries as often in each of the four collections |
| Parity.ShuffledForms | internal/config/parity.go:86-142 | a configuration and its reorderings have the same canonical forms |
| Parity.FingerprintIgnoresOrderExactly | internal/config/parity.go:74-154 | whatever the library's sort, all reorderings of a configuration have its fingerprint if and only if entries with colliding trimmed identifiers are canonically equal |
| ParityRouting.AlikeRoutesMatch | internal/config/parity.go:98-118 | canonically equal trimmed routes that agree about the trailing dot match the same requests |
| ParityRouting.AlikeRoutesMatchExactly | internal/config/parity.go:98-118 | canonically equal trimmed routes match the same requests if and only if both or neither host ends in a dot |
| ParityRouting.AlikeCandidates | internal/config/parity.go:86-142 | equal forms give the same multiset of enabled backends for routes of the same service |
| ParityRouting.EqualFormsRouteAlike | internal/routing/router.go:29-62 | validated configurations with equal fingerprints, trimmed texts and agreeing dots send a request with one eligible route per prefix to the same route and backends |
| ParityRouting.EqualFormsRouteAlikeExactly | internal/routing/router.go:29-62 | with equal fingerprints, trimmed texts, distinct identifiers, live routes and one eligible route per prefix, all requests are routed alike if and only if canonically equal routes agree about the trailing dot |
| ParityRouting.OrderShowsInTheFingerprint | internal/config/parity.go:74-78 | two validated configurations that differ only in the order of two routes and have different fingerprints |
| ParityRouting.TrailingDotEscapesTheFingerprint | internal/config/parity.go:98-118 | two validated configurations with equal fingerprints of which only one answers a request |
| ParityRouting.TrustedProxiesEscapeTheFingerprint | internal/config/parity.go:66-90 | changing only the trusted proxies keeps the fingerprint, although one entry turns a client into a rejected request |
| TlsRuntime.NewInventory | internal/tlsconfig/inventory.go:17-44 | an inventory exists exactly when every required route names an enabled profile and no host has two; it covers exactly the required hosts |
| Examples.SpacedProfileIsNotServable | internal/tlsconfig/inventory.go:28-42 | a configuration that validation accepts and for which no inventory exists |
| TlsRuntime.NewRuntime | internal/tlsconfig/runtime.go:18-54 | a runtime exists exactly when there is an inventory and every enabled profile loads |
| TlsRuntime.EveryRouteGetsItsCertificate | internal/tlsconfig/runtime.go:24-51 | a pair is offered for a name if and only if it is that of the own profile of a required-TLS route with that name |
| TlsRuntime.CertificateIgnoresRouteOrder | internal/tlsconfig/inventory.go:28-42 | the certificate does not depend on the order of routes |
| TlsRuntime.Reloader.Reload | internal/tlsconfig/reloader.go:27-36 | an accepted reload serves the new configuration, a rejected one keeps the last good runtime |
| TlsRuntime.Gateway.ReloadProxy | internal/proxy/handler.go:98-115 | the proxy state is replaced whole, with its policy, or kept |
| TlsRuntime.Gateway.Reload | cmd/gateway/main.go:67-82 | a rejected signal changes neither listener nor proxy; an accepted one puts both on the same configuration |
| TlsRuntime.Gateway.Serve | cmd/gateway/main.go:67-82 | between any two signals both run the last acceptable configuration |
| TrustedProxy.HoldsIsBlock | internal/proxy/trusted_proxy_policy.go:53-60 | a prefix holds exactly one aligned block of its own address family |
| TrustedProxy.UsableMeans | internal/proxy/trusted_proxy_policy.go:62-98 | an address may be used unless it has a zone, is unspecified, or is multicast, also when mapped into IPv6; the unmapped form |
| TrustedProxy.EntryMeans | internal/config/trusted_proxy.go:12-42 | which configuration entries are accepted, by value, and the masked prefix each becomes |
| TrustedProxy.MaskingKeepsMembership | internal/config/trusted_proxy.go:12-42 | masking a prefix does not change which addresses it holds |
| TrustedProxy.PolicyTrustsEntries | internal/config/trusted_proxy.go:12-42 | the policy trusts exactly the addresses held by the entries as written |
| TrustedProxy.BareEntryIgnoresItsZone | internal/config/trusted_proxy.go:21-38 | a bare entry is accepted if and only if its address without the zone may be trusted, and then trusts exactly that address |
| TrustedProxy.ZonedEntryIsAccepted | internal/config/trusted_proxy.go:35-38 | a link-local address with a zone is accepted as an entry |
| TrustedProxy.ParseTrustedProxyPrefixes | internal/config/trusted_proxy.go:12-42 | the loop yields one prefix per entry or rejects the list |
| TrustedProxy.ParseForwardedFor | internal/proxy/trusted_proxy_policy.go:82-98 | the loop yields one address per piece between commas or rejects the text |
| TrustedProxy.ResolveClientAddress | internal/proxy/trusted_proxy_policy.go:32-51 | the answer is the rightmost untrusted address of the chain with the peer appended, or a rejection |
| TrustedProxy.LeftTextCannotChoose | internal/proxy/trusted_proxy_policy.go:32-51 | text in front of an accepted chain changes the answer exactly when it is unreadable behind a trusted peer, and then to a rejection |
| TrustedProxy.MoreTrustMovesLeft | internal/proxy/trusted_proxy_policy.go:32-60 | a larger trusted set moves the choice left |
| TrustedProxy.AddingEntriesIsMonotone | internal/proxy/trusted_proxy_policy.go:32-60 | adding trusted entries never accepts a rejected request and never moves a choice towards the peer |
| TrustedProxy.PoliciesAlikeExactly | internal/proxy/trusted_proxy_policy.go:32-98 | two policies resolve every client alike if and only if they agree about every peer address and, when some peer is trusted, about every address a forwarding header can name |
| ChallengeNames.PresentedWhereObservedExactly | internal/tlsconfig/porkbun_dns01.go:228-255 | the record's name in its zone is the polled name, for every accepted name except the zone's own with a dot before it; polling is never refused |
| ChallengeNames.WildcardSharesTheName | internal/tlsconfig/acme_issuer.go:355-364 | a name and its wildcard are observed under the name itself below "_acme-challenge" |
| ChallengeNames.ZoneMeans | internal/tlsconfig/porkbun_dns01.go:210-226 | a zone is exactly a host name of two or more labels; `LabelMeans` says of which characters |
| ChallengeNames.RecordNameMeans | internal/tlsconfig/porkbun_dns01.go:228-267 | a record exists exactly for the zone and for names below it without blanks, stars, slashes or doubled dots, and is "_acme-challenge" below what the name is below the zone |
| ChallengeNames.DottedZoneIsObservedElsewhere | internal/tlsconfig/acme_issuer.go:355-364 | a name whose record and polled name differ |
| ChallengeNames.OneRecordPerName | internal/tlsconfig/porkbun_dns01.go:228-255 | two names, neither of them the dotted zone, share a record only if they are the same up to case, one trailing dot and one wildcard label |
| Issuance.ValidateOrder | internal/tlsconfig/acme_issuer.go:305-333 | the loops accept exactly the orders of the declared form |
| Issuance.FindRequestedName | internal/tlsconfig/acme_issuer.go:335-353 | an authorization is accepted exactly when it is for a DNS name that, with the wildcard label it claims, is one of the requested names |
| Issuance.FindPendingChallenge | internal/tlsconfig/acme_issuer.go:257-263 | what is found is the first challenge on offer that is of kind "dns-01" and pending, and nothing is found exactly when there is none |
| Issuance.TaskMeans | internal/tlsconfig/acme_issuer.go:252-273 | an authorization can be answered exactly with its URI, the first pending "dns-01" challenge, that challenge's token and URI, and an answer to the token |
| AcmeIssuer.Issuer.CompleteAuthorization | internal/tlsconfig/acme_issuer.go:252-303 | on every way out the records in place are those of before; success means the last verdict was "valid" and the record was then cleaned up |
| AcmeIssuer.Issuer.AuthorizeAll | internal/tlsconfig/acme_issuer.go:178-197 | the loop over authorizations has exactly the effects of the recursive meaning |
| AcmeIssuer.Issuer.IssueRenewal | internal/tlsconfig/acme_issuer.go:145-250 | the trace it leaves is lawful with no record in place, and a certificate is issued exactly when the request is well formed and no answer was unfavourable; the chain is not empty and has no empty certificate |
| IssuanceSafety.IssuanceIsLawful | internal/tlsconfig/acme_issuer.go:145-250 | for every answer of the outside, each call is preceded by what it needs, authorizations are retrieved one after the other in the order's own sequence, each after the earlier ones were seen valid, and no record is left in place |
| IssuanceSafety.FinalizationIsEarned | internal/tlsconfig/acme_issuer.go:178-228 | before a finalization exactly the authorizations of the order were retrieved, in order, each was seen valid, and every record presented was successfully cleaned up |
| IssuanceSafety.FinalizationGoesTo | internal/tlsconfig/acme_issuer.go:199-228 | a finalization follows a report that the order is ready and goes to the address in it, or to the one in the order when it names none |
| IssuanceSafety.EveryRecordIsCleanedUpOnce | internal/tlsconfig/acme_issuer.go:268-281 | on every path each returned record gets exactly one clean-up call, its own, before anything else is presented |
| IssuanceSafety.AcceptanceFollowsObservation | internal/tlsconfig/acme_issuer.go:283-293 | a challenge is accepted only right after its value was seen; it is the first pending "dns-01" challenge of the authorization just retrieved, and the value presented and seen answers its token |
| IssuanceSafety.ObservationFollowsPresentation | internal/tlsconfig/acme_issuer.go:264-289 | the value looked for is that of the record in place, under the challenge name of the requested name |
| IssuanceSafety.IssuedExactlyWhenAllAnswersAreFine | internal/tlsconfig/acme_issuer.go:145-250 | a certificate is issued exactly when the request is well formed and no answer was unfavourable, and it is the chain of the last answer |
| IssuanceSafety.OrderMatchesExactlyWithoutRepeats | internal/tlsconfig/acme_issuer.go:305-333 | an accepted order is for exactly the requested names if and only if it repeats no identifier |
| IssuanceSafety.RepeatedIdentifierPasses | internal/tlsconfig/acme_issuer.go:305-333 | an accepted order that misses a requested name |

## Left out

- Cryptography, X.509, PEM, base64, JSON, hex and time formats: contents are values; digests are injective and
  represented by what they are of; sealed envelopes open exactly under the wrapping key they were sealed with. The
  names of a certificate are those a client accepts it for, so wildcards in certificates are not modelled.
- Parsers of addresses, prefixes, host-port pairs and URLs: parameters (`Syntax`), any functions; `Policy` adds the
  checks the gateway makes. Text is ASCII, so case folding is ASCII folding.
- HTTP transports, TLS handshakes, the Porkbun HTTP calls, the health-check client and `healthyCandidates`: the
  number of healthy candidates and the answers of backends are given.
- Path cleaning, symbolic-link and permission checks: paths are names, and only this code writes them. A live
  certificate path equal to its key path never loads in the model.
- RolloverTheorems.KeyNeverLost: for one operator; what holds for more of them is `SafeForExactlyOneOperator` and
  `SafeForExactlyTwoWithoutTornWrites`. Keys are named by the order of generation, so a key is its own fingerprint and
  truncated digests in file names do not collide. An exclusive write with its syncs is one step. A loss of power
  leaves some directory since the last successful directory sync. Account registration is not modelled: runs start
  from a registered account.
- RolloverTwoOperators.TwoOperatorsNeverLoseAKey: an operator's load (several reads of the active envelope and one of
  the bundle) and its exclusive write with the clean-up by path are single steps. An unfinished write that the other
  operator renames counts as a torn one; a clean-up that comes late and removes the other's file is not modelled.
- RolloverLoss.SafeForExactlyTwoWithoutTornWrites: the same holds for its safe half; the losing runs need no such
  interleaving.
- RolloverTheorems.NoBlindReplay: the recovery between two requests is one that removed the pending envelope; its
  directory sync may have been cut short.
- RolloverTheorems.RecoveryConverges: for a whole pending envelope; what a torn one means is
  `SettlesExactlyWithoutTornAuthority`.
- RenewalTransaction.RestorePublication: it needs a loadable live pair, so a mixed live pair is recovered from backup
  and staging (`Salvageable`), not by this operation.
- RenewalRehearsal.Rehearse: time enters only as the moment at which the material is validated; expiry is not checked
  again at later steps of the model.
- Lifecycle.AnyRun: one process at a time works on the lifecycle directories; between check and rename nothing else
  writes the active file.
- BackendLimiter.FailoverRoundTrip: the request enters holding no slot; what the others do meanwhile is given for each
  attempt. A wait that nobody cancels ends when another request gives its slot back.
- ProxyConcurrency.RequestsFinish: returned bodies are assumed to be closed eventually, which appears as the step
  `CloseBody` being available; a request brings at most three candidate hosts, the attempts in reach.
- IssuanceSafety.FinalizationIsEarned: an authorization counts as seen valid under the URI that its own retrieval
  reported, which the code polls, and not under the URL in the order if a client reported another.
- AcmeIssuer.Issuer.IssueRenewal: the checks for absent collaborators and an already cancelled context are not modelled,
  and the polling loop of the propagation waiter is one answer.
- Status pages, readiness, renewal evidence, registration plan checks and the command-line tools: counting facts and
  wiring.
