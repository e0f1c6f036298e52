# Vial Gateway: a verified model

This project models the stateful core of Vial Gateway, a Go API gateway, in Dafny and proves what
that core keeps over every input, every interleaving and every run. It covers the Redis-backed
configuration protocol with its replicas, the snapshot manager, the distributed token bucket, the
balancer and the retry loop, the response cache, the JWT key refresh, the JSON and path
transformations, configuration validation against compilation, and audit paging.

`dafny verify dfyconfig.toml` checks all of it.

| file | content |
|---|---|
| `ConfigProtocol.dfy`, `ConfigHazards.dfy`, `ConfigDeployment.dfy` | create, activate, delete, bootstrap and the admin client's edit, one Redis command at a time, with WATCH as revision counters |
| `Replica.dfy`, `ReplicaHazards.dfy` | the watch loop of any number of gateways beside that protocol |
| `SnapshotManager.dfy` | concurrent Activate and Validate, and who must cancel which context |
| `TokenBucket.dfy`, `BucketRefusals.dfy`, `BucketReconfiguration.dfy` | the Lua script in exact arithmetic, key expiry, failing open; what refusals cost; buckets whose policy changes |
| `Balancer.dfy`, `Forwarding.dfy` | round robin in uint64 arithmetic; the retry loop |
| `ResponseCache.dfy`, `CacheControl.dfy` | cache keys, storing, hits, reconfiguration between them; reading max-age |
| `JwksRefresh.dfy` | the double-checked refresh |
| `JsonTransform.dfy`, `PathRewrite.dfy`, `RoutePatterns.dfy`, `ConflictHazards.dfy` | the transformations, and the multiplexer patterns against the conflict keys |
| `ConfigValidation.dfy`, `ConfigCompilation.dfy` | GatewayConfig.Validate; manager.compile, the activation handler and authenticate on what it compiled |
| `AuditPaging.dfy` | listAudit and the client's cursor stack |
| `Basics.dfy`, `Text.dfy` | the optional value and the string functions of the others |

Protocols are deterministic step functions on values; an event names who moves, so a sequence of
events is an interleaving and a theorem about every sequence is one about every interleaving. Loops
and objects of the source are methods and classes proved against specification functions. Map
iteration in Go's random order is a choice the methods leave open.

## Where the code falls short of a plausible promise

Each of these is a theorem here, with the exact condition beside it.

- The two SETNX commands of a start are not atomic: a deletion in between leaves the active pointer
  naming nothing (`BootstrapCanDangle`). That happens exactly when the second command finds neither
  an active pointer nor its own configuration (`RunDanglesExactly`), and once the active pointer is
  right it stays right (`PointerStaysStored`).
- The documentation calls versions immutable, but a deleted number can be stored again with other
  content; then If-Match cannot tell that the active pointer moved away and back
  (`RecreationLosesAnUpdate`). Without that no update is lost (`NoLostUpdates`), and in any
  interleaving an edit is sure to be kept exactly when, at its EXEC, the version it edited and its
  own still have the contents it read (`EditsHonestExactly`).
- The documentation says polling repairs convergence. In a gateway that also serves the admin API,
  handler and watch loop both swap the snapshot and then store the version, without a lock; they can
  leave redisVersion equal to the active pointer and another version live, for good
  (`AdminGatewayCanStick`). Polling repairs everything else, from any phase of the loop
  (`RecoversExactly`, `UndecidedRecoversExactly`). A gateway changed only by its watch loop
  converges (`ReplicaConverges`).
- Key expiry after two windows forgets debt when the burst is larger than what two windows refill;
  `ExpiryInvisibleExactly` gives the exact condition and `AdmissionBound` the price. A refused call
  can then keep the key from lapsing and cost its caller a full bucket; `RefusalsAreFreeExactly`
  says when it costs nothing.
- A probe index that wraps around 2^64 skips an endpoint unless the pool's size divides 2^64
  (`PickAgreesExactly`).
- A max-age that is zero, negative or no number is read like no max-age, and such a response is
  repeated for the whole policy lifetime (`MaxAgeZeroIsRepeated`); a positive one is never overrun
  (`OverrunExactly`).
- A response marked no-cache is stored and repeated (`NoCacheIsRepeated`); only no-store, private,
  a cookie or another status than 200 keep a response out (`RepeatedExactly`), and of a field with
  several lines, which section 5.3 of RFC 9110 combines, only the first counts
  (`FurtherLinesAreIgnored`).
- Digests of keys listed under a `jwt` or `none` policy are never validated, and compilation takes
  them as zero (`DigestsCheckedExactly`, `MalformedDigestIsAccepted`). It has no consequence: no
  principal is granted by such a digest (`KeyGrantsAreDecoded`).
- Empty methods and hosts, slashes in either, spaces in hosts and prefixes that end in two slashes
  escape conflict detection; nothing else does, and each does alone (`DetectsExactly`). A host
  written "*" is refused needlessly (`StarIsRefused`).
- The rewrite "//" and an upstream URL with a path are not undone on redirects
  (`RoundTripExactly`), and a rewritten redirect can begin with two slashes, which is no longer a
  path (`LooksLikeHostExactly`).
- Renames that share a target or feed each other depend on Go's map order
  (`OrderIndependentExactly`).
- Audit loads that overlap can put a cursor under the wrong page
  (`OverlappingLoadsMisplaceCursor`), exactly when an answer arrives for a page whose cursor is
  another by then and has not had that answer (`ArrivalKeepsStackExactly`, `StackRightExactly`).

## Model

| member | source | states |
|---|---|---|
| `Text.FormatIntInjective` | cmd/gateway/control.go:696 | version numbers that print alike are equal, so keys and If-Match values identify versions |
| `ConfigProtocol.RunKeepsInformed` | cmd/gateway/control.go:236-256 | in every interleaving, while the watched revisions stand, what an in-flight activation or deletion read of pointer and version is still so |
| `ConfigProtocol.ResponseJustified` | cmd/gateway/control.go:300-323 | any command that changes the store does so only when that is right at that instant: SETNX on an absent key, DEL of a stored inactive version, SET of the active pointer to a stored version with If-Match equal to the active pointer |
| `ConfigProtocol.PointerStaysStored` | cmd/gateway/control.go:229-344 | once the active pointer names a stored version, every continuation of every interleaving keeps it naming one, whatever was in flight |
| `ConfigProtocol.CommitsMatchThePointer` | cmd/gateway/control.go:300-323 | from any store, in every interleaving, every committed activation carried the active pointer's value at its EXEC as If-Match and found its version stored, each but the first starts from the version and content the one before installed, and the last one's is active |
| `ConfigProtocol.ChainBeginsAtTheStore` | cmd/gateway/control.go:300-323 | where the store has a stored active configuration to begin with, the chain of commits begins with it |
| `ConfigProtocol.RunKeepsBased` | cmd/gateway/admin-ui/app.js:387-397 | in every interleaving from any store, an edit in progress never faces an active pointer that names its base in vain, and every committed edit found the active pointer on its base, stored, and on the version its caller expected if it named one |
| `ConfigProtocol.RunKeepsSound` | cmd/gateway/control.go:177-195 | from any store, unless a deleted version is stored again with other content, each version has one content for ever, all that clients and handlers remember agrees with it, and every commit is honest |
| `ConfigProtocol.ReplayFollowsTheChain` | cmd/gateway/admin-ui/app.js:387-397 | folding the changes along a chain of honest commits gives the content the last one installed |
| `ConfigProtocol.NoLostUpdates` | cmd/gateway/admin-ui/app.js:387-397 | from any store, empty ones included, in every interleaving that stores no deleted version again with other content, each successful edit installs its change applied to what was active immediately before its commit, and the active content is the fold of all commits in order over what was active before the first |
| `ConfigProtocol.NoLostUpdatesFrom` | cmd/gateway/admin-ui/app.js:387-397 | where the store has a stored active configuration to begin with, the fold starts from it, also when nothing commits |
| `ConfigProtocol.DeleteFreeRunsNeverRecreate` | cmd/gateway/control.go:229-256 | interleavings without deletions satisfy that hypothesis |
| `ConfigHazards.ActivationSucceedsAlone` | cmd/gateway/control.go:274-344 | an activation with the right If-Match that nothing interrupts always commits, with exactly this effect |
| `ConfigHazards.DeletionSucceedsAlone` | cmd/gateway/control.go:229-256 | an undisturbed deletion of a stored inactive version removes it and nothing else |
| `ConfigHazards.CreationSucceedsAlone` | cmd/gateway/control.go:177-195 | an undisturbed creation under a new number stores it and nothing else |
| `ConfigHazards.BootstrapCanDangle` | cmd/gateway/control.go:608-613 | an interleaving on an empty store after which the active pointer names a version that is not stored |
| `ConfigHazards.StepDanglesExactly` | cmd/gateway/control.go:611 | a command makes the active pointer dangle if and only if it is the second SETNX of a start that finds no active pointer while its configuration is not stored |
| `ConfigHazards.RunDanglesExactly` | cmd/gateway/control.go:602-616 | an interleaving from a good store ever makes the active pointer dangle if and only if some command met that guard |
| `ConfigHazards.FreshStartIsSafe` | cmd/gateway/control.go:602-616 | without deletions and failed first SETNX, no interleaving of starts and requests sets the active pointer before what it names |
| `ConfigHazards.RecreationLosesAnUpdate` | cmd/gateway/control.go:286-323 | an interleaving with a deletion and re-creation in which an edit commits over content it never read |
| `ConfigHazards.EditsHonestExactly` | cmd/gateway/control.go:286-323 | from any store, in every interleaving, each committed edit found the active pointer on the version it edited, and is honest for every change it may have made if and only if that version and its own had at EXEC the contents it read |
| `ConfigHazards.ExecHonestExactly` | cmd/gateway/control.go:300-323 | the same as a condition on the store just before the EXEC |
| `ConfigDeployment.EditsComeFromRequests` | cmd/gateway/admin-ui/app.js:387-390 | in every interleaving from any store each committed edit was asked for by a request with this very change, and one that named the version it expected committed only while that version was active |
| `ConfigDeployment.DeploySucceedsAlone` | cmd/gateway/admin-ui/app.js:387-397 | an undisturbed edit whose caller expects the active version or none in particular always commits: the change of the active content is stored under a number above every version the SCAN reported, and active, and nothing else changes |
| `ConfigDeployment.FullScanFindsAFreeNumber` | cmd/gateway/admin-ui/app.js:393-394 | a SCAN that reports every stored version leads to a number that is free |
| `ConfigDeployment.DeployRefusedAlone` | cmd/gateway/admin-ui/app.js:390 | an edit whose caller expects another version changes nothing |
| `ConfigDeployment.ThrowingChangeStoresNothing` | cmd/gateway/admin-ui/app.js:391-392 | nor does one whose change throws |
| `ConfigDeployment.RejectedChangesNothing` | cmd/gateway/control.go:182-185 | a configuration that validation rejects is neither stored nor activated, and the request ends |
| `ConfigDeployment.StartSucceedsAlone` | cmd/gateway/control.go:602-616 | an undisturbed start stores its configuration unless that version is there, sets the active pointer unless there is one, and changes nothing else |
| `Replica.RunKeepsFollowing` | cmd/gateway/control.go:629-650 | the invariant of a gateway changed only by its watch loop, along every run of the whole system from any store |
| `Replica.ReplicaAgrees` | cmd/gateway/control.go:628-670 | unless a deleted version is stored again with other content, a nonzero redisVersion names the stored content that is live, except between swap and store, where the version about to be recorded does; the live content always is one the gateway compiled |
| `Replica.InstalledStays` | cmd/gateway/control.go:634-636 | once installed, the version the active pointer keeps naming stays installed, whatever fails or interleaves |
| `Replica.DistanceFalls` | cmd/gateway/control.go:629-650 | while the active pointer stands, each successful step of the loop brings the gateway closer and nobody sets it back |
| `Replica.ReplicaConverges` | cmd/gateway/control.go:628-670 | from any store and after any history that stores no deleted version again with other content, seven successful steps of the loop (the load in flight and one more) install the settled version, permanently, without any notification |
| `Replica.HandlerInstalls` | cmd/gateway/control.go:336-340 | the local half of an undisturbed activation installs and records its version in its own gateway if that compiles it, and changes no other gateway |
| `ReplicaHazards.NeverReloads` | cmd/gateway/control.go:634-636 | a gateway whose redisVersion equals the active pointer never looks at its live snapshot again |
| `ReplicaHazards.AdminGatewayCanStick` | cmd/gateway/control.go:336-340 | an interleaving of handler and watch loop after which version 2 is live, pointer and redisVersion say 3, and no polling repairs it |
| `ReplicaHazards.RecoversExactly` | cmd/gateway/control.go:628-670 | whatever handlers and deletions did before and whatever load is in flight, once no handler runs in a gateway and the active pointer stays on a stored version it compiles, the steps its loop still needs, at most seven, record that version, and it is live if and only if what was recorded, or read, or swapped in under that version was its content |
| `ReplicaHazards.UndecidedRecoversExactly` | cmd/gateway/control.go:634-648 | the one case that a later read decides, another version about to be read while this one is recorded: live if and only if that read finds a content the gateway compiles, or it was live before |
| `SnapshotManager.ContextsAreOwned` | cmd/gateway/app.go:244-279 | in every interleaving of Activate and Validate, with errors and recovered panics, each context is current, owned by exactly one call, or cancelled, and only one of these; none is cancelled twice |
| `SnapshotManager.QuietManagerLeaksNothing` | cmd/gateway/control.go:594-600 | with no call in flight exactly the current context is live, and the cancelled ones make up the rest in number too |
| `SnapshotManager.LastGoodStays` | cmd/gateway/app.go:204-213 | the current snapshot changes only at the swap of an Activate that compiled; rejections leave it |
| `SnapshotManager.PublishesExactly` | cmd/gateway/app.go:204-213 | in every run the step after a compiled Activate makes its context current, whatever was, and no other step changes what is current |
| `SnapshotManager.CurrentIsTheLastPublished` | cmd/gateway/app.go:210 | in every run the current context is that of the last swap |
| `SnapshotManager.ActivateSucceedsAlone` | cmd/gateway/app.go:204-213 | an undisturbed Activate that validates and compiles ends with its own context current and the previous one cancelled, and nothing else changed |
| `SnapshotManager.ValidateLeavesNothing` | cmd/gateway/control.go:594-600 | an undisturbed Validate ends with its own context cancelled, and nothing else changed |
| `SnapshotManager.RejectionLeavesNothing` | cmd/gateway/app.go:244-266 | a call that is rejected or does not compile leaves at most a cancelled context |
| `TokenBucket.RefillFormula` | cmd/gateway/app.go:535 | the script's quotient equals a refill of requests/window per millisecond |
| `TokenBucket.TokensStayInRange` | cmd/gateway/app.go:533-538 | a call leaves between 0 and capacity tokens in any bucket that is not negative, also one another policy left |
| `TokenBucket.RunStaysInRange` | cmd/gateway/app.go:533-540 | and after every run of calls, with or without expiry |
| `TokenBucket.ExpiryRefines` | cmd/gateway/app.go:532-540 | when the shortest lapse refills the bucket, the expiring bucket decides every call of every run like one that never expires, from any bucket that is not negative |
| `TokenBucket.SmallBurstRefills` | cmd/gateway/config.go:270-274 | that is so when the burst does not exceed the requests |
| `TokenBucket.ExpiryGrantsMore` | cmd/gateway/app.go:539-540 | otherwise spending all, waiting for the lapse and spending all again is granted in full by the expiring bucket only, above capacity plus refill |
| `TokenBucket.ExpiryInvisibleExactly` | cmd/gateway/app.go:532-540 | expiry changes no decision of any run if and only if the shortest lapse refills the bucket |
| `TokenBucket.PatientCallerNeverRefused` | cmd/gateway/app.go:533-538 | a caller alone on its bucket with calls at least window/requests apart is never refused, across lapses, on runs of any length |
| `TokenBucket.Budget` | cmd/gateway/app.go:529-564 | requests admitted beyond fail-opens are paid for by tokens present, refill, and the gain of each lapse, and lapses take two windows of silence |
| `TokenBucket.AdmissionBound` | cmd/gateway/app.go:529-564 | from any bucket that is not negative, a run whose calls span D ms admits at most C + D·requests/window + floor(D/(2·window))·max(0, burst − requests), plus one per fail-open |
| `BucketRefusals.RefusalTakesNothing` | cmd/gateway/app.go:535-538 | on a bucket that keeps its key, after a refused call any later call finds the level it would have found without it |
| `BucketRefusals.RefusalsCanBeLeftOut` | cmd/gateway/app.go:529-540 | there, leaving any of the refused calls out of a run changes no decision of the others |
| `BucketRefusals.RefusalsAreFreeExactly` | cmd/gateway/app.go:529-540 | with expiry that holds of all runs if and only if the shortest lapse refills the bucket or it gains a token a millisecond |
| `BucketRefusals.AdmissionFloor` | cmd/gateway/app.go:533-538 | in every run admitted calls and the tokens left are at least the tokens at the start and the refill, less what ran over the capacity |
| `BucketRefusals.RefusedMeansServed` | cmd/gateway/app.go:536-538 | a run that ends in a refusal admitted more than that less one |
| `BucketRefusals.FreshBucketAdmits` | cmd/gateway/app.go:555 | an unused bucket admits n calls at one instant if and only if n is at most requests + burst |
| `BucketRefusals.KeyLivesTwoWindows` | cmd/gateway/app.go:539 | the key is there for two windows after a call, and gone after that |
| `BucketReconfiguration.SamePolicy` | cmd/gateway/app.go:555-557 | with one policy the bucket that keeps the time to live of its last call is the one above |
| `BucketReconfiguration.ReconfiguredStaysInRange` | cmd/gateway/app.go:533-540 | under changing policies each call leaves between 0 and the capacity of its own policy |
| `BucketReconfiguration.ReconfiguredConserves` | cmd/gateway/app.go:529-564 | whatever policies a bucket goes through, admissions beyond fail-opens and the tokens left are covered by the tokens at the start and the credit of each call |
| `BucketReconfiguration.ReconfiguredBound` | cmd/gateway/app.go:529-564 | from any bucket a run over D ms whose policies share limits on capacity, rate, window and lapse gain admits at most most + rate·D + floor(D/(2·least))·gain, plus one per fail-open |
| `BucketReconfiguration.OwnLimits` | cmd/gateway/app.go:555-557 | the limits of a single policy, which give the bound above |
| `TokenBucket.RateLimiter.Available` | cmd/gateway/app.go:530-535 | the script's reading half computes the specified level, with the key gone after its time to live |
| `TokenBucket.RateLimiter.Script` | cmd/gateway/app.go:529-540 | the script's decision and the stored hash are those of the specification |
| `TokenBucket.RateLimiter.AllowRequest` | cmd/gateway/app.go:542-564 | a request passes by the script's answer, or because Redis failed, and then, and only then, the fail-open counter grows by one |
| `Balancer.UpstreamPool.Pick` | cmd/gateway/app.go:740-750 | returns the first healthy endpoint in probing order from its ticket, and advances the counter modulo 2^64 |
| `Balancer.UpstreamPool.HasHealthy` | cmd/gateway/app.go:752-759 | true exactly when some endpoint is healthy |
| `Balancer.Readiness` | cmd/gateway/app.go:231-242 | ready exactly when every pool has a healthy endpoint, else a pool that has none |
| `Balancer.FirstFromMeaning` | cmd/gateway/app.go:743-749 | nothing is picked exactly when every probe is unhealthy; what is picked is healthy and all probes before it are not |
| `Balancer.ProbedOnce` | cmd/gateway/app.go:744 | without a harmful wrap every endpoint is probed at exactly one offset |
| `Balancer.PickAgreesExactly` | cmd/gateway/app.go:740-759 | on all health patterns pick agrees with hasHealthy if and only if the probes do not wrap or the pool's size divides 2^64 |
| `Balancer.TicketSelects` | cmd/gateway/app.go:740-750 | without a harmful wrap a ticket selects a healthy endpoint exactly when it starts within the cyclic distance back to the previous healthy one |
| `Balancer.ExactShares` | cmd/gateway/app.go:740-750 | over any n consecutive tickets each healthy endpoint is selected exactly as often as that distance, an unhealthy one never; also across a wrap of the counter when the size divides 2^64 |
| `Forwarding.Attempts` | cmd/gateway/app.go:582-585 | more than one attempt only for methods idempotent by section 9.2.2 of RFC 9110 and buffered bodies, never more than 1 + retries |
| `Forwarding.RetriedUntilGood` | cmd/gateway/app.go:582-613 | for GET, HEAD, PUT, DELETE and OPTIONS without streaming the first response below 500 within 1 + retries attempts is the answer, after as many attempts as it took; for others the first attempt's |
| `Forwarding.GivesUpAfterTheLast` | cmd/gateway/app.go:582-615 | if all these attempts fail, exactly 1 + retries were made, one for other requests, and the answer is the last one's response or error |
| `Forwarding.Forward` | cmd/gateway/app.go:566-634 | the loop stops at the first decisive attempt; trips with what their body readers still hold, responses obtained and closed, metric and result are those the outcomes call for |
| `Forwarding.Reader.Read` | cmd/gateway/app.go:629-633 | what is read from a request body is gone |
| `Forwarding.ForwardConserves` | cmd/gateway/app.go:566-636 | at most 1 + retries round trips, one for other methods or streaming; each starts from the whole body, whatever earlier ones read; every response obtained is closed exactly once except the one returned |
| `Forwarding.SharedBodyExactly` | cmd/gateway/app.go:629-630 | attempts sharing one reader, as a streamed body is shared, would all start from the whole body if and only if it is empty or none but the last reads any |
| `Forwarding.AnswersWithTheFirstGoodResponse` | cmd/gateway/app.go:603-613 | the earliest response below 500 is the one returned |
| `Forwarding.Serve` | cmd/gateway/app.go:427-447 | after the answer is written every response obtained has been closed exactly once; 413 and 400 without a round trip for unreadable and untransformable bodies; else every trip carries the body, transformed where it has to be, and the status is that of the first good response, 502 if its body cannot be passed on, and 502 or 413 when there is none |
| `ResponseCache.JoinInjective` | cmd/gateway/app.go:697 | joining NUL-free parts with NUL loses nothing |
| `ResponseCache.KeysSeparate` | cmd/gateway/app.go:682-698 | equal keys mean the same name, method, URI, principal where the policy asks for it, and value of every vary header, also under different policies of one route name; a key that names a principal equals none that does not |
| `ResponseCache.KeysAgree` | cmd/gateway/app.go:682-698 | conversely requests that agree on all of these get the same key |
| `ResponseCache.KeyedExactly` | cmd/gateway/app.go:683-689 | a request has a key if and only if the route has a cache policy, the method is GET or HEAD, and its first Cache-Control line has neither no-cache nor no-store |
| `ResponseCache.CanonicalExactly` | cmd/gateway/app.go:695 | vary headers are the same exactly when they are spelled alike but for case |
| `CacheControl.SplitJoins` | cmd/gateway/app.go:1008 | splitting a field into directives loses nothing |
| `CacheControl.FirstMaxAgeMeaning` | cmd/gateway/app.go:1008-1014 | the value read is that of the first max-age directive, and none only when there is none |
| `CacheControl.TrimSpaceOf` | cmd/gateway/app.go:1009 | trimming removes the surrounding white space and nothing else |
| `CacheControl.AtoiReads` | cmd/gateway/app.go:1011 | numbers are read as written, clamped to int64; anything else gives zero or, past an overflow, a clamped value |
| `CacheControl.WrittenOfFormat` | cmd/gateway/app.go:1011 | a printed number of any size is read back |
| `CacheControl.CacheMaxAge` | cmd/gateway/app.go:1007-1016 | the loop returns the duration of the first max-age directive, wrapped in int64, or zero |
| `CacheControl.NanosAgainstStated` | cmd/gateway/app.go:1012 | the duration is the stated one if that is positive and fits, and not positive if the stated one is zero |
| `ResponseCache.LifetimeAgainstStated` | cmd/gateway/app.go:728-731 | the lesser of a positive stated age and the policy lifetime, and the whole policy lifetime without one |
| `ResponseCache.RunConsistent` | cmd/gateway/app.go:638-738 | in every run each stored entry is what its exchange received and passed on |
| `ResponseCache.CacheIsTransparent` | cmd/gateway/app.go:700-738 | each hit repeats, within its lifetime, an earlier exchange under the same key, apart from X-Cache |
| `ResponseCache.ContainsMeaning` | cmd/gateway/app.go:687 | the directive search finds exactly the substrings |
| `ResponseCache.HitsAreShareable` | cmd/gateway/app.go:720-731 | only 200 responses without cookie, no-store or private in the first line of the fields (sections 5.2.2.5 and 5.2.2.7 of RFC 9111) are repeated, only for GET and HEAD without no-cache or no-store, and no later than the policy and a positive max-age as written allow |
| `ResponseCache.CacheSeparatesPrincipals` | cmd/gateway/config.go:315-322 | a hit has the key parts of the exchange it repeats, and on an authenticated route the same principal, across reconfigurations |
| `ResponseCache.HitsAgreeOnVary` | cmd/gateway/app.go:694-696 | in every run a hit has for every vary header of its route the value of the request it repeats, and gets that response's body, or none for HEAD |
| `ResponseCache.EntryExactly` | cmd/gateway/app.go:720-738 | after every run the cache holds a key if and only if some response was stored under it and not unlinked since, and then the last one |
| `ResponseCache.LookupHitsExactly` | cmd/gateway/app.go:700-738 | after every run a request is answered from the cache if and only if the last storable response under its key was not unlinked and its lifetime has not passed |
| `ResponseCache.OverrunExactly` | cmd/gateway/app.go:720-738 | after every run a storable response with a max-age is repeated beyond it if and only if the value is no positive number |
| `ResponseCache.MaxAgeZeroIsRepeated` | cmd/gateway/app.go:1007-1016 | with the field max-age=0 the stated age is zero and the response is repeated beyond it, after every run and under every policy |
| `ResponseCache.RepeatedExactly` | cmd/gateway/app.go:682-731 | after every run a response is repeated at a positive age if and only if the route has a cache policy, the method is GET or HEAD, the request asks for nothing fresh, the body fits both limits, and it is a 200 without cookie whose first Cache-Control line has neither no-store nor private, whatever else it has |
| `ResponseCache.NoCacheIsRepeated` | cmd/gateway/app.go:724-727 | with the field no-cache (section 5.2.2.4 of RFC 9111) it is |
| `ResponseCache.FurtherLinesAreIgnored` | cmd/gateway/app.go:721-725 | and with a first line max-age=60 whatever further Cache-Control lines say, no-store included |
| `JwksRefresh.RunKeepsInv` | cmd/gateway/app.go:480-502 | the invariant tying every verifier's phase to the mutex, the key set and the clock, over every interleaving |
| `JwksRefresh.RefreshIsDisciplined` | cmd/gateway/app.go:480-502 | at most one fetch in flight; the mutex is held exactly while a verifier is inside; replacements more than five minutes apart; each verification uses a set at most five minutes old when checked, or one it fetched |
| `JwksRefresh.KeysWereFetched` | cmd/gateway/app.go:490-499 | in every run every key set put in place is one a fetch returned |
| `JwksRefresh.RefreshAlone` | cmd/gateway/app.go:485-502 | an undisturbed verifier that finds the set stale puts the fetched one in place, uses it and releases the mutex |
| `JwksRefresh.YoungSetIsUsed` | cmd/gateway/app.go:482-485 | one that finds it young uses it and changes nothing |
| `JsonTransform.RemoveKeys` | cmd/gateway/app.go:865-867 | the listed members are gone, others stay |
| `JsonTransform.RenameKeys` | cmd/gateway/app.go:868-873 | the result of the renames in some order that visits each key once |
| `JsonTransform.AddKeys` | cmd/gateway/app.go:874-876 | additions win, others stay |
| `JsonTransform.TransformJSON` | cmd/gateway/app.go:858-878 | removals, renames in some order, additions; refused exactly when the body is no object |
| `JsonTransform.ClosedFormUnique` | cmd/gateway/app.go:865-876 | the closed form (removals first, present sources moved, additions win) determines the object |
| `JsonTransform.EveryOrderGivesTheClosedForm` | cmd/gateway/app.go:865-876 | without conflicting renames every iteration order gives the closed form |
| `JsonTransform.EveryOrderGivesTheEffectiveForm` | cmd/gateway/app.go:865-876 | without clashes every order gives the closed form of the transform less the renames that removals make idle |
| `JsonTransform.OrderIndependentExactly` | cmd/gateway/app.go:858-878 | for every transform, the result is the same for all objects and orders if and only if no two renames clash |
| `JsonTransform.DistinctTargetsDoNotConflict` | cmd/gateway/app.go:868-873 | distinct targets that are no sources neither conflict nor clash |
| `PathRewrite.UpstreamResponse.RewriteRedirectLocation` | cmd/gateway/app.go:937-960 | same-host redirects become relative under the route's prefix with query and fragment kept; others are untouched |
| `PathRewrite.RoundTripExactly` | cmd/gateway/app.go:925-960 | mapping a path to the upstream and a redirect to it back gives the original path if and only if the upstream has no base path and the rewrite is not "//" |
| `PathRewrite.UpstreamPathShape` | cmd/gateway/app.go:618-622 | what the upstream receives for a path under the route: its own path, the rewrite and the rest |
| `PathRewrite.StripsWholeSegments` | cmd/gateway/app.go:948-951 | the rewrite is stripped from redirects as a whole segment only |
| `PathRewrite.RedirectStaysUnderRoute` | cmd/gateway/app.go:948-957 | every rewritten redirect path begins with the path of the route's subtree pattern |
| `PathRewrite.LooksLikeHostExactly` | cmd/gateway/app.go:948-958 | the rewritten path begins with two slashes if and only if the prefix is "/" and the path less the rewrite does, or the prefix does |
| `PathRewrite.DoubleSlashRedirectPassesOn` | cmd/gateway/app.go:953-958 | on the route for "/" a redirect path with two slashes is passed on with them |
| `PathRewrite.BarePrefixGainsSlash` | cmd/gateway/app.go:618-622 | the bare prefix and the prefix with a slash reach the upstream alike |
| `RoutePatterns.HostPatterns` | cmd/gateway/app.go:369-375 | the inner loop appends the patterns of its method and hosts |
| `RoutePatterns.RoutePatternList` | cmd/gateway/app.go:351-378 | a route registers the patterns of all its entries, in order |
| `RoutePatterns.EntriesExactly` | cmd/gateway/app.go:351-378 | a route has an entry for every combination of a listed method and host, and no other |
| `RoutePatterns.ListedIsRegistered` | cmd/gateway/app.go:365-376 | for each the subtree of the prefix is registered, and the prefix itself unless it is the root |
| `RoutePatterns.UnlistedIsRegistered` | cmd/gateway/app.go:352-376 | the same for a route that lists neither |
| `RoutePatterns.KeyInjective` | cmd/gateway/config.go:347 | a conflict key determines method, host and path |
| `RoutePatterns.PatternInjective` | cmd/gateway/app.go:365-376 | a pattern determines its entry, and which of its two forms it is |
| `RoutePatterns.ConflictKeysExact` | cmd/gateway/config.go:333-353 | distinct keys over all routes imply that no pattern is registered twice, within or across routes; with no literal "*" or NUL in a name, the converse too |
| `ConflictHazards.EmptyHostEscapes` | cmd/gateway/config.go:337-347 | an empty host has its own key and the pattern of a route without hosts |
| `ConflictHazards.EmptyMethodEscapes` | cmd/gateway/config.go:333-347 | an empty method has its own key and the pattern of a route without methods |
| `ConflictHazards.SlashInHostEscapes` | cmd/gateway/config.go:347 | a slash in a host moves the border between host and path: two keys, one pattern |
| `ConflictHazards.SlashInMethodEscapes` | cmd/gateway/app.go:365-376 | so does one in a method |
| `ConflictHazards.SpaceInHostEscapes` | cmd/gateway/app.go:365-376 | a space in a host moves the border between method and host: two keys, one pattern |
| `ConflictHazards.DoubleSlashEscapes` | cmd/gateway/config.go:347 | a prefix ending in two slashes has its own key and a pattern of the prefix with one |
| `ConflictHazards.StarIsRefused` | cmd/gateway/config.go:337-350 | a host "*" has the key, not the pattern, of a route without hosts |
| `ConflictHazards.DetectsExactly` | cmd/gateway/config.go:333-353 | on all lists of routes that meet a set of demands distinct keys mean distinct patterns if and only if the set has all six: named methods and hosts, no slash in either, no space in hosts, no two slashes at a prefix's end |
| `ConfigValidation.DigestShape` | cmd/gateway/config.go:427-433 | a digest is valid exactly when it is 64 hexadecimal digits |
| `ConfigValidation.CheckPolicies` | cmd/gateway/config.go:265-279 | no fault exactly when every auth, rate and cache policy is valid |
| `ConfigValidation.ClaimHosts` | cmd/gateway/config.go:346-352 | a conflict is reported exactly when a key is already claimed, naming the claiming routes |
| `ConfigValidation.ClaimVerbs` | cmd/gateway/config.go:341-353 | the methods loop accepts exactly without CONNECT and without repeated keys |
| `ConfigValidation.ClaimRoute` | cmd/gateway/config.go:333-353 | the same for a whole route |
| `ConfigValidation.CheckRoutes` | cmd/gateway/config.go:280-354 | no fault exactly when every route is valid, names are unique and no key is repeated in the whole list |
| `ConfigValidation.Validate` | cmd/gateway/config.go:237-356 | no fault exactly for the configurations accepted |
| `ConfigValidation.UrlExactly` | cmd/gateway/config.go:416-425 | a URL is turned down if and only if it is not absolute, not HTTP or HTTPS, or has credentials, a query or a fragment |
| `ConfigValidation.RouteExactly` | cmd/gateway/config.go:287-332 | a route passes its own checks if and only if it breaks none of thirteen rules |
| `ConfigValidation.AuthExactly` | cmd/gateway/config.go:383-406 | which auth policies are turned down, down to the digits of a digest |
| `ConfigValidation.AcceptedExactly` | cmd/gateway/config.go:237-356 | the accepted configurations, rule by rule |
| `ConfigValidation.AcceptedPatternsDistinct` | cmd/gateway/app.go:262-272 | an accepted configuration with proper names registers no pattern twice |
| `ConfigCompilation.CompileKeys` | cmd/gateway/app.go:306-313 | each digest stands for the last key that has it; ignored errors occur exactly for digests that do not decode |
| `ConfigCompilation.CompilePool` | cmd/gateway/app.go:283-300 | one endpoint per upstream, in order; a panic exactly when a URL does not parse |
| `ConfigCompilation.CompileRoute` | cmd/gateway/app.go:281-328 | when it panics, when it ignores an error or misses a policy, and which endpoints, policies and principals the route gets |
| `ConfigCompilation.ParseTrustedProxies` | cmd/gateway/app.go:799-818 | fails exactly when a value is neither address nor network |
| `ConfigCompilation.Register` | cmd/gateway/app.go:269-271 | all patterns of a route are registered, in order, exactly when the multiplexer takes each after those before it |
| `ConfigCompilation.Build` | cmd/gateway/app.go:256-273 | the loop over the routes succeeds exactly when proxies and URLs parse and the multiplexer takes all patterns; what the snapshot then holds and which errors were ignored for it |
| `ConfigCompilation.Compile` | cmd/gateway/app.go:244-279 | succeeds exactly for accepted configurations whose patterns the multiplexer takes; then every pool is nonempty, every policy was found, cached authenticated routes separate principals, and only digests under none and jwt policies were ignored |
| `ConfigCompilation.ValidationDischarges` | cmd/gateway/config.go:265-332 | the same of whatever the loop builds from an accepted configuration |
| `ConfigCompilation.ActivateConfig` | cmd/gateway/control.go:296-339 | the handler refuses exactly what validation or the multiplexer refuses, and the compilation after its commit never fails |
| `ConfigCompilation.AcceptedRegisters` | cmd/gateway/app.go:269-271 | a multiplexer that refuses only repeated patterns takes every accepted configuration with proper names |
| `ConfigCompilation.DigestsCheckedExactly` | cmd/gateway/config.go:383-406 | accepted configurations have only decodable digests under policies of a type if and only if that type is neither none nor jwt |
| `ConfigCompilation.MalformedDigestIsAccepted` | cmd/gateway/config.go:383-406 | for each of these two types an accepted configuration with a digest that does not decode |
| `ConfigCompilation.Authenticate` | cmd/gateway/app.go:450-478 | exactly when a request is let in as anonymous, by a configured key, by a key kept in Redis or by a token, and as whom |
| `ConfigCompilation.KeyGrantsAreDecoded` | cmd/gateway/app.go:304-313 | on accepted configurations whoever is let in by a configured key presented the digest configured last for that key, never one that did not decode |
| `AuditPaging.Limit` | cmd/gateway/admin_ui.go:310-313 | the page size is between 1 and 200 whatever is requested, and the one requested if that is |
| `AuditPaging.ListAudit` | cmd/gateway/admin_ui.go:309-350 | the newest events below the cursor, and a next cursor exactly when older ones remain; refused exactly for a malformed cursor |
| `AuditPaging.BelowMeaning` | cmd/gateway/admin_ui.go:329-331 | what comes before a cursor are the events with smaller IDs |
| `AuditPaging.FollowFrom` | cmd/gateway/admin_ui.go:309-350 | following cursors from any event yields all older ones in descending order and ends, whatever is appended |
| `AuditPaging.PagingRefinesScan` | cmd/gateway/admin_ui.go:309-350 | from the first page on, every event present at the first request comes exactly once, newest first, in no more requests than pages are needed |
| `AuditPaging.AuditView.Request` | cmd/gateway/admin-ui/app.js:575-583 | a load without a page starts over; a page without a cursor is not requested |
| `AuditPaging.AuditView.Arrive` | cmd/gateway/admin-ui/app.js:584-586 | the answer cuts the stack after its page and pushes its cursor |
| `AuditPaging.AuditView.LoadAudit` | cmd/gateway/admin-ui/app.js:575-590 | a load that nothing overlaps keeps at index p the cursor that opens page p |
| `AuditPaging.ArrivalKeepsStackExactly` | cmd/gateway/admin-ui/app.js:583-586 | an arriving cursor keeps the stack right if and only if the cursor the stack has for that page is the one that was sent or has had the same answer |
| `AuditPaging.OneCursorAnswersTwo` | cmd/gateway/admin_ui.go:309-350 | the latter occurs: on a grown stream another cursor gets the answer of the first page |
| `AuditPaging.StackRightExactly` | cmd/gateway/admin-ui/app.js:575-590 | over every run of overlapping, failing and answered loads the stack is right all the time if and only if no answer failed that test on a right stack |
| `AuditPaging.OverlappingLoadsMisplaceCursor` | cmd/gateway/admin-ui/app.js:575-590 | a refresh during a load of page 2 leaves its cursor under the wrong index |

## Left out

- Redis, HTTP, TLS, telemetry and metrics clients: Redis is an abstract store with SETNX, WATCH/EXEC, expiry and a stream; a command that fails ends its process or is an event.
- Circuit breaker internals and the multiplexer's matching: the breaker runs its function once or not at all, and which pattern lists the multiplexer takes is a parameter.
- Token and digest cryptography and the API keys kept in Redis: a key set is a number, what a token or a key in Redis says is part of the credentials, and the hash is a function assumed not to collide on the keys of a run.
- JSON encoding of configurations and bodies, percent-encoding, URL parsing and reference resolution: contents are strings, URLs are already parsed, locations already resolved.
- Quotes around If-Match: the value is taken after they are trimmed; the edit's new version number is part of neither the compared content nor the change.
- SCAN: the versions it reports are arbitrary, so nothing relies on them.
- Number widths other than the balancer's uint64 and the int64 of max-age: versions, times and sizes are unbounded, and JavaScript's number precision is not modelled.
- Floating-point rounding in Lua and a Redis clock that goes back: arithmetic is exact and time does not decrease.
- Rate windows below one millisecond: validation accepts them (cmd/gateway/config.go:271) though they become 0 in the script (cmd/gateway/app.go:557); the bucket's theorems need a window of at least one millisecond.
- TokenBucket.RateLimiter.Script: the class has one policy; a bucket whose policy changes is modelled on values.
- Concurrency of protocols in place: configuration protocol, replicas, snapshot manager, cache and key refresh are state machines on values, one atomic step after the other, not classes with shared fields.
- Close of the manager, SIGHUP and certificate reload, the Dynamic DNS worker and health-check goroutines; health is an arbitrary boolean per endpoint and the Dynamic DNS verdict a field.
- The concurrency semaphore, scopes, header limits, CORS, forwarded and hop-by-hop headers, fault rendering: settled by reading one branch.
- OIDC login, cookies, CSRF, API key administration, dashboards, the demo programs and deployment files.
- Letter case and white space beyond ASCII.
- Rounding of cache lifetimes to Redis milliseconds, and of a max-age above 2^53 seconds to float64.
- How URLs are written out: a rewritten redirect is described by its parts.
- ConfigHazards.FreshStartIsSafe: a sufficient condition that is easy to see to; RunDanglesExactly has the exact one.
- AuditPaging.AuditView.LoadAudit: a load that nothing overlaps and that does not fail; trimming of the stream is not modelled.
