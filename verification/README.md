# Verification of the resilience and session cores of axum-conf

A Dafny 4.11 model of the stateful parts of axum-conf, with proofs about all their runs. `dafny verify dfyconfig.toml`
checks everything.

- `RequestTracker.dfy`: the request deduplication index used by one caller at a time: a map with expiring
  entries, an insertion-order queue with lazily skipped stale records, and a sequence counter, as a class. Its
  runs are shown to answer as a sliding window over the last accepted marks.
- `InterleavedTracker.dfy`: the same index under any number of callers. The map and the queue are under
  separate locks, so a check is a sequence of steps, one program counter per caller, interleaved with the
  background cleaner. The size bound, its tightness, the agreement with the sequential operation, and which
  entry an eviction really removes.
- `TimedTracker.dfy`: the same interleavings under a clock that never goes backwards, compared with the sliding
  window: which limits and numbers of callers can let a repeated request through.
- `CircuitBreaker.dfy`: the breaker of one target as a class under one lock, and the meaning of its counters
  and its timer over every run of operations.
- `GuardedCalls.dfy`: the admit/run/record protocol, with calls of any number of clients in flight across
  state changes, timeouts, excused errors and cancelled calls. When a half-open breaker can and cannot recover.
- `Registry.dfy`: the shared map of named breakers, with real shared objects, and the independence of targets.
- `Retry.dfy`: the retry loop and its backoff, alone and over a circuit breaker.
- `OidcSession.dfy`: one browser session under the authorization code flow, as a class, and the provenance of
  identities, flow state and return targets over its runs.
- `JwksCache.dfy`: the key cache, one validation at a time as a class and interleaved with refreshes.
- `Template.dfy`, `ApiVersion.dfy`: substitution of environment variables, and version printing and parsing.
- `Core.dfy`: shared types.

A run is a sequence of operations or steps. `After`, `Resume` and the like give the state it leads to. Runs of
step systems are arbitrary sequences of actions; an action that is not possible leaves the state alone. Time
is passed in: each operation takes the clock readings it makes. Classes are proved against functions on
values, and the results about all runs are lemmas about those functions. What the trace says (trailing runs of
failures, events since an episode began, grants since the last flush, the window of accepted marks) is defined
on the run and the visible states, not on the counters it is compared with.

Counters of the breaker are `u32` and wrap as in a release build; a debug build panics instead. Two of the
three never reach the limit; the effect of the third coming round is stated exactly. The sequence counter and
instants are unbounded. The session expiry is a `u64` that wraps.

Where comments and code disagree, the model follows the code:

- `check_and_mark` is described as atomic (src/fluent/dedup.rs:65). A second caller is let through while a first
  is still marking the same request (`RepeatLetThroughIff`), two can both enter it (`TwoCallersBothEnter`), and
  a mark can be lost to an eviction that looked up an older one (`FreshMarkCanBeEvicted`). A single caller is
  answered as by the window at the newest clock reading when it looks its key up, but only if no cleanup comes
  between its second look at the size and its eviction and drops some of the entries but not all
  (`CleanBeforeEvictionHarmsIff`, `OneCallerAnswersAsWindowIff`). Judged at the instant it read on entry, some
  steps before the lookup, it can be let through whenever entries live at all, since a cleanup can drop the mark
  in between (`EarlyReaderLetThroughIff`, `OwnReadingErrsIff`). A result about a caller says which of the two
  instants it is judged at.
- The deduplication configuration speaks of LRU eviction and cached responses (src/config/http/dedup.rs:35-37).
  Eviction is first in, first out (`EvictsTheOldest`): checking an entry again does not save it
  (`EvictionIsNotLru`), but a victim that has not been checked again since its mark is the least recently used
  (`VictimUnusedSinceItsMark`). The queue has no bound of its own (`QueueIsUnbounded`).
- `half_open_max_calls` is described as a limit on concurrent probes (src/config/http/circuit_breaker.rs:30).
  It limits the probes of an episode and is never given back, so a recovery threshold above it, as in the
  example of 5 successes with 2 probes (src/config/http/circuit_breaker.rs:131-133), cannot be met by probes
  (`HealthyTargetRecoversIff`, and with cancelled or excused calls before them `RecoversIffBudgetLasts`).
- The backoff cap is described as doubling with every attempt (src/resilience.rs:34-35); the exponent stops
  at 31 (`CapAsDocumentedIff`).
- `from_query` looks for a separator before `version=`, but its caller passes the query without the question
  mark (src/fluent/features.rs:378), so a first parameter is never seen (`QueryVersionNeedsSeparator`).
- `from_toml` substitutes variables twice, `from_str` once (`SecondPassIdleIff`, `ReadersAgreeIff`).

## Model

| member | source | states |
|---|---|---|
| RequestTracker.RequestTracker.CheckAndMark | src/fluent/dedup.rs:72-113 | the index, the answer and the queue records popped are those of the specification function, step by step as in the source |
| RequestTracker.RequestTracker.EvictOldest | src/fluent/dedup.rs:118-132 | the pop loop does what the recursive eviction says, and counts its pops |
| RequestTracker.RequestTracker.CleanupExpired | src/fluent/dedup.rs:134-137 | keeps exactly the entries that have not expired |
| RequestTracker.AnswersAsSlidingWindow | src/fluent/dedup.rs:72-137 | in every run under a monotone clock, for every ttl and capacity, a check is a duplicate exactly when an unexpired mark of its key is among the last max(1, max_entries) accepted marks |
| RequestTracker.IndexConservation | src/fluent/dedup.rs:87-137 | map size at most max(1, max_entries); queue strictly increasing; every entry's record queued; queue length plus pops equals the sequence counter, which counts accepted marks |
| RequestTracker.SweepLeavesMarked | src/fluent/dedup.rs:134-137 | after any run under a monotone clock, a background sweep leaves exactly the keys that the window marks at that instant, none expired, and does not touch the queue |
| RequestTracker.EvictTakesFirst | src/fluent/dedup.rs:118-132 | eviction discards records up to the first live one, removes that entry and no other, and keeps the map and the queue linked; with an empty map it drains the queue |
| RequestTracker.EvictsTheOldest | src/fluent/dedup.rs:34-38 | at every point of every run eviction removes the entry that is oldest both by sequence number and by expiry |
| RequestTracker.CheckKeepsInv | src/fluent/dedup.rs:72-113 | one check answers as the window does and carries the map/window correspondence over to the extended history |
| RequestTracker.VictimUnusedSinceItsMark | src/config/http/dedup.rs:35-37 | in every run under a monotone clock the entry an eviction removes is the least recently used one if it has not been checked again since its mark |
| RequestTracker.EvictionIsNotLru | src/config/http/dedup.rs:35-37 | some run under a monotone clock evicts an unexpired entry that is not the least recently used one if and only if max_entries is at least 2 and ttl is positive |
| RequestTracker.QueueIsUnbounded | src/fluent/dedup.rs:109-109 | below capacity nothing pops the queue: re-marking one expired key n times leaves n records for one entry |
| InterleavedTracker.BoundedOvershoot | src/fluent/dedup.rs:40-44 | in every interleaving of N callers and the cleaner the map holds at most max(1, max_entries) + N - 1 entries, and each entry's record is queued, awaiting its push or claimed by the evictor |
| InterleavedTracker.OvershootIsReached | src/fluent/dedup.rs:40-44 | for every capacity and every N >= 1 some interleaving reaches that bound |
| InterleavedTracker.StepKeepsInv | src/fluent/dedup.rs:76-132 | no single step of anybody breaks mutex ownership, record accounting or the potential: entries plus callers bound to insert plus the evictor's debt |
| InterleavedTracker.EvictionKept | src/fluent/dedup.rs:121-128 | the evictor's removal frees a place or, if its entry has meanwhile gone, settles the debt that counted it |
| InterleavedTracker.EmptyQueueCount | src/fluent/dedup.rs:119-132 | an evictor that finds the queue empty may insert: every entry then awaits some other caller's push |
| InterleavedTracker.SoloCallIsSequential | src/fluent/dedup.rs:72-113 | one caller's steps, with the others standing still anywhere, take the index where the sequential operation does |
| InterleavedTracker.TwoCallersBothEnter | src/fluent/dedup.rs:65-109 | any two callers can both enter the same key at the same instant |
| InterleavedTracker.EvictsAnotherEntryIff | src/fluent/dedup.rs:118-132 | in every run the entry an evictor removes is another one than it looked up exactly when another caller enters that key in between and nobody drops it again |
| TimedTracker.OneCallerAnswersAsWindow | src/fluent/dedup.rs:72-137 | one caller interleaved step by step with the cleaner, its clock reading and its lookup being two steps, finds an unexpired entry exactly when the sliding window has a mark unexpired at the newest reading, which is not before its own; this if no cleanup drops some entries and leaves others between its second look at the size and the lookup of the evicted entry, or with max_entries or ttl at most 1 |
| TimedTracker.CleanBeforeEvictionHarmsIff | src/fluent/dedup.rs:89-137 | from every state that one caller reaches without such a cleanup, a cleanup at that point, however old its reading, followed by the caller's own steps leaves the answers those of the window if and only if it drops all entries or none |
| TimedTracker.OneCallerAnswersAsWindowIff | src/fluent/dedup.rs:72-137 | a single caller is answered as by the window at the newest reading in every interleaving with the cleaner if and only if max_entries or ttl is at most 1 |
| TimedTracker.RepeatLetThroughIff | src/fluent/dedup.rs:65-109 | in some interleaving a caller's lookup misses a mark in the window that is unexpired at the newest reading, if and only if ttl is positive and there are two callers, or one with max_entries and ttl above 1 |
| TimedTracker.EarlyReaderLetThroughIff | src/fluent/dedup.rs:73-84 | judged at the caller's own reading, before the lookup, a marked and unexpired request is let through in some interleaving if and only if there are two callers, or one and a positive ttl, whatever the capacity |
| TimedTracker.OwnReadingErrsIff | src/fluent/dedup.rs:73-84 | a single caller that is answered as by the window errs against its own reading only by letting through, and exactly when the marks of its key in the window have expired by the newest reading |
| TimedTracker.FreshMarkCanBeEvicted | src/fluent/dedup.rs:118-132 | with two callers and max_entries 1 a key can expire and be marked afresh between lookup and removal; the fresh mark goes and with nobody in a call the key is let through again |
| CircuitBreaker.CircuitBreakerState.ShouldAllow | src/circuit_breaker/state.rs:99-123 | admission, the move to half-open and the probe count are those of the specification function |
| CircuitBreaker.CircuitBreakerState.RecordSuccess | src/circuit_breaker/state.rs:126-144 | the whole new state after a success |
| CircuitBreaker.CircuitBreakerState.RecordNeutral | src/circuit_breaker/state.rs:155-160 | the whole new state after a neutral outcome |
| CircuitBreaker.CircuitBreakerState.RecordFailure | src/circuit_breaker/state.rs:163-184 | the whole new state after a failure |
| CircuitBreaker.CountersNeverWrap | src/circuit_breaker/state.rs:134-168 | in every run the failure and success counters are below the 32-bit limit, so counting one more outcome adds exactly one |
| CircuitBreaker.FailureCountIsTrailingRun | src/circuit_breaker/state.rs:126-184 | while Closed the failure counter is the length of the trailing run of failures since Closed was entered, ended by successes and neutral outcomes |
| CircuitBreaker.OpensExactlyAtThreshold | src/circuit_breaker/state.rs:167-172 | a Closed breaker opens exactly when that run reaches max(1, failure_threshold), and never becomes half-open directly |
| CircuitBreaker.HalfOpenAccounting | src/circuit_breaker/state.rs:104-160 | in every half-open episode the call counter is the number of calls asked modulo 2^32, the success counter the number of successes, whatever late and neutral outcomes interleave |
| CircuitBreaker.EpisodeBudget | src/circuit_breaker/state.rs:116-121 | an episode admits min(asked, max(1, half_open_max_calls)) calls exactly as long as at most 2^32 were asked or the budget is zero |
| CircuitBreaker.HalfOpenExits | src/circuit_breaker/state.rs:134-176 | half-open closes exactly on the success that makes max(1, success_threshold) since entry, and opens exactly on a failure |
| CircuitBreaker.FailFastWindow | src/circuit_breaker/state.rs:104-115 | under a monotone clock no call passes within reset_timeout of an opening, and the first to ask afterwards does |
| CircuitBreaker.TimerHoldsOpening | src/circuit_breaker/state.rs:177-182 | while Open the timer is the opening instant read off the run, however many late failures arrive |
| CircuitBreaker.AdmitsIff | src/circuit_breaker/state.rs:99-123 | after every run a call is admitted while Closed always, while Open exactly from reset_timeout after the opening instant on, while half-open exactly if the number of calls asked in the episode, modulo 2^32, is below the budget; only an admitted call moves Open to half-open |
| CircuitBreaker.PeeksDoNotInterfere | src/circuit_breaker/state.rs:186-229 | deleting every peek from a run changes neither the final state nor any other answer |
| CircuitBreaker.PeeksTellTheTrace | src/circuit_breaker/state.rs:186-229 | after every run the peeks answer with the state, the trailing run of failures while Closed and the successes of the half-open episode, else zero |
| CircuitBreaker.FastFailingPredictsRefusal | src/circuit_breaker/state.rs:211-219 | in every reachable state fast-failing is being Open and refusing a call made at that instant |
| GuardedCalls.GuardedCallWith | src/circuit_breaker/mod.rs:122-174 | a value, an error or the configured timeout is returned exactly if the future ran and ended so, an open circuit exactly if it did not run; the breaker ends as in the specified call |
| GuardedCalls.CallerIsToldOutcome | src/circuit_breaker/mod.rs:122-174 | after every run of the breaker the future runs exactly if its state and the clock let the call in; Ok(v), CallFailed(e), Timeout(d) and CircuitOpen(target) are each returned exactly for the completion, the configured timeout and the refusal they stand for |
| GuardedCalls.CallIsRecorded | src/circuit_breaker/mod.rs:131-173 | a whole call leaves the breaker as the run extended by the request for admission and, if let in, one success, failure or neutral record, a deadline always a failure and an error only if the classifier says so |
| GuardedCalls.SoleCallIsTwoSteps | src/circuit_breaker/mod.rs:122-174 | a call with nobody else about is its admission step directly followed by its completion step |
| GuardedCalls.CancelledCallRecordsNothing | src/circuit_breaker/mod.rs:131-173 | after every interleaving, dropping a call in flight leaves the breaker as it is; while Closed a call begun and dropped leaves no trace at all, while half-open only one more call asked |
| GuardedCalls.InterleavingIsBreakerRun | src/circuit_breaker/mod.rs:131-173 | any interleaving of clients is a run of one breaker, so all results about breaker runs apply to it |
| GuardedCalls.AdmittedAreAccountedFor | src/circuit_breaker/mod.rs:131-173 | calls admitted in the current half-open episode are covered by those in flight, succeeded, excused and cancelled |
| GuardedCalls.NoLockOut | src/circuit_breaker/state.rs:99-160 | as long as max(1, success_threshold) plus the cancelled and excused calls of the episode is at most max(1, half_open_max_calls), a half-open breaker with nothing in flight admits the next call |
| GuardedCalls.SpentBudgetLocksOut | src/circuit_breaker/state.rs:116-121 | with the budget spent and nothing in flight nothing anybody does, nor waiting, changes anything but the wrapping call counter |
| GuardedCalls.LockOutEndsAtWrap | src/circuit_breaker/state.rs:116-121 | such a breaker admits a call exactly when its 32-bit call counter has come round and the budget is not zero |
| GuardedCalls.RecoversIffBudgetLasts | src/circuit_breaker/state.rs:99-160 | from Open after the timeout, after any sequence of w cancelled or excused probes, max(1, success_threshold) successful ones close the breaker if and only if w modulo 2^32 plus that many fit in the budget; otherwise it is left half-open with nothing in flight |
| GuardedCalls.HealthyTargetRecoversIff | src/circuit_breaker/state.rs:104-139 | with none wasted, successful probes one after the other close the breaker if and only if success_threshold is at most max(1, half_open_max_calls); otherwise it ends with its budget spent |
| Registry.CircuitBreakerRegistry.constructor | src/circuit_breaker/registry.rs:33-46 | every configured target has its own new breaker with its own configuration |
| Registry.CircuitBreakerRegistry.Get | src/circuit_breaker/registry.rs:51-53 | the shared breaker object of a registered target, nothing for another |
| Registry.CircuitBreakerRegistry.GetOrDefault | src/circuit_breaker/registry.rs:58-64 | the target's breaker, created with the defaults if missing; handles given out before stay the registered ones |
| Registry.Serve | src/circuit_breaker/registry.rs:33-64 | on the shared objects, a request changes the slot of its own target by one operation and no other |
| Registry.TargetsAreIndependent | src/circuit_breaker/registry.rs:33-64 | any interleaved run over the registry, seen from one target, has the states and answers of a single breaker run on that target's operations, with its own configuration or that of 5 failures, 3 successes, 30 seconds and 3 probes; a target is registered exactly if configured or used with get_or_default before, and a request for another gets nothing and changes nothing |
| Retry.RetryTransient | src/resilience.rs:65-91 | the loop computes the specified retry and sleeps once between attempts: after attempt i+1 for the share that the jitter takes of min(max_delay, base_delay * 2^min(i, 31)); the total is within both bounds |
| Retry.RetryStopsAtFirst | src/resilience.rs:65-91 | the operation is called up to the first success, the first error other than Io, Database and CircuitBreakerFailed, or attempt max(1, max_attempts), whichever comes first, and that call's result is returned |
| Retry.BackoffIsCapped | src/resilience.rs:36-43 | a delay is at most its cap, caps never shrink from one attempt to a later one, and none exceeds max_delay |
| Retry.CapAsDocumentedIff | src/resilience.rs:34-43 | the cap is min(max_delay, base_delay * 2^(attempt-1)) exactly up to attempt 32, or when base_delay is 0 or max_delay at most base_delay * 2^31 |
| Retry.TotalSleepBounded | src/resilience.rs:36-43 | k retries ask for at most k * max_delay and at most base_delay * (2^k - 1) of sleep |
| Retry.FullDelaysReachMaximum | src/resilience.rs:36-43 | taking every cap whole, k retries ask for k * max_delay exactly if base_delay is at least max_delay |
| Retry.FullDelaysDouble | src/resilience.rs:36-43 | and for base_delay * (2^k - 1) exactly if base_delay is 0, or k is at most 32 and base_delay * 2^(k-1) at most max_delay |
| Retry.DelaysAriseIff | src/resilience.rs:36-43 | a list of delays arises from some jitter if and only if each is at most min(max_delay, base_delay * 2^min(i, 31)) after attempt i+1 |
| Retry.RetryOverBreaker | src/resilience.rs:65-91 | a sole client retrying a guarded call whose attempts end in any way, faster than the reset timeout, from a closed breaker with f failures in a row: it runs up to the first success and at most min(max(1, max_attempts), max(1, failure_threshold) - f) times, returns the last run's result, and the open circuit exactly when failures opened it with attempts left |
| OidcSession.Session.Login | src/fluent/oidc_flow.rs:316-344 | stores the verifier, state and nonce of the new flow and nothing else |
| OidcSession.Session.Callback | src/fluent/oidc_flow.rs:353-473 | every rejection leaves the session alone; success stores the tokens, clears the flow state and redirects to the stored URL if it names this host, else to the configured page, whatever session the store hands back |
| OidcSession.Session.Logout | src/fluent/oidc_flow.rs:476-508 | empties the session after taking the ID token hint |
| OidcSession.Session.Identify | src/fluent/oidc_flow.rs:518-612 | the request middleware on any session the store hands back: who is identified and when the session is emptied, each exactly, told in numbers; tokens without an expiry count as alive |
| OidcSession.Session.Visit | src/fluent/browser_redirect.rs:38-85 | the guard chain, ending in a stored return URL that is a safe local path |
| OidcSession.SessionHoldsGrants | src/fluent/oidc_flow.rs:430-455 | in every run the stored tokens are the newest of each kind among the token responses accepted since the last flush, a series that starts with a login |
| OidcSession.SessionProvenance | src/fluent/oidc_flow.rs:518-612 | an identity uses the newest ID and access tokens granted since the last flush, its signature was not found invalid, and this request refreshed the tokens or now + 30 is before the instant of the newest grant plus its expires_in, or plus 300 without one, modulo 2^64 |
| OidcSession.IdentifiedIff | src/fluent/oidc_flow.rs:523-612 | exactly which requests get an identity: the newest grant satisfies that inequality or the newest refresh token was answered, no client finds the signature invalid and the ID token parses; every other request is anonymous |
| OidcSession.RequestLeavesSession | src/fluent/oidc_flow.rs:523-612 | a request empties the session exactly when it is no bearer request, grants stand, and the newest is near expiry with no refresh to be had or a client finds the signature invalid; near expiry with a refresh it stores the answer's tokens, keeping those it lacks; otherwise it changes nothing |
| OidcSession.AccessTokenImpliesIdToken | src/fluent/oidc_flow.rs:430-455 | in every run a stored access token comes with a stored ID token and expiry |
| OidcSession.CallbackAnswersPendingLogin | src/fluent/oidc_flow.rs:358-406 | how a callback ends, told by the pending login: it succeeds exactly with that login's state and an ID token valid for its nonce, and else is rejected for the first of no login, other state, failed exchange, no ID token, invalid ID token, with the session left alone |
| OidcSession.FlowStateIsSingleUse | src/fluent/oidc_flow.rs:457-460 | after a successful callback no other succeeds until a new login |
| OidcSession.LogoutHintsNewestIdToken | src/fluent/oidc_flow.rs:476-508 | in every run a logout hands on the newest ID token granted since the last flush, none if there is none, and leaves an empty session |
| OidcSession.VisitsSentToLogin | src/fluent/browser_redirect.rs:43-72 | a visitor is sent to log in exactly if not authenticated, without an authorization header, accepting HTML, and on no path with a skipped prefix; any other passes and leaves the session alone |
| OidcSession.LoginReturnsToNotedPlace | src/fluent/oidc_flow.rs:462-472 | a completed login redirects to the path that the last such visitor since the last flush or completed login asked for, `/` if that does not start with one slash and neither a second one nor a backslash, and to the configured page if there was none |
| JwksCache.BuildKeys | src/fluent/oidc_bearer.rs:139-194 | nothing in production without audiences; otherwise a key id is there exactly if some published key has it and parsed material, and maps to the last such key |
| JwksCache.JwksProvider.Refresh | src/fluent/oidc_bearer.rs:125-131 | replaces the cache by the one of the fetched key set, or leaves it when the fetch fails |
| JwksCache.JwksProvider.ValidateToken | src/fluent/oidc_bearer.rs:240-287 | refreshes exactly on a missing key id, and what each verdict means in terms of the cache after it |
| JwksCache.JwksProvider.VerifySignature | src/fluent/oidc_bearer.rs:303-340 | unverifiable exactly when the key is missing even after a refresh; valid exactly when the token's own key verifies it |
| JwksCache.AcceptedTokensHaveProvenance | src/fluent/oidc_bearer.rs:125-194 | in every interleaving the cache is that of the key set installed last, only received sets are installed, and an accepted token decodes under a key some installed key set published with its id |
| JwksCache.GoodTokensAreAccepted | src/fluent/oidc_bearer.rs:240-287 | in every interleaving, if the last usable key with the token's id in each set installed so far decodes it, a validation that has ended has accepted it |
| JwksCache.SoloValidation | src/fluent/oidc_bearer.rs:240-287 | from every reached state a validation with nobody in between fetches exactly if its key id is not cached, and then is accepted exactly if the id is cached and the token decodes under that key, finds no key exactly if the fetch succeeded without that id, and is rejected otherwise |
| JwksCache.OrderlyRefreshesCacheTheNewest | src/fluent/oidc_bearer.rs:125-131 | if no key set is received while another awaits installation, then with none pending the cache is that of the newest set received |
| JwksCache.OlderSetCanStayCached | src/fluent/oidc_bearer.rs:125-131 | otherwise a validation that received an older key set can install it after the background task installed a newer one, for any two key sets |
| JwksCache.FailsClosedAcceptsNothing | src/fluent/oidc_bearer.rs:145-153 | in production without audiences no interleaving caches a key or accepts a token |
| JwksCache.CachedIff | src/fluent/oidc_bearer.rs:125-194 | in every interleaving a key id is cached if and only if audiences are configured or it is not production, and some key of the set installed last has that id and parsed material |
| JwksCache.CachedKeysAreStrict | src/fluent/oidc_bearer.rs:174-191 | in every interleaving each cached key is the last of the set installed last with its id and parsed material, and checks the configured issuer and audiences, never an empty list in production, under its published key's own signing algorithm or RS256 |
| JwksCache.AtMostOneRefresh | src/fluent/oidc_bearer.rs:254-263 | a validation refreshes at most once, and not before it has found its key id missing |
| Template.MatchHereIsPattern | src/utils.rs:29-33 | matching in one pass finds exactly what the pattern describes: `{{`, ASCII whitespace, a name of capitals, digits and underscores, whitespace, `}}`; and there is only one way to match |
| Template.SubstituteLeftmost | src/utils.rs:283-296 | in any text everything up to the leftmost reference is copied, the reference gives its variable's value or nothing, and substitution goes on behind it |
| Template.SubstituteLeavesAlone | src/utils.rs:283-296 | text in which no reference starts anywhere is left alone |
| Template.HasReferenceIff | src/utils.rs:29-33 | text has a reference, in the results below, exactly if the pattern describes what starts at some place in it |
| Template.SubstituteRendered | src/utils.rs:283-296 | substituting in rendered text and references gives the text with each reference replaced by its value, unset ones by nothing |
| Template.SecondPassIdleIff | src/config/mod.rs:292-294 | a second substitution changes nothing if the first leaves no reference, in every environment; with brace-free values only then |
| Template.ReadersAgreeIff | src/config/mod.rs:292-294 | for a template in terms of its meaning, that is of its literals and values before any substitution |
| Template.BothReadersAgree | src/config/mod.rs:696-698 | if one of the two braces occurs in no literal and no value a template uses, both readers parse the template's meaning |
| Template.LiteralsCanCloseUp | src/config/mod.rs:292-294 | with brace-free values and a variable not set, literal braces around its reference close up to a reference that only one reader substitutes |
| Template.ReadersCanDiffer | src/config/mod.rs:292-294 | a value that is itself a reference is substituted by one reader and kept by the other |
| ApiVersion.DigitsParseIff | src/utils.rs:335-339 | a run of digits parses exactly when its value is at most 2^32 - 1, and to that value |
| ApiVersion.ParseU32Iff | src/utils.rs:335-339 | a text parses exactly if it is a non-empty run of digits, after at most one plus sign, of value below 2^32, and to that value |
| ApiVersion.DisplayIff | src/utils.rs:380-384 | a version prints as `v` and the only run of digits without leading zeros that denotes it |
| ApiVersion.SegmentHereIsPattern | src/utils.rs:332-333 | the segment found is the one the pattern describes |
| ApiVersion.FromPathIff | src/utils.rs:331-340 | a path has version n exactly if its leftmost segment of `/v` and digits, ended by a slash or the end, denotes n; else none |
| ApiVersion.PathRoundTrip | src/utils.rs:331-340 | a version printed into a path comes back whatever surrounds it, unless an earlier segment looks like a version, which then decides alone |
| ApiVersion.HeaderRoundTrip | src/utils.rs:347-351 | the decimal of a version with any whitespace around it gives that version |
| ApiVersion.FromHeaderIff | src/utils.rs:347-361 | a header has version n exactly if it is a numeral of n between whitespace, or no numeral below 2^32 and its leftmost `version=` with digits denotes n; else none |
| ApiVersion.AcceptRoundTrip | src/utils.rs:353-361 | a version parameter inside a longer header gives that version if no earlier one does |
| ApiVersion.FromQueryIff | src/utils.rs:367-376 | a query has version n exactly if the digits of its leftmost `?version=` or `&version=` that has any denote n; else none |
| ApiVersion.QueryVersionNeedsSeparator | src/utils.rs:367-376 | behind any text without an earlier version, a version parameter is found exactly when a separator precedes it or what follows names the same version; without a separator it is skipped and what follows decides |

## Left out

- RequestTracker: instants and the sequence counter are unbounded, so the overflow of `now + ttl` and of 2^64 marks is not modelled.
- InterleavedTracker: `len` and each map operation count as atomic; the shard locks inside the map are not modelled.
- Retry.Backoff: jitter is any choice of at most the cap, rounding included; that it is uniform and stays strictly below the cap is not modelled.
- GuardedCalls.GuardedCallWith: the future is represented by how it ends; which of result and deadline wins a tie is an input.
- OidcSession.Session.Identify: claim parsing and signature checks are inputs, and reads and writes of the session store are taken to succeed.
- OidcSession.Session.Callback: the code exchange and the ID token verifier are inputs; concurrent requests of one session are not interleaved.
- JwksCache.AcceptedTokensHaveProvenance: validations dropped in the middle and the signature checks of sessions are not interleaved.
- JwksCache: key parsing, token decoding and fetching are inputs; how claims become an identity is not modelled.
- Template.SecondPassIdleIff: for values with both kinds of braces only one half is stated, since a second pass can then restore the text it replaces; an example shows the readers differ.
- ApiVersion: Unicode digits and whitespace are not modelled.
- The middleware around the deduplication index: requests without an id pass, duplicates are answered with 409.
- The poisoning of mutexes, which the code recovers from, and the panics of debug builds on overflow.
- Router assembly, configuration, rate limiting, basic authentication, proxy headers, metrics, logging, shutdown, static files.
- Session stores, sealing, discovery of provider metadata and the end-session URL.
