# Verified model of the Alkemio Kratos webhooks

This project models the two stateful parts of the service and proves what they promise over whole
runs, not only call by call.

**Login backoff.** Attempts are counted per identifier and per client IP in one Redis keyspace by two
Lua scripts; a count over its limit locks that identifier or IP out until the counter expires; a
successful login resets both. The model follows every branch of the service, including calls that
fail (before or after taking effect) and fail open.

- `RedisServer` is the store: keys with values and expiry times, a clock in whole seconds, and the
  commands the scripts use. `Clients` holds key names, both scripts and the client operations.
- `LoginBackoff` says what one atomic step does: to the store, as a reply, as log records.
  `LoginService` is the service as an object, proved against those steps.
- `LoginRuns` sees a run (any interleaving of attempts, resets, welcome marks, clock ticks and faults)
  from a single counter, and proves the invariant and the projection that everything else uses.
- `LoginHistory` (the store is a function of the past; no false lockouts), `LoginBounds` (the rate
  bound), `LoginLockout` (lockouts hold, are not extended, end when they say), `LoginBurst` (attempts
  at one instant; the bound is reached), `LoginSpelling` (which spellings share a counter) and
  `LoginRenaming` (what logs may depend on) prove the properties. `LoginProxy` is the reverse proxy
  in front of Kratos.

**Welcome idempotency.** `Verification` is the check / publish / mark protocol as a transition system
with any number of requests in flight, `VerificationRuns` its bounds, and `VerificationHandler` the
webhook as objects, proved to be one request's steps in a row.

**Text.** `Text`, `NetIp` and `LogFields` model the string handling the counters and logs depend on:
trimming, splitting, printing, address parsing and printing, and the log prefix.

A run starts from an empty server or from any store that satisfies the counter invariant `GoodDb`,
which every step keeps. Limits and lockout times are positive, as `validateLoginBackoffConfig`
enforces. Some proofs use `hide` to keep unneeded definitions away from the solver.

Where the code and its documents differ, the model follows the code: the welcome check is
check-then-act, not the atomic SetNX of specs/001-kratos-verification-webhook/data-model.md, so even
without Redis faults and lapses of the mark at-most-once delivery, requirement SC-004 there, holds
exactly when no two requests of an identity overlap (`VerificationRuns.AtMostOnceIff`); requests without
any identifier or IP get the after-login status "skipped", where specs/002-login-backoff/data-model.md
says the status is always "success"; the lockout begins when the count exceeds the threshold, where that
document's diagram has `count >= threshold`; and the profile URL ends in "/user/me" rather than in the
identity.

## Model

| member | source | states |
|---|---|---|
| RedisServer.Server.Incr | internal/clients/redis.go:28 | INCR: an absent or expired key counts as 1 with no expiry, a counter keeps its expiry, other values are an error |
| Clients.KeyTextInjective | internal/clients/redis.go:16-20 | keys with different meanings never share a text: the three prefixes cannot collide for any suffixes, and prefixing is injective |
| Clients.KeyTexts | internal/clients/redis.go:16-20 | the texts of the three kinds of keys, which other tools read |
| Clients.RedisClient.SingleKeyScript | internal/clients/redis.go:25-34 | running INCR, EXPIRE on a count of 1, TTL is one more attempt in a fixed window: a fresh window gets a full time to live, an open one keeps its deadline |
| Clients.RedisClient.TwoKeyScript | internal/clients/redis.go:38-57 | its at most six Redis commands are the single-key step on the identifier key, then on the IP key, unless an INCR error ends it |
| Clients.TwoKeyIsEitherOrder | internal/clients/redis.go:25-57 | the two-key script equals the two single-key scripts in either order, in state and replies, exactly unless the identifier key alone holds a non-counter |
| Clients.RedisClient.IncrementLoginAttempts | internal/clients/redis.go:106-119 | one run of the two-key script or none, and a failed call reports an error whether or not it took effect |
| Clients.RedisClient.IncrementIdentifierAttempt | internal/clients/redis.go:123-135 | one counter step under the identifier prefix, with its error cases |
| Clients.RedisClient.IncrementIPAttempt | internal/clients/redis.go:139-151 | one counter step under the IP prefix, with its error cases |
| Clients.RedisClient.ResetLoginAttempts | internal/clients/redis.go:155-167 | deletes exactly the keys of the non-empty arguments, nothing for none |
| Clients.RedisClient.IsWelcomeSent | internal/clients/redis.go:88-95 | true exactly when the mark is live, or an error |
| Clients.RedisClient.MarkWelcomeSent | internal/clients/redis.go:98-102 | sets the mark with a fresh 90-day deadline, if the call took effect |
| LoginBackoff.Blocker | internal/webhooks/kratos-login-backoff/service.go:130-155 | a locked counter with the longest wait of all locked ones, the first of those on a tie, none exactly when no counter is over its limit |
| LoginBackoff.VerdictReports | internal/webhooks/kratos-login-backoff/service.go:130-173 | a reply allows exactly when no supplied counter is over its limit, and then reports each counter's attempts; a blocked one reports reason, wait and message of the first locked counter with the longest wait |
| LoginService.Service.CheckAndIncrement | internal/webhooks/kratos-login-backoff/service.go:87-114 | normalises, raises the supplied counters in one step, answers from the raised counts, writes one log record; a failed call, or an attempt that names nothing, passes with all counts 0 |
| LoginService.Service.IncrementBoth | internal/webhooks/kratos-login-backoff/service.go:116-174 | the branches for two counters reach the longest-wait verdict, with the identifier winning ties |
| LoginService.Service.IncrementIdentifierOnly | internal/webhooks/kratos-login-backoff/service.go:176-214 | the same verdict for the identifier alone |
| LoginService.Service.IncrementIPOnly | internal/webhooks/kratos-login-backoff/service.go:216-254 | the same verdict for the IP alone |
| LoginService.Service.ResetCounters | internal/webhooks/kratos-login-backoff/service.go:258-314 | deletes the keys of the normal forms; answers "skipped" exactly when email and IP are blank, else "success"; logs the reset only when the call did not fail, else which reset failed |
| LoginSpelling.SpellingsShareCounter | internal/webhooks/kratos-login-backoff/service.go:87-114 | two attempts raise one identifier counter exactly when their identifiers are not blank and spellings of one another; the counter then grows by 2 |
| LoginSpelling.SpellingsReset | internal/webhooks/kratos-login-backoff/service.go:258-314 | a reset clears the counter of an attempt exactly when its email is a spelling of the attempt's identifier, other case or outer white space |
| LoginService.Service.CollectSubjectFields | internal/webhooks/kratos-login-backoff/service.go:320-329 | identifier_hmac is the HMAC of the identifier, present exactly with a key of at least 32 bytes and an identifier; client_ip_prefix is the network prefix, present exactly for an address |
| LoginRuns.StepCell | internal/clients/redis.go:106-167 | every step acts on one counter as hit, clear, wait or not at all, whatever else it does |
| LoginRuns.StepKeepsGood | internal/clients/redis.go:28-33 | every step, faulted or not, keeps each live counter at a count of at least 1 with 1..L seconds to go |
| LoginRuns.ReachableIsGood | internal/webhooks/kratos-login-backoff/service.go:87-254 | so in every state reachable from an empty server no counter is permanent |
| LoginRuns.RunCell | internal/clients/redis.go:106-167 | a counter's trajectory in a whole run follows from the run's projection on it alone |
| LoginRuns.NonInterference | internal/clients/redis.go:106-167 | dropping every event that does not touch a counter leaves its count, deadline and what the next attempt sees unchanged |
| LoginRuns.ReplyIsVerdict | internal/webhooks/kratos-login-backoff/service.go:87-254 | on a good store only a fault can fail a call, and the reply depends on the named counters alone |
| LoginRuns.RecordIs | internal/webhooks/kratos-login-backoff/service.go:87-254 | the one log record of an attempt: level, message, counters with their new counts and limits, and, when blocked, wait and reason of the reply |
| LoginRuns.AllowedIff | internal/webhooks/kratos-login-backoff/service.go:130-147 | an attempt passes exactly when its call failed or none of its counters already stands at its limit |
| LoginRuns.BlockedMeansFull | internal/webhooks/kratos-login-backoff/service.go:150-173 | a blocked reply names a counter of the attempt that is full, its exact deadline within 1..L seconds, and no other full counter lasts longer |
| LoginHistory.CellIsHistory | internal/clients/redis.go:25-34 | a counter is absent exactly when no window is open in the history, else the attempts since the window opened with the deadline the first one set |
| LoginHistory.StoreIsHistory | internal/clients/redis.go:25-57 | the same for every counter of every run, across mixed requests, resets and faults |
| LoginHistory.RepliesAreHistory | internal/webhooks/kratos-login-backoff/service.go:116-254 | every reply is the one computed by replaying the whole history |
| LoginHistory.NoFalseLockout | internal/webhooks/kratos-login-backoff/service.go:189-203 | a blocked reply implies more attempts received than the limit on that identifier or IP within one lockout time and since the last applied reset, the blocked attempt included |
| LoginBounds.BudgetBound | internal/clients/redis.go:38-57 | from any good state, what still passes before a time is at most the rest of the open window, full windows after it, one window per reset and the failed calls |
| LoginBounds.CleanStartBound | internal/webhooks/kratos-login-backoff/service.go:87-254 | from a clean counter at most (ceil(T/L) + R) * Max + F attempts pass in T seconds |
| LoginBounds.RateBound | internal/webhooks/kratos-login-backoff/service.go:87-254 | in any interval of n seconds of any run at most (ceil((n-1)/L) + 1 + R) * Max + F attempts pass, one less unless L divides n-1; hence at most (ceil(n/L) + 1 + R) * Max + F |
| LoginBurst.RateBoundIsReached | internal/clients/redis.go:25-34 | the sharp bound is met with equality, for an identifier as for an IP, for every limit, lockout time and length of interval, by a run without resets or faults |
| LoginBurst.BurstExact | internal/clients/redis.go:38-57 | of n attempts at one instant on a fresh identifier, over IPs that stay within limits, exactly min(n, Max) pass |
| LoginBurst.BurstOrderIrrelevant | internal/clients/redis.go:38-57 | simultaneous attempts, on any identifiers and IPs, leave the same store in every order |
| LoginBurst.BurstExactInAnyOrder | internal/clients/redis.go:38-57 | so the number that passes is the same under every permutation |
| LoginLockout.LockoutIsSticky | internal/clients/redis.go:28-33 | after a blocked reply every attempt on that counter before its deadline is blocked absent resets and faults, and attempts on it alone are told the same absolute deadline |
| LoginLockout.RetryAfterIsExact | internal/webhooks/kratos-login-backoff/service.go:130-173 | left alone, the attempt is blocked before now + retry_after; from then on it passes exactly when no other counter has filled, and with counts of 1 when all supplied counters were locked |
| LoginLockout.MessageCoversWait | internal/webhooks/kratos-login-backoff/service.go:332-338 | the message is the fixed text for its reason around a decimal number m of minutes with 60(m-1) < retry_after <= 60m |
| LoginLockout.MessageTells | internal/webhooks/kratos-login-backoff/service.go:332-338 | two blocked replies carry the same message exactly when they name the same reason and the same minutes |
| LoginRenaming.RenamingIsInvisible | internal/webhooks/kratos-login-backoff/service.go:316-329 | renaming identifiers and IPs injectively, so that identifiers keep their HMAC (if there is a usable key) and IPs their /24 or /32 network, leaves every reply to an attempt or a reset and the whole log of any run unchanged |
| LoginRenaming.NoKeyNoTrace | internal/webhooks/kratos-login-backoff/service.go:57-71 | without a usable hash key that holds for every injective renaming of login identifiers: from the replies and the log of a run from an empty server it cannot be told which identifier was used, only which attempts share one |
| LogFields.NormaliseIsProjection | internal/webhooks/kratos-login-backoff/logfields.go:15-21 | normal forms are fixed points, and case or outer white space never changes the normal form |
| LogFields.NormaliseIs | internal/webhooks/kratos-login-backoff/logfields.go:15-21 | the normal form character by character: each capital replaced by the letter 32 codes on, so no capital is left |
| LogFields.NormaliseDecides | internal/webhooks/kratos-login-backoff/logfields.go:15-21 | two identifiers have one normal form exactly when, without the six white-space characters at their ends, they agree but for the case of their letters; it is empty exactly when nothing else is there |
| LogFields.PrefixIsNetwork | internal/webhooks/kratos-login-backoff/logfields.go:41-50 | two addresses are logged alike exactly when they share the IPv4 /24 or the IPv6 /32, whatever their spelling |
| LogFields.PrefixReparses | internal/webhooks/kratos-login-backoff/logfields.go:41-50 | the printed network address parses to the masked address and prints the same prefix again |
| NetIp.QuadIs | internal/webhooks/kratos-login-backoff/logfields.go:42 | a text is a dotted quad exactly when it is four bytes in decimal, without leading zeros, joined by dots |
| NetIp.ParseFull | internal/webhooks/kratos-login-backoff/logfields.go:42 | the eight groups of any address, joined by colons, parse to it |
| NetIp.ParsePrintV6 | internal/webhooks/kratos-login-backoff/logfields.go:42-49 | every IPv6 address is read back from its printed text, wherever that has "::", if anywhere |
| LogFields.PrefixText | internal/webhooks/kratos-login-backoff/logfields.go:46-49 | the printed prefix in full: three bytes in decimal and ".0/24", or the first two groups in hexadecimal, "::" and "/32" |
| NetIp.EllipsisIsLongest | internal/webhooks/kratos-login-backoff/logfields.go:49 | what "::" replaces in the printed prefix is a longest run of zero groups |
| LogFields.MappedLikePlain | internal/webhooks/kratos-login-backoff/logfields.go:46-48 | any spelling of an IPv4-mapped IPv6 address is logged like its dotted quad, which parses to the same address |
| LogFields.MappedSpelling | internal/webhooks/kratos-login-backoff/logfields.go:46-48 | "::ffff:" before any dotted quad parses and is logged like that quad |
| LoginProxy.FirstValidIP | internal/webhooks/kratos-login-backoff/proxy.go:178-186 | the loop finds what the specification over the split parts finds |
| LoginProxy.FirstValidIsFirst | internal/webhooks/kratos-login-backoff/proxy.go:178-186 | that is the first part that parses as an address, empty exactly when none does |
| LoginProxy.FirstValidIdempotent | internal/webhooks/kratos-login-backoff/proxy.go:178-186 | reading a found address as a header value finds it again |
| LoginProxy.Request.ExtractClientIP | internal/webhooks/kratos-login-backoff/proxy.go:156-175 | the first address among the comma-separated parts of True-Client-Ip, without white space and brackets, else of X-Forwarded-For, else of X-Real-Ip, else the host of host:port or [host]:port, else the remote address without brackets |
| LoginProxy.RemoteHost | internal/webhooks/kratos-login-backoff/proxy.go:169-175 | without an address in a header, the host of host:port, and what stands in the brackets of [host]:port |
| LoginProxy.HandOffIsStable | internal/webhooks/kratos-login-backoff/proxy.go:106-110 | an address-valued client IP is already trimmed, and the forwarded request yields it again |
| LoginProxy.HeaderIPParses | internal/webhooks/kratos-login-backoff/proxy.go:156-167 | whatever a header yields is an address |
| LoginProxy.Proxy.ServeHTTP | internal/webhooks/kratos-login-backoff/proxy.go:37-116 | what each kind of request comes to: forwarded as it is, too large, forwarded with what could be read, or counted; a counted one that is refused is redirected exactly when its Accept has "text/html" somewhere, with its wait in decimal, else gets reason and message. Reading takes the body out of the request, and Kratos reads from a forwarded one what it would have read without the proxy, exactly but for a POST of undeclared length that breaks off, which arrives as if it were whole |
| LoginProxy.TruncationArrivesWhole | internal/webhooks/kratos-login-backoff/proxy.go:51-65 | the input for that exception: two bytes of a chunked login, then the connection breaks |
| LoginProxy.ForwardedAgain | internal/webhooks/kratos-login-backoff/proxy.go:106-115 | proxying a forwarded request again changes nothing, exactly when the first address among the parts of its client IP, if any, is all of it; so for every IP from a header |
| LoginProxy.RedirectTellsWait | internal/webhooks/kratos-login-backoff/proxy.go:86-90 | two blocked browsers are sent to the same address exactly when they have to wait equally long |
| LoginProxy.ProxyResetsWhatItCounted | internal/webhooks/kratos-login-backoff/proxy.go:106-115 | the hook's reset deletes exactly the keys the proxied attempt raised and touches no other counter |
| LoginProxy.NextAttemptIsFirst | internal/webhooks/kratos-login-backoff/service.go:256-314 | after that reset, whatever else happens, the first attempt with the same normal form of identifier and the same client IP counts 1 and 1 |
| LoginProxy.GuessesAreBounded | internal/webhooks/kratos-login-backoff/proxy.go:37-116 | the attempts that are forwarded for one identifier, or from one IP, in any interval obey the sharp rate bound; POSTs that are forwarded uncounted come on top |
| LoginProxy.ArrivalsAreBounded | internal/webhooks/kratos-login-backoff/proxy.go:37-116 | the login POSTs that Kratos gets to read whole are at most the sharp rate bound and the POSTs of undeclared length that break off, which no counter sees |
| LoginProxy.CutsExceed | internal/webhooks/kratos-login-backoff/proxy.go:58-68 | for every b a run, without resets or faults, in which b cut POSTs exceed the bound by b |
| LoginProxy.CutsDecide | internal/webhooks/kratos-login-backoff/proxy.go:46-116 | in every run with at most b cut POSTs in the interval arrivals exceed the bound by at most x, exactly when b <= x, for every counter that a login can name |
| LoginProxy.BoundHoldsIff | internal/webhooks/kratos-login-backoff/proxy.go:58-68 | the rate bound holds for what Kratos gets to read in every run with at most b cut POSTs in the interval, exactly when b is 0 |
| LoginProxy.WhatCanBeNamed | internal/webhooks/kratos-login-backoff/logfields.go:15-21 | an identifier counter is one that logins can name exactly when its name is a normal form, and every address is an IP that they can have |
| Verification.MarkedImpliesSent | internal/webhooks/kratos-verification/handler.go:84-117 | under every interleaving and fault, a live mark, a success reply and an "already sent" reply have a published welcome behind them, no later than the mark |
| VerificationRuns.DuplicatesBounded | internal/webhooks/kratos-verification/handler.go:84-117 | with at most c requests in flight, at most c of the requests that check between two absences of the mark ever publish, and one more for each check that misses a live mark and each mark that is not set because Redis failed |
| VerificationRuns.DuplicatesHappen | internal/webhooks/kratos-verification/handler.go:84-117 | for every c a run from the start, without faults or lapses and with at most c requests in flight, in which c requests check and publish |
| VerificationRuns.OverlapDecides | internal/webhooks/kratos-verification/handler.go:57-117 | at most m welcomes in every such stretch of every run, exactly when at most m requests can overlap or the identity is blank, for all c and m |
| VerificationRuns.AtMostOnceIff | internal/webhooks/kratos-verification/handler.go:84-117 | at most one welcome in every such stretch of every run holds exactly when no two requests of the identity overlap |
| VerificationRuns.SlipsHappen | internal/webhooks/kratos-verification/handler.go:84-117 | for every c > 0 and f a run with at most c in flight and f such failures in which c + f requests check and publish |
| VerificationRuns.SlipsDecide | internal/webhooks/kratos-verification/handler.go:84-117 | at most m publish in every stretch without lapses, with at most c in flight and f such Redis failures, exactly when c + f <= m, c is 0 or the identity is blank |
| VerificationRuns.SerialAtMostOnce | internal/webhooks/kratos-verification/handler.go:84-117 | if requests of an identity never overlap and no check misses a live mark and no mark fails to be set, its welcomes are at least 7776000 seconds (90 days) apart |
| VerificationRuns.SerialIff | internal/webhooks/kratos-verification/handler.go:84-117 | without overlap the welcomes are 90 days apart in every run with at most f such Redis failures, exactly when f is 0 |
| VerificationRuns.EveryEventAccountedFor | internal/webhooks/kratos-verification/handler.go:100-127 | queued events equal success replies plus requests between publish and reply, per identity and in total |
| VerificationRuns.EveryEventIsFor | internal/webhooks/kratos-verification/service.go:61-85 | in every run each queued event was published for a request of its own, is addressed to that person alone, with identity, email, names and profile URL of that payload, and each request that published has its event there |
| VerificationHandler.Service.ValidatePayload | internal/webhooks/kratos-verification/service.go:42-59 | reports exactly the blank required fields, in order |
| VerificationHandler.Service.CheckWelcomeSent | internal/webhooks/kratos-verification/service.go:89-100 | true exactly when the call succeeds and the mark is live |
| VerificationHandler.Service.MarkWelcomeSent | internal/webhooks/kratos-verification/service.go:103-111 | marks if the call took effect, and never fails its caller |
| VerificationHandler.Handler.HandleVerification | internal/webhooks/kratos-verification/handler.go:38-128 | store, queue and reply are those of the transition system running this request's four steps without interruption: skipped with the names of the blank fields in order, skipped for a live mark, error for a failed publish, else one welcome to the payload's person, a 7776000-second mark and success |
| VerificationHandler.SkippedForTraits | internal/webhooks/kratos-verification/handler.go:57-77 | a reply names missing traits exactly when one of the four fields holds nothing but white space |
| VerificationHandler.StepsOutcome | internal/webhooks/kratos-verification/handler.go:57-127 | the outcome of those steps: skipped for missing traits or a live mark, error on a failed publish, else one event, a mark and success |

## Left out

- LoginRenaming.RenamingIsInvisible: error texts of Redis are taken as independent of the keys.
- LoginProxy.ArrivalsAreBounded: the identifier of a POST is an input also where the code does not get to look for one.
- Clients.RedisClient.TwoKeyScript: script caching, retries, cluster slots, millisecond rounding of times to live and the 64-bit counter overflow are not modelled; a call runs its script at most once.
- VerificationRuns.DuplicatesBounded: a publish that fails is taken to have queued nothing.
- JSON and form decoding: the identifier found in a body, and a decoded payload or its absence, are inputs.
- LoginProxy.Proxy.ServeHTTP: what Kratos reads is taken from the declared length and the bytes sent, with no further transport faults.
- HMAC-SHA256 is an arbitrary function of key and identifier.
- LogFields.NormaliseIsProjection: text is ASCII; white space and case folding beyond it are not modelled.
- Different spellings of one IPv6 address are different counters, as in the code; nothing is claimed about them.
- The login HTTP handlers, response writing, routing, TLS, the reverse proxy's own header handling and the proxy's own log lines.
- RabbitMQ connections, the password-changed webhook (one event for one request), health checks, correlation and maintenance middleware, configuration loading and server start-up.
