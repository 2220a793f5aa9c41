# A verified model of the identity and access service

This project models the parts of the service that carry state, time or translations, and proves what
they promise over every input and every run. `dafny verify dfyconfig.toml` checks all of it.

Python classes with fields are Dafny classes: `TokenService`, `UserProfileCache`, `UserRepository`,
`Authenticator` (once for lockout, once for MFA), `RateLimiter`, `PasswordResets`, `WorkspaceMembers`,
`WorkspaceTable`, `SessionStore`. Their methods change fields in place and are proved equal to functions
on value states. The protocol theorems are about runs of those functions: an initial state, then any
sequence of possible steps.

| file | what it models |
|---|---|
| `Prelude.dfy`, `Text.dfy` | options, time, lower-casing and trimming of ASCII text |
| `ProfileCache.dfy` | one worker's two-tier profile cache |
| `CacheProtocol.dfy` | many workers, one Redis, one database: the steps of the invalidation protocol |
| `CacheListener.dfy` | the pub/sub listener that delivers invalidations |
| `CacheCoherence.dfy`, `CacheGaps.dfy`, `CacheStaleness.dfy` | what the protocol guarantees, exactly when, and how old an answer can be otherwise |
| `UserRepository.dfy` | the repository on one worker without Redis: the cache changes no answer |
| `TokenService.dfy` | revocation by id, raw token and family; expiring keys against growing sets |
| `RefreshFamilies.dfy` | refresh rotation with reuse detection (section 4.14.2 of RFC 9700) |
| `LikePattern.dfy` | escaping into LIKE patterns (section 8.5 of ISO/IEC 9075-2), the audit filter |
| `AssigneeFilter.dfy` | the task filter by assignee, over the text of a JSON column |
| `Lockout.dfy`, `LockoutRace.dfy` | failure counters and locks over time, and with attempts of many workers interleaved |
| `RateLimiter.dfy` | request windows over time |
| `ResetTokens.dfy`, `Invitations.dfy` | single-use tokens with interleaved consumers |
| `Roles.dfy`, `Permissions.dfy`, `PolicyFallback.dfy` | role closure, wildcard permissions, OPA against its fallback |
| `Slugs.dfy` | slug text, suffix allocation, distinct slugs |
| `Sessions.dfy` | the in-memory session table and its index by user |
| `Mfa.dfy`, `MfaThroughCache.dfy` | MFA challenges and backup codes, over the row and over the profile cache |

## What is assumed

- Time is a real number of seconds and does not go back; `int(timestamp)` is its floor. A Redis key or a
  token is live while `now` is before its expiry (section 4.1.4 of RFC 7519). The Redis TTL command rounds
  to the nearest second.
- New UUIDs and random tokens are fresh, and a hash determines what was hashed. A signature is a boolean:
  a signed token is one the service minted. The verdicts of the password and TOTP libraries are parameters.
- Text is ASCII. A user id is a parsed UUID, so its textual variants are one number. `None` stands for a
  missing or empty optional text.
- One revocation, lockout or rate-limit backend serves a whole run. Serialised are the refreshes of a family,
  the completions of MFA challenges, and the creations and renamings of workspaces (a lost race would fail on
  the unique slug column). Password resets and invitations are not. The database runs at READ COMMITTED, so
  the two statements that create a reset token are two steps.
- `Lockout` takes a login attempt, from the lock check to the record, as one step. That is so within a worker;
  `LockoutRace` drops it for workers that share Redis.
- An MFA completion works on the profile that the cache returned, which may be old. Callers do not change a
  returned profile in place; `get_user` returns a shallow copy, and a completion that writes into its nested
  `metadata` invalidates that user right after.
- In the cache protocol each writer uses its own database session (commit, then clear both tiers, then
  publish), and a user id is not reused after deletion. A read and the `set_user` after it may be one step or
  two with anything between them, and messages may be lost; the coherence theorems say exactly when either
  does harm, and the staleness theorems bound the harm.
- Resource attributes have the types the policy expects, or are missing or null.

## Where the code differs from its documentation

- The lockout counter and the rate limiter are documented as sliding windows. Both windows are fixed: they
  start at the first request and do not move. So two of them can meet: `2 * max - 1` requests pass within one
  window length (`RateLimiter.WindowLengthBoundIsSharp`), so the sliding reading holds only for limits up to one
  (`RateLimiter.SlidesOnlyUpToOne`); and eight failed password checks pass within five minutes, with five more
  for each success or unlock among them (`Lockout.FiveMinuteBoundIsReached`). The documented five hold for the
  interval from a given time exactly when Redis holds no counter of three or less that closes inside it
  (`Lockout.FiveFromExactly`).
- A backup code is documented as single-use. The completion checks and writes back the codes of a cached profile,
  so with an old profile a used code is accepted again, also on one worker with no message lost
  (`MfaThroughCache.GapReusesCode`). It is single-use while each completion reads for a user that is quiet in
  the cache (`MfaThroughCache.QuietCompletionsConserve`).
- `create_password_reset_token` says it invalidates prior tokens. Two requests of one user that overlap leave
  two unused tokens (`ResetTokens.OverlapLeavesTwo`).
- A string of the assignee column that holds a double quote and ends in the address after it is matched too.
- With Redis and one attempt at a time the counter cannot pass five, so the one-hour lock of the tenth failure
  is never applied; it takes six attempts of a user in flight at once. In memory the counter never expires.
- The OPA fallback denies what OPA allows in two cases: an empty department, which the fallback reads as
  `General`, and a negative clearance against a null required clearance, which Rego orders below every number.
- `update_user` does not trim a user name. A cached lookup then answers for a name that the query does not match.
- Deleting a session whose user id is empty leaves its index entry behind.
- A slug that ends in a dash gets a suffix with a second dash next to it, so the result is no slug of itself.
- The engine gives an unknown role level 0, so every caller meets an unknown required role; the role closure
  does not contain it.

## Model

| member | source | states |
|---|---|---|
| LikePattern.ChainedIsOnePass | audit_logger.py:344-348 | the three sequential replaces equal one pass that escapes each special character, because the backslash goes first |
| LikePattern.UnescapeInvertsEscape | audit_logger.py:344-348 | the typed text can be read back from its escaped form, so no two texts share a pattern |
| LikePattern.EscapedPatternIsSubstring | audit_logger.py:349-351 | under LIKE with escape `\`, `%` + escaped s + `%` matches t exactly when s is a substring of t, for all s and t |
| LikePattern.EventTypeFilterIsSubstring | audit_logger.py:342-351 | the event-type criterion selects exactly the rows whose event type contains the trimmed text, ignoring case; a blank text selects all |
| LikePattern.SearchPatternWellFormed | db_manager.py:102-110 | every pattern sent is legal LIKE syntax: no escape is dangling or precedes an ordinary character |
| AssigneeFilter.AssigneeFilterIsSubstring | task_repository.py:188-200 | the condition selects exactly the tasks whose single address is the requested one and those whose stored text has it between double quotes, ignoring case |
| AssigneeFilter.QuotedIsInner | task_repository.py:195-200 | a quoted text occurs in another exactly when it is one of the parts between two quotes |
| AssigneeFilter.AssigneePatternFindsStrings | task_repository.py:195-200 | on the text of any JSON value the pattern finds an address exactly when it is a whole string, or the end of a string after a quote inside it, or the punctuation between two strings, which no text with an `@` is |
| TokenService.TokenService.RevokeToken | token_service.py:256-288 | records the id, and the raw token when given one, for max(1, exp - now) or 604800 s in Redis, for ever in memory; changes nothing else |
| TokenService.TokenService.IsTokenRevoked | token_service.py:290-319 | true exactly when the presented text or the id inside it has a live entry |
| TokenService.TokenService.RevokeTokenFamily | token_service.py:321-334 | revokes the family for 604800 s in Redis, for ever in memory; changes nothing else |
| TokenService.TokenService.IsFamilyRevoked | token_service.py:336-347 | true exactly when the family has a live entry |
| TokenService.TokenService.DecodeAndVerify | token_service.py:231-254 | the verdict and the reason, in the order of the code's checks |
| TokenService.TtlReachesExpiry | token_service.py:269-271 | the key's time to live, cut to whole seconds, never ends before the token does |
| TokenService.KeysEnd | token_service.py:269-278 | nor does it last a second longer than the token, or more than 1 s for an expired one; a family key lasts exactly 604800 s |
| TokenService.LongLivedTokenReturns | token_service.py:256-277 | with any lifetime over 604800 s the two backends disagree on some careful run: a revoked token is accepted again once its default key is gone |
| TokenService.TtlBlocklistRefinesSets | token_service.py:231-319 | on every careful run expiring keys and never-forgetting sets accept the same tokens, if and only if no lifetime exceeds 604800 s |
| TokenService.VerdictFollowsOperations | token_service.py:231-254 | without Redis the verdict and its reason after any operations: revoked if the id ever was, else invalid, else expired, else refused for its family, else the claims |
| TokenService.RedisAcceptsExactly | token_service.py:231-319 | with Redis, on careful runs with lifetimes up to a week, exactly the signed, unexpired tokens are accepted whose id and family were never revoked |
| RefreshFamilies.RefreshTokens | api/v1/auth_router.py:272-406 | the endpoint's outcome and the new revocation store are those of the state machine's refresh step; on reuse all sessions of the user end, otherwise none |
| RefreshFamilies.RotationFollowsHistory | api/v1/auth_router.py:296-391 | in every reachable state a token is rotated exactly when it is a minted refresh token, unexpired, never spent, in a family never revoked, for an active user |
| RefreshFamilies.AnswersFollowHistory | api/v1/auth_router.py:288-391 | every answer of the endpoint in order, read off the history of spent tokens and revoked families; only a rotation or a detected reuse changes anything |
| RefreshFamilies.AtMostOneUsable | api/v1/auth_router.py:309-391 | in every reachable state a family has at most one usable refresh token |
| RefreshFamilies.RotationPassesTheFamilyOn | api/v1/auth_router.py:380-391 | a rotation makes the old token unusable and its fresh successor the only usable one of the family |
| RefreshFamilies.RotationMintsPair | api/v1/auth_router.py:390-391 | a rotation at time n mints an access token without a family, accepted until n + 899 and expired from n + 900, and a refresh token that can be rotated until n + 604799 and has expired from n + 604800 |
| RefreshFamilies.LoginMintsPair | authenticator.py:332-337 | a login mints such a pair, the refresh token in a family of its own |
| RefreshFamilies.LogoutEndsBearer | api/v1/auth_router.py:410-423 | after a logout its bearer token is never accepted again |
| RefreshFamilies.ReuseRevokesFamily | api/v1/auth_router.py:320-334 | showing a spent token before it expires always leaves its family revoked |
| RefreshFamilies.CascadeIsPermanent | token_service.py:321-347 | no later event lets a token of a revoked family rotate, even after the revocation key has expired |
| RefreshFamilies.StolenTokenEndsTheFamily | api/v1/auth_router.py:309-391 | rotate, any events, show the old token again before it expires: no refresh of that family succeeds afterwards |
| ProfileCache.UserProfileCache.Get | user_repository.py:47-73 | answer and new L1 of a lookup by id: a live L1 entry, else a live L2 record, which restarts the L1 clock only |
| ProfileCache.UserProfileCache.GetByIdentifier | user_repository.py:75-104 | answer and new L1 of a lookup by identifier through both indexes |
| ProfileCache.UserProfileCache.Set | user_repository.py:106-141 | records profile and identifiers in both tiers, each with its own time to live |
| ProfileCache.UserProfileCache.Record | user_repository.py:111-121 | the user's entry is replaced, exactly the user's non-empty identifiers now lead to it, also those that led to another user, and every other entry stays |
| ProfileCache.UserProfileCache.CleanUp | user_repository.py:123-126 | no live entry is lost or changed, so no lookup can tell; nothing happens up to 2000 records, and above that no expired entry is left |
| ProfileCache.UserProfileCache.Invalidate | user_repository.py:143-176 | what both tiers lose and what is published |
| ProfileCache.SetThenGet | user_repository.py:47-121 | after `set_user` the profile is found by id and by either identifier until the L1 time to live is over, whatever Redis holds |
| ProfileCache.SetThenOthersGet | user_repository.py:130-141 | any other worker with nothing of its own finds it in Redis by id and by either identifier until the L2 time to live is over |
| ProfileCache.SharedTierAnswers | user_repository.py:92-104 | a live L2 identifier that leads to a live L2 record answers the lookup, and L1 then holds both for its own time to live |
| CacheListener.Listen | api/v1/websocket_router.py:143-184 | the loop skips the messages that carry the listener's own node id and applies the others in turn, without publishing again |
| CacheListener.DeliveryRemovesNamed | api/v1/websocket_router.py:157-184 | delivery removes exactly the entries that some heard message names and keeps the others unchanged |
| CacheListener.DeliveryOrderIrrelevant | api/v1/websocket_router.py:157-184 | reordered or repeated messages leave the same caches |
| CacheListener.OwnMessagesChangeNothing | api/v1/websocket_router.py:157-159 | messages that carry the listener's own node id change no entry |
| CacheCoherence.L2StepExactly | user_repository.py:132-138 | from a coherent L2 every step, a lost message included, leads to a coherent one, if and only if it is not a `set_user` with a row that a finished write has replaced |
| CacheCoherence.L2CoherentExactly | user_repository.py:392-401 | on every run, with gaps and lost messages, L2 is coherent throughout if and only if each `set_user` stores a row that is still current or whose write has yet to clear the key |
| CacheCoherence.StepExactly | api/v1/websocket_router.py:157-184 | from a state with both tiers coherent a step leads to another, if and only if it stores no replaced row and loses no message that an old L1 record still needs |
| CacheCoherence.CoherentExactly | user_repository.py:143-176 | multi-worker coherence: throughout a run an L2 record differs from its row only while a committed write has not cleared it, and an L1 record only then or while a write or message has still to reach that worker, if and only if every step is harmless in that sense, whether or not the origin hears its own message |
| CacheCoherence.QuietReadsAreExact | user_repository.py:377-401 | anywhere on a harmless run, with no write or message pending for a user at a worker, its read by id equals an uncached read |
| CacheCoherence.SettledCachesEqualDatabase | api/v1/websocket_router.py:157-184 | on every harmless run, with nothing pending at all, every cached profile of every worker and of Redis is the row |
| CacheCoherence.GapLeavesStaleRecord | user_repository.py:392-401 | harmful gaps do occur: after a whole write between a read and its `set_user` the read by id answers with the old record, with nothing pending |
| CacheGaps.UnclearedGapsAreHarmless | user_repository.py:392-401 | on every run, a gap between a read and its `set_user` does no harm, whatever falls into it, unless a writer deletes the key of that user inside it |
| CacheStaleness.ProfileAgeIsBounded | user_repository.py:47-73 | with any messages lost, a profile returned was that user's row less than gap + L2 TTL + L1 TTL ago |
| CacheStaleness.IdentifierAgeIsBounded | user_repository.py:75-104 | the same bound for a lookup by identifier, both for the profile and for the association of the identifier with the user |
| CacheStaleness.NinetySecondsIsSharp | user_repository.py:62-69 | with the default settings every delay from 30 s up to but not including 90 s is reached by a run that returns a replaced profile |
| UserRepository.UserRepository.GetById | user_repository.py:377-401 | the answer is the row or None, exactly as without the cache |
| UserRepository.UserRepository.GetByIdentifier | user_repository.py:403-428 | None only if no row matches, otherwise a current matching row; with trimmed names exactly the uncached query |
| UserRepository.UserRepository.CreateUser | user_repository.py:321-375 | inserts a row with the trimmed name, the cleaned address and each other field as given, or fails and changes nothing when the id, name or address is taken; the cache stays exact |
| UserRepository.UserRepository.UpdateUser | user_repository.py:430-481 | changes exactly the named fields of one row, or nothing; the cache stays exact |
| UserRepository.Change | user_repository.py:439-465 | the id and every unnamed field are kept, each named field takes its value, the address stays or becomes clean, and the same update again changes nothing |
| UserRepository.UserRepository.DeleteUser | user_repository.py:483-500 | removes exactly that row; the cache stays exact |
| UserRepository.UserRepository.SetStatus | user_repository.py:502-519 | changes exactly that row's status; the cache stays exact |
| UserRepository.IndexAgreesWithQuery | user_repository.py:116-121 | cache index and SQL condition select a row for the same keys if and only if its name is trimmed, blank, or equal to its address once cleaned |
| UserRepository.UntrimmedNameSplitsLookups | user_repository.py:442-465 | for every other untrimmed name a cached lookup answers and the query would not |
| Lockout.Authenticator.CheckAccountLockout | authenticator.py:111-130 | the remaining seconds, from the Redis key or the in-memory entry; a lock that has run out is forgotten |
| Lockout.Authenticator.RecordFailedAttempt | authenticator.py:132-174 | the count, the lock it triggers and the new state in both backends |
| Lockout.Authenticator.ClearFailedAttempts | authenticator.py:176-186 | forgets the user's counters and locks only |
| Lockout.Authenticator.AuthenticateCredentials | authenticator.py:231-285 | an unknown or inactive user is turned away without a trace; otherwise refused while locked, counted on a wrong password, cleared on a right one |
| Lockout.MemoryLockoutBound | authenticator.py:149-167 | without Redis, on every trace: the n-th failed check of a streak, n >= 10, comes at least 4500 + 3600 (n - 10) whole seconds after the fifth, in real time more than that less one |
| Lockout.MemoryAnswersExactly | authenticator.py:123-174 | without Redis, on every trace, every answer read off the streak of n failures: refused, with the seconds left, exactly while n >= 5 and the lock of 900 s or from the tenth 3600 s runs; else a success, or failure n + 1 |
| Lockout.RedisWindowBound | authenticator.py:141-165 | with Redis and one attempt at a time, on every trace: the counter stays in 1..5, its fifth failure locks for 900 s, and no other lock is ever applied |
| Lockout.RedisAnswersExactly | authenticator.py:111-174 | with Redis and one attempt at a time, on every trace, every answer read off the failure times: refused, with the seconds left, exactly while the lock of a fifth failure with no later success or unlock runs; else a success, or a failure counted with those since the opening of its window and the last success or unlock |
| Lockout.RedisFiveMinuteBound | authenticator.py:138-145 | with Redis and one attempt at a time, on every trace: any half-open interval of 300 s admits at most eight failed checks of a user, and five more for each success or unlock of that user inside it |
| Lockout.FiveMinuteBoundIsReached | authenticator.py:138-145 | for every user and number of unlocks some trace reaches that bound |
| Lockout.FiveFromExactly | authenticator.py:138-145 | from every reachable state, the interval from time a admits at most five and five more for each success or unlock inside, whatever comes, if and only if no live counter of at most three closes before it ends |
| LockoutRace.InFlightBound | authenticator.py:111-174 | with at most k attempts of a user between check and record, on every interleaving the counter stays at most 4 + k, and the one-hour lock takes k >= 6 |
| LockoutRace.InFlightBoundIsReached | authenticator.py:111-174 | for every user and k some interleaving brings the counter to 4 + k |
| RateLimiter.RateLimiter.CheckRateLimit | api/dependencies.py:216-254 | the decision and the new table of either backend |
| RateLimiter.RateLimiter.PruneExpired | api/dependencies.py:239-243 | the pruning loop removes exactly the entries whose window is over |
| RateLimiter.BackendsDecideAlike | api/dependencies.py:222-254 | the Redis counters and the pruned in-memory table decide every trace identically, for any pruning limit |
| RateLimiter.AdmittedExactly | api/dependencies.py:222-254 | on every trace, for both backends: a request is admitted if and only if at most its limit of requests for its key lie between the opening of its window and itself, refused ones included; the openings are defined by the request times alone |
| RateLimiter.WindowLengthBound | api/dependencies.py:236-254 | for a key with fixed parameters, any half-open interval of one window length admits at most max(0, 2 * max - 1) requests, on every trace |
| RateLimiter.WindowLengthBoundIsSharp | api/dependencies.py:236-254 | for every limit and window some trace admits 2 * max - 1 |
| RateLimiter.SlidesOnlyUpToOne | api/dependencies.py:217-221 | for windows of at least one second every window length admits at most the limit, on all traces, if and only if the limit is at most one |
| ResetTokens.PasswordResets.CreatePasswordResetToken | user_repository.py:589-632 | marks exactly the user's unused tokens used and adds the new one; for an unknown user it fails and changes nothing |
| ResetTokens.PasswordResets.VerifyPasswordResetToken | user_repository.py:634-680 | a token row that is unused, unexpired and owned by an active user, or None when there is none |
| ResetTokens.PasswordResets.ConsumeVerified | user_repository.py:700-725 | the conditional update and the password change as one transaction |
| ResetTokens.EachTokenWinsOnce | user_repository.py:682-725 | on every interleaving of any number of consumers no raw token is consumed twice |
| ResetTokens.VerifiedExactly | user_repository.py:634-680 | in every reachable state a token is verified if and only if its row is unused, unexpired and of an active user, and its text is the one presented; a consumer that goes on at once wins |
| ResetTokens.OneUnusedExactly | user_repository.py:608-630 | on every interleaving a user has at most one unused token throughout, if and only if each new row comes in when its user has none |
| ResetTokens.AtMostOneUnusedToken | user_repository.py:608-630 | while the creations for each user take turns, a user has at most one unused token throughout, whatever consumers, deletions and creations for others interleave |
| ResetTokens.OverlapLeavesTwo | user_repository.py:608-630 | from any state two overlapping creations for one user leave it two unused tokens |
| ResetTokens.WinnerStoresItsHash | user_repository.py:700-725 | a winner stores its own hash for the owner of the token it presented and changes nothing else; a loser changes nothing |
| ResetTokens.SpentStaysSpent | user_repository.py:700-714 | a used or removed token row is never won again |
| ResetTokens.NewTokenRetiresOldOnes | user_repository.py:608-617 | once the creation of a new token has begun no earlier token of that user wins, even one already verified |
| Invitations.WorkspaceMembers.GetInvitation | workspace_repository.py:903-967 | finds an invited row whose stored text is the digest of the presented text or that text itself, or None when there is none |
| Invitations.WorkspaceMembers.AcceptUpdate | workspace_repository.py:1006-1027 | the conditional update activates every row that answers and tells whether there was one |
| Invitations.WorkspaceMembers.AcceptInvitation | workspace_repository.py:969-1027 | accepts only if an unexpired invitation answers, and always if all that answer are unexpired; otherwise changes nothing |
| Invitations.EachInvitationAcceptedOnce | workspace_repository.py:969-1027 | on every interleaving an issued invitation is accepted at most once, presented raw or as its digest |
| Invitations.AcceptedInTime | workspace_repository.py:981-983 | on every interleaving each accepted text was checked before its invitation expired |
| Invitations.NewInvitationWorks | workspace_repository.py:969-1027 | in every reachable state a new invitation can be checked and accepted by the token issued until it expires, and makes the member active and linked to the accepting user |
| Invitations.AcceptanceChangesOneRow | workspace_repository.py:1006-1027 | an acceptance changes exactly the row of its invitation, which the guest had checked in time: active, without token and expiry, linked to the given user or else to the one before; a guest that comes too late changes nothing |
| Roles.ExpandRoles | permission_evaluator.py:116-137 | the worklist loop ends on any hierarchy, cyclic ones included, with exactly the roles reachable from the normalised input, along a non-empty custom hierarchy or else the built-in one |
| Roles.LeastClosed | permission_evaluator.py:129-136 | the reachable roles lie in every inheritance-closed set over the start, so the closure is the least one |
| Roles.ExpandMonotone | permission_evaluator.py:116-137 | more direct roles never give fewer roles |
| Roles.ExpandUnion | permission_evaluator.py:116-137 | expansion distributes over union, for any hierarchy |
| Roles.ExpandIdempotent | permission_evaluator.py:116-137 | expanding an expansion changes nothing, if and only if the blank role is absent or inherited from another role of it |
| Roles.SameRoleExactly | permission_evaluator.py:109-114 | two names mean the same role if and only if they differ only in case and outer space or both are among the five spellings of the super-administrator |
| Roles.NormalizeIdempotent | permission_evaluator.py:109-114 | normalising a role name twice is normalising it once |
| Roles.BuiltInExpansion | permission_evaluator.py:118-124 | with the built-in hierarchy any role expands to its normal form and, if that has a level, to exactly the roles of lower level |
| Roles.ClosureAgreesWithLevels | policy_engine.py:85-89 | for any two names, role closure and numeric levels agree if and only if: the required role is one the engine knows, and the engine reads the caller's spelling or the caller ranks lower anyway; or it is unknown to the engine and the closure holds it |
| Permissions.GetEffectivePermissions | permission_evaluator.py:139-181 | none for a missing or inactive user, `*` for a blanket grant, otherwise the union over the expanded roles, the role of an active membership included |
| Permissions.EngineHasPermission | policy_engine.py:91-103 | true exactly when some caller role grants the lower-cased permission, everything, or its domain |
| Permissions.EngineIgnoresCase | policy_engine.py:93 | the engine reads the required permission in any case |
| Permissions.MoreRolesNeverDeny | permission_evaluator.py:145-181 | more global roles, or a new active membership, never turn an allowed permission into a denied one |
| Permissions.AllowedExactly | permission_evaluator.py:167-181 | allowed is everything with an administrator role or a role that grants `*`, and otherwise exactly what some expanded role grants by itself |
| Permissions.MembershipIsOneMoreRole | permission_evaluator.py:158-165 | an active membership counts exactly as one more direct role, any other for nothing |
| Permissions.UncoveredWildcardSplits | permission_evaluator.py:230-241 | a wildcard over a multi-level domain without the wildcard of its top level allows some permission in the evaluator and not in the engine |
| Permissions.WildcardRulesAgree | policy_engine.py:91-103 | the two wildcard rules agree on all lower-case permissions if and only if each lower-case multi-level wildcard is covered by one of its top level or by `*` |
| PolicyFallback.RegoWithinLocal | policy_engine.py:248-283 | for a non-empty department and a non-negative clearance, whatever the Rego policy allows the local path allows, even when an attribute overrides the resource type |
| PolicyFallback.EmptyDepartmentIsDenied | policy_engine.py:127 | a document OPA lets a user with an empty department read and the fallback denies |
| PolicyFallback.NegativeClearanceIsDenied | policies/authnz.rego:53-58 | a document OPA lets a user with a negative clearance read and the fallback denies |
| PolicyFallback.FallbackCoversExactly | policies/authnz.rego:17-72 | for every user the fallback covers all OPA allows if and only if the department is not empty and the clearance is not negative |
| PolicyFallback.RegoAllowsExactly | policies/authnz.rego:17-72 | what the policy allows on the payload: a super-administrator everything, anyone else reads of public resources and of documents owned or cleared for |
| PolicyFallback.StrangerSeesPublicOnly | policy_engine.py:139-141 | a caller with no administrator role, permission, ownership, department or authorship on the resource is allowed if and only if it is public and read or viewed |
| PolicyFallback.ColleagueNeedsClearance | policy_engine.py:143-148 | a caller with only the department in common is allowed if and only if the clearance suffices, with the defaults 1 and `General` |
| PolicyFallback.CreatorNeedsEditor | policy_engine.py:150-154 | a caller with only a created task is allowed if and only if some role has the level of an editor |
| PolicyFallback.ExcessExactly | policy_engine.py:248-283 | exactly which requests the fallback allows and the policy denies, for a non-empty department and a positive clearance |
| Slugs.SlugifyShape | workspace_repository.py:212-217 | every slug is non-empty lower-case text of letters, digits and dashes, no two dashes adjacent |
| Slugs.SlugifyFixedPoints | workspace_repository.py:212-217 | a text is left alone if and only if it has that shape |
| Slugs.SlugifyIdempotent | workspace_repository.py:212-217 | slugging a slug changes nothing, whatever the random suffix would be |
| Slugs.SlugOfWord | workspace_repository.py:212-217 | a word of letters and digits becomes itself in lower case |
| Slugs.SlugOfJoin | workspace_repository.py:214-216 | the slugs of two texts are joined by one dash if a space, underscore or dash stands between them, and directly if only dropped characters do |
| Slugs.SlugOfSpaced | workspace_repository.py:214 | outer space counts for nothing |
| Slugs.CandidateInjective | workspace_repository.py:303-312 | no two rounds of the suffix loop try the same text |
| Slugs.TakenBoundsCandidates | workspace_repository.py:305-312 | n candidates can all be taken only if n slugs are: the pigeonhole bound on the loop |
| Slugs.AllocateSlug | workspace_repository.py:302-312 | the loop ends within one round more than there are slugs, at the base or the base with a dash and the round number, free and with all predecessors taken |
| Slugs.DecimalWrites | workspace_repository.py:312 | the suffix is the decimal form of the round number, without leading zeros |
| Slugs.SuffixedCandidateIsSlug | workspace_repository.py:312 | a suffixed slug is itself a slug if and only if its base does not end in a dash |
| Slugs.WorkspaceTable.CreateWorkspace | workspace_repository.py:294-324 | stores the first free candidate for the new workspace; all slugs stay distinct |
| Slugs.WorkspaceTable.UpdateSlug | workspace_repository.py:537-565 | stores the slug, fails without change when another workspace holds it, ignores an unknown id; all slugs stay distinct |
| Slugs.WorkspaceTable.DeleteWorkspace | workspace_repository.py:567-581 | removes exactly that workspace; all slugs stay distinct |
| Sessions.SessionStore.CreateSession | session_store.py:153-156 | stores the session and indexes it under its user; the index stays exact |
| Sessions.SessionStore.UpdateSessionData | session_store.py:191-211 | merges the data of an existing session; the index stays exact |
| Sessions.SessionStore.DeleteSession | session_store.py:223-238 | removes exactly that session from the table, and from the index unless its user id is empty |
| Sessions.SessionStore.DeleteEach | session_store.py:266-272 | the deletion loop removes exactly the user's indexed sessions other than the kept one and counts them |
| Sessions.SessionStore.DeleteAllUserSessions | session_store.py:265-274 | removes exactly the user's sessions other than the kept one, leaves every other session unchanged, returns the number removed |
| Mfa.VerifyAndConsumeBackupCode | mfa_provider.py:183-196 | succeeds exactly when the hash is stored, and takes out one occurrence, the first |
| Mfa.RemoveFirstConserves | mfa_provider.py:191-195 | what remains and the code taken out make up the codes before |
| Mfa.Authenticator.InitiateMfaChallenge | authenticator.py:469-507 | stores a fresh challenge of 300 s if the profile seen has a second factor, otherwise nothing |
| Mfa.Authenticator.CompleteMfaChallenge | authenticator.py:509-592 | the outcome and the new challenges and codes of one completion, in the order of the code's checks, with the codes checked in and written back from the profile seen |
| Mfa.ChallengeBounds | authenticator.py:533-592 | on every run, whatever profiles are seen, a challenge has at most three failed code checks, all by the user it was begun for, none after it expires and none after a success |
| Mfa.OthersChangeNothing | authenticator.py:533-537 | on every run a completion by anyone else is no code check and changes no challenge and no account |
| Mfa.AnswersExactly | authenticator.py:526-592 | on every run the code is compared exactly while the challenge is open for that user and the profile seen has a second factor, and succeeds exactly by a right one-time code or a backup code among those seen |
| Mfa.ConservedStepExactly | authenticator.py:561-576 | a step keeps remaining plus consumed codes equal to the enrolled ones for every user, if and only if a completion that uses up a backup code saw the codes of the row |
| Mfa.ConservedExactly | authenticator.py:561-576 | that balance holds throughout a run if and only if each such completion saw the codes of the row |
| Mfa.BackupCodesConserved | authenticator.py:566-576 | on such runs, between enrolments the remaining codes and the consumed ones make up the enrolled ones, so backup-code logins never exceed codes issued |
| Mfa.ConsumedCodeIsRefused | mfa_provider.py:183-196 | on such runs a code enrolled once and consumed is refused by every completion that sees the codes of the row |
| Mfa.OldProfileReusesCode | authenticator.py:561-576 | for every user and code, two serialised completions that see the one code enrolled both succeed with it |
| MfaThroughCache.QuietCompletionsConserve | authenticator.py:519-576 | along a harmless run of the cache, if each completion reads at a worker for which its user is quiet, the codes of every user balance throughout |
| MfaThroughCache.GapReusesCode | authenticator.py:519-576 | on one worker, with no message lost, a run of the cache and two completions that read through it use one code twice |
| Text.CleanIdempotent | user_repository.py:79 | trimming and lower-casing an identifier twice, as repository and cache do, is doing it once |
| Text.StripDropsSpace | user_repository.py:79 | what trimming removes is only space |

## Left out

- Cryptography and libraries: JWT encoding, password hashing, SHA-256, TOTP codes, WebAuthn.
- Redis outages within a run: the fallbacks then read and write different stores.
- Redis mode of the session store: the session's time to live is extended without that of the user index.
- The repositories' caller-provided sessions: they invalidate before the caller commits.
- Interleaving inside one refresh or one MFA completion, where the code awaits between its check and its update.
- RefreshFamilies.RefreshTokens: does not model the audit record, the alert e-mail, the cookies, or sessions kept in Redis.
- UserRepository.UserRepository.CreateUser: takes the outcome of the JSON parser as given; a text that parses to another type is not modelled.
- UserRepository.UserRepository.UpdateUser: takes the outcome of the JSON parser as given, as above.
- CacheCoherence.CoherentExactly: says nothing of identifier keys in Redis, which an invalidation by id leaves to expire; `CacheStaleness.IdentifierAgeIsBounded` bounds their age.
- CacheListener.Listen: takes the messages of one connection as given; the reconnecting outer loop and the WebSocket channels are plumbing.
- AssigneeFilter.AssigneePatternFindsStrings: covers requested texts that JSON writes as they are, so no quote, backslash or control character in the address; `AssigneeFilter.AssigneeFilterIsSubstring` covers all.
- Mfa.Authenticator.CompleteMfaChallenge: does not model the tokens and the session issued after a success.
- Slugs.SlugifyShape: covers ASCII text; Unicode word characters and case mapping are not modelled.
- Slugs.SlugifyFixedPoints: covers ASCII text, as above.
- Slugs.SlugifyIdempotent: covers ASCII text, as above.
- Slugs.WorkspaceTable.UpdateSlug: does not model the name and description that the same call may set.
- Re-creation of a deleted user under the same id while its invalidation is under way.
- Malformed or empty ids and tokens, which return early.
- Roles added or removed one at a time, `list_users`, the evaluator's `has_role`: compositions of what is proved here.
- The decision cache and the OPA client of the policy engine; the condition strings of `policies/rules.json`, which the engine never interprets.
- OAuth providers, device trust, e-mail, metrics, command-line tools, migrations, routing, schemas, column lengths.
