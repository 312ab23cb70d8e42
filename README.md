# VIT Typing Stats: the Monkeytype cache and its API routes, in Dafny

This project models the server side of a typing-club leaderboard. Members
sign in with Discord, verify a college email address, and link a Monkeytype
account. The model covers:

- **The cache manager** (`src/lib/monkeytypeCache.ts`). A singleton object
  holds:
  - an insertion-ordered map from Discord id to the last fetched typing
    scores;
  - a re-entrancy flag;
  - the time of the last complete cycle;
  - the time a rate-limit cooldown began.

  A refresh cycle runs in this order:
  1. It loads the verified users.
  2. It processes them in batches.
  3. Each user's scores come from the Monkeytype profile API, which is
     tried up to three times.
  4. Outside development, a scraper is used when the API fails.
  5. Each new record is stored, and its 60/30/15 s personal bests are
     upserted into the score table.
- **The score upsert** of `src/lib/updateScoresInDb.ts`.
- **The API routes:**
  - rank;
  - verify-email and verify-email/confirm;
  - verify-monkeytype;
  - user GET/PATCH;
  - update-personal-score;
  - monkeytype-cache GET/POST.
- **`formatTimeAgo`** of the admin cache page.

## Modules

| file | module | models |
|---|---|---|
| `wrappers.dfy` | `Wrappers` | `Option` and `Result` |
| `text.dfy` | `Text` | decimal rendering (`toString`, template literals), `includes`, `endsWith` |
| `scores.dfy` | `Scores` | the nine nullable score fields, the empty record, and the 60/30/15 score map |
| `score_store.dfy` | `ScoreStore` | the score table keyed by `(userId, testType)`, plus two write loops: `updateScoresInDb`, where each mode has its own `try`, and `updateDatabaseScores`, where one `try` covers the whole loop |
| `profile_api.dfy` | `ProfileApi` | response shapes, `getScoreForMode`, the retry loop of `fetchScoresViaAPI`, and `fetchUserScores` |
| `cache_model.dfy` | `CacheModel` | the manager's state as a value, and the reference functions for a user update, a pass over the users and a whole cycle, with their lemmas |
| `cache_manager.dfy` | `CacheManager` | the class `MonkeytypeCacheManager`, whose fields and methods are proved equal to the `CacheModel` functions |
| `users.dfy` | `Users` | the user table, sessions, JSON body values and strict equality |
| the route modules | `Rank`, `EmailVerification`, `MonkeytypeVerification`, `UserProfile`, `PersonalScore`, `CacheRoute` | one module per route file |
| `time_format.dfy` | `TimeFormat` | `formatTimeAgo` |

How the model is written:

- **State-changing code.** Every method that changes state is imperative
  Dafny. The cache manager is a class: its methods have `modifies this`, and
  each ensures the new fields equal a `CacheModel` function of the old ones.
  The route handlers take the user table as a value and return the new
  table together with the reply.
- **Loops.** Three loops of the source are `while` loops with invariants:
  - the retry loop;
  - the batch loop;
  - the upsert loops.
- **Inputs from outside the program** are parameters:
  - the current time (`now`, one instant per call);
  - the response to each API attempt;
  - the scraper's result;
  - the development flag;
  - the set of test types whose upsert throws;
  - the user directory;
  - the random draw;
  - whether mail delivery succeeded;
  - whether there is a session;
  - the admin id.
- **JavaScript semantics are written out:**
  - the falsy-to-null fallback (`or null`), so `0` becomes null;
  - `!==` as strict equality between `undefined`, `null` and strings;
  - `%` as a truncating remainder;
  - `Map` iteration order as an explicit key sequence.

The code differs in these points from what a reader of the cache's doc
comments might expect; the model follows the code:

- The only mutual exclusion is the in-process `isUpdating` flag. There is no
  leased lock in a shared store.
- There is no 12-hour throttle on durable writes.
- `updateDatabaseScores` stops at the first failed upsert. Later modes are
  not written.
- Only two back-off pauses ever happen: after a 429 they are 1 s and 2 s,
  and after any other error 2 s and 4 s. A third 429 fails at once.
- A falsy `0` score becomes null, like an absent one.
- `forceUpdate` ignores its argument and runs a whole cycle.

## Model

| member | source | states |
|---|---|---|
| Scores.EmptyScores | src/lib/monkeytypeCache.ts:457-469 | all nine fields of the empty record are null |
| Scores.ScoreMap | src/lib/updateScoresInDb.ts:16-20 | three entries, in the order "60", "30", "15"; entry i carries wpm/raw/acc of test type i |
| Scores.ScoreMapRoundTrip | src/lib/monkeytypeCache.ts:421-425 | the score map loses nothing: the nine fields can be rebuilt from it |
| Scores.HasScoresFacts | src/app/api/monkeytype-cache/route.ts:20 | the empty record has no score; a record with a non-null wpm in its score map has one |
| ScoreStore.RowFor | src/lib/updateScoresInDb.ts:32-44 | the row written for a mode has that user, that test type, its wpm, its raw and accuracy (null kept as null) and `createdAt = now`, set by the update and, on create, assumed from the schema default |
| ScoreStore.Upsert | src/lib/updateScoresInDb.ts:25-45 | the key `(userId, testType)` is added or overwritten with that row; every other key keeps its row; at most one row per key |
| ScoreStore.ApplyWrites | src/lib/updateScoresInDb.ts:25-45 | the upserts of a list of modes applied in order (a definition; `WritesEffect` and `ApplyWritesWellKeyed` state its effect) |
| ScoreStore.IsolatedWrites | src/lib/updateScoresInDb.ts:22-49 | the modes written with a `try` per mode: exactly the entries with a non-null wpm whose upsert does not fail |
| ScoreStore.AbortingWrites | src/lib/monkeytypeCache.ts:427-454 | the modes written with one `try` around the loop: only writable entries whose upsert does not fail, taken from the score map |
| ScoreStore.AbortingIsPrefix | src/lib/monkeytypeCache.ts:418-454 | the one-`try` writes are a prefix of the per-mode-`try` writes, and the same when no upsert fails |
| ScoreStore.AbortingLosesLaterModes | src/lib/monkeytypeCache.ts:427-454 | when only the "60" upsert fails, one `try` writes nothing, while a `try` per mode still writes "30" and "15" |
| ScoreStore.AbortingStops | src/lib/monkeytypeCache.ts:452-454 | after the first failing upsert no later mode is written |
| ScoreStore.ScoreMapDistinct | src/lib/updateScoresInDb.ts:16-20 | the three test types of the score map are distinct |
| ScoreStore.WritesEffect | src/lib/updateScoresInDb.ts:25-45 | after a run of upserts, each written mode's key holds its row, every other row is unchanged, and the keys are the old keys plus the written ones |
| ScoreStore.ApplyWritesWellKeyed | src/lib/updateScoresInDb.ts:27-31 | every row stays stored under its own `(userId, testType)` |
| ScoreStore.UpdateScoresInDb | src/lib/updateScoresInDb.ts:15-51 | the loop's table: each mode with a non-null wpm whose upsert does not throw holds its row; other users' rows and unwritten modes are unchanged; nothing else is added |
| ScoreStore.UpdateDatabaseScores | src/lib/monkeytypeCache.ts:417-455 | the same for the one-`try` loop, whose writes are the aborting prefix |
| ProfileApi.OrNull | src/lib/monkeytypeCache.ts:330-332 | the falsy-to-null fallback: null exactly when x is null or 0, otherwise x |
| ProfileApi.ErrorText | src/lib/monkeytypeCache.ts:262 | `Error.prototype.toString`, which `${apiError}` applies: `name: message`, or the name alone for an empty message, or the message alone for an empty name |
| ProfileApi.GetScoreForMode | src/lib/monkeytypeCache.ts:318-334 | a missing mode, a non-array duration or a missing first entry gives the all-null triple; otherwise the first entry's fields with falsy values made null; never 0 |
| ProfileApi.ScoresFromBests | src/lib/monkeytypeCache.ts:336-350 | the 15/30/60 triples come from `time` 15, 30 and 60; no field is 0 |
| ProfileApi.ClassifyAttempt | src/lib/monkeytypeCache.ts:277-314 | an attempt is a 429 exactly on status 429; it fetched exactly on an ok status with `data.personalBests` present, and then the scores are extracted from it; otherwise it throws: the fetch's own error, `new Error` with the status and status text for a non-ok status, the parse error of the body, or `new Error` with the no-personal-bests text |
| ProfileApi.ApiFrom | src/lib/monkeytypeCache.ts:272-364 | reference definition of the retry loop: between 1 and 3 attempts, with one pause between each pair of attempts |
| ProfileApi.ApiFromResult | src/lib/monkeytypeCache.ts:272-364 | the loop stops at the first attempt that fetched; the result is that attempt's scores; an error only after three attempts, and it is the third attempt's own: the rate-limit error after a 429, otherwise the error that attempt threw (`throw error`, :353); `lastRateLimitTime` is set exactly when the third attempt is a 429 |
| ProfileApi.ApiFromWaits | src/lib/monkeytypeCache.ts:285-295 | each pause is `2^k` s after a 429 on attempt k, and `2^(k+1)` s after another error |
| ProfileApi.BackoffValues | src/lib/monkeytypeCache.ts:285 | the pauses after a 429 are 1 s then 2 s; after another error they are 2 s then 4 s |
| ProfileApi.ThreeRateLimitsFail | src/lib/monkeytypeCache.ts:284-291 | three 429s give the rate-limit error after 3 attempts and pauses of 1 s and 2 s, with the cooldown set |
| ProfileApi.ApiFetch | src/lib/monkeytypeCache.ts:269-364 | at most three attempts, one pause fewer than attempts |
| ProfileApi.FetchScoresViaApi | src/lib/monkeytypeCache.ts:269-364 | the `while (retryCount < maxRetries)` loop computes the reference outcome; the statement after the loop is unreachable |
| ProfileApi.UserFetch | src/lib/monkeytypeCache.ts:254-268 | the API result when it succeeds; otherwise, in development, the error whose message is the fixed prefix followed by `String(apiError)`, else the scraper's outcome; the rate-limit flag comes from the API path |
| ProfileApi.FetchUserScores | src/lib/monkeytypeCache.ts:254-268 | the method computes `UserFetch` of the attempt responses |
| ProfileApi.RateLimitMessageLacks429 | src/lib/monkeytypeCache.ts:290 | the exhausted-429 message does not contain "429" |
| ProfileApi.RateLimitErrorText | src/lib/monkeytypeCache.ts:288-290 | the rate-limit error renders as `Error: Rate limited after 3 attempts` |
| ProfileApi.WrappedRateLimitMessageLacks429 | src/lib/monkeytypeCache.ts:262 | neither does that message once wrapped by the development path, so the batch-level "429" test cannot see it |
| ProfileApi.DevelopmentPrefixText | src/lib/monkeytypeCache.ts:262 | the development wrapping puts `API failed and scraping disabled in development: ` before the rendered error |
| ProfileApi.DevelopmentKeepsErrorName | src/lib/monkeytypeCache.ts:262 | in development, three network failures `TypeError("fetch failed")` give the message `...in development: TypeError: fetch failed`: the error's own name is kept |
| CacheModel.Initial | src/lib/monkeytypeCache.ts:37-48 | the initial state is empty, not updating, and well formed |
| CacheModel.SetEntry | src/lib/monkeytypeCache.ts:232 | `Map.set`: the key is bound to the record, the insertion order only grows, and the other fields are unchanged |
| CacheModel.SetEntryWf | src/lib/monkeytypeCache.ts:248 | `Map.set` keeps the order a list of the map's keys, each key listed once |
| CacheModel.Lookup | src/lib/monkeytypeCache.ts:212 | `data.get`: present exactly when the key is, with its record |
| CacheModel.SkipUser | src/lib/monkeytypeCache.ts:214-218 | the back-off test: a record exists, has at least 3 attempts and was fetched under 5 min ago (a definition; `UserStepSkips` states its effect) |
| CacheModel.SuccessRecord | src/lib/monkeytypeCache.ts:223-230 | the record after a successful fetch (a definition; `UserStepRecord` states its fields) |
| CacheModel.FailureRecord | src/lib/monkeytypeCache.ts:239-246 | the record after a failed fetch (a definition; `UserStepRecord` states its fields) |
| CacheModel.UserStepWith | src/lib/monkeytypeCache.ts:211-252 | reference definition of `updateUserData` given the fetch outcome: the skip test, the cooldown set by the API path, then the success record and its score upserts, or the failure record; its properties are `UserStepSkips`, `UserStepRecord`, `UserStepScores`, `UserStepFrame` and `UserStepWf` |
| CacheModel.UserStep | src/lib/monkeytypeCache.ts:211-252 | `UserStepWith` with the fetch computed by `UserFetch` from the user's environment (a definition) |
| CacheModel.UsersStepWith | src/lib/monkeytypeCache.ts:158-187 | reference definition of a pass: the users updated one after another, in list order; its properties are `UsersStepFacts`, `UsersStepOthers`, `UsersStepRateLimit` and `UsersStepSnoc` |
| CacheModel.UsersStep | src/lib/monkeytypeCache.ts:158-187 | `UsersStepWith` with each user's fetch and failing upserts taken from its environment (a definition) |
| CacheModel.VerifiedUsers | src/lib/monkeytypeCache.ts:189-208 | a failing directory query gives the empty list |
| CacheModel.UserStepSkips | src/lib/monkeytypeCache.ts:214-218 | a user with a record that has at least 3 attempts and is under 5 min old is skipped: nothing changes |
| CacheModel.UserStepRecord | src/lib/monkeytypeCache.ts:220-248 | otherwise the user's record is written with `lastFetched = now`. On success: the fetched scores, 0 attempts and no error. On failure: the previous scores (or the empty record), attempts + 1 (1 when new) and the error message. The cooldown starts exactly when the API path was rate limited |
| CacheModel.UserStepScores | src/lib/monkeytypeCache.ts:232-234 | only a successful fetch writes score rows, namely the aborting writes of its score map; other users' rows are unchanged |
| CacheModel.UserStepFrame | src/lib/monkeytypeCache.ts:211-252 | at most the user's own key is added; every other record, `lastGlobalUpdate` and `isUpdating` are unchanged |
| CacheModel.UserStepWf | src/lib/monkeytypeCache.ts:211-252 | a user update keeps the state well formed |
| CacheModel.UsersStepFacts | src/lib/monkeytypeCache.ts:158-187 | after a pass the keys are the old keys plus the users' ids; the pass keeps the state well formed |
| CacheModel.UsersStepOthers | src/lib/monkeytypeCache.ts:158-187 | a record whose id is not in the pass is unchanged |
| CacheModel.UsersStepRateLimit | src/lib/monkeytypeCache.ts:288-290 | once a user of the pass starts the cooldown, the pass ends with `lastRateLimitTime = now` |
| CacheModel.UsersStepSnoc | src/lib/monkeytypeCache.ts:164-168 | a pass over one more user is one more user update |
| CacheModel.CachedData | src/lib/monkeytypeCache.ts:78-80 | as many records as keys in the insertion order, the i-th being the record of the i-th key |
| CacheModel.StatsOf | src/lib/monkeytypeCache.ts:86-102 | `userCount` is the map size, fresh plus stale is `userCount`, `cacheAge` is `now - lastGlobalUpdate`, `nextUpdateIn` is never negative and with `cacheAge` reaches at least 5 min; `lastGlobalUpdate` and `isUpdating` are the state's |
| CacheModel.FreshCount | src/lib/monkeytypeCache.ts:90-91 | the number of fresh records never exceeds the number of records |
| CacheModel.StatsFacts | src/lib/monkeytypeCache.ts:86-101 | `userCount` is the map size; `freshDataCount` is the number of keys whose record is under 5 min old (strictly), at most `userCount`; `staleDataCount` is the rest, never negative; `nextUpdateIn` is `max(0, 5 min - cacheAge)` |
| CacheModel.FreshCountIsFreshKeys | src/lib/monkeytypeCache.ts:90-91 | counting the fresh records of `values()` counts the fresh keys |
| CacheModel.CachedDataFacts | src/lib/monkeytypeCache.ts:78-80 | `values()` lists every record once, in insertion order |
| CacheModel.CycleSpec | src/lib/monkeytypeCache.ts:106-156 | reference definition of `updateCache`: the two guards, the empty-directory return, then a pass with `isUpdating` set, `lastGlobalUpdate = now` and the flag cleared; its properties are `CycleGuards`, `CycleCompletes` and `CycleCoversUsers` |
| CacheModel.CycleGuards | src/lib/monkeytypeCache.ts:106-117 | a cycle changes nothing while another runs or during the cooldown |
| CacheModel.CycleCompletes | src/lib/monkeytypeCache.ts:119-155 | a cycle past the guards ends not updating, with `lastGlobalUpdate = now`; a failing directory changes nothing else; the keys become the old keys plus the verified users; records of other ids are unchanged; well formed |
| CacheModel.CycleCoversUsers | src/lib/monkeytypeCache.ts:125-134 | after a cycle past the guards every verified user has a record |
| CacheModel.RateLimitedUserStartsCooldown | src/lib/monkeytypeCache.ts:284-291 | a new user whose three attempts are all 429 in development is recorded with one attempt, the wrapped rate-limit error and empty scores. The cooldown starts at `now`, and a cycle of any directory within the next 5 min changes nothing |
| CacheManager.FulfilledNoRateLimit | src/lib/monkeytypeCache.ts:170-173 | a batch whose promises all fulfilled contains no rejection mentioning "429" |
| CacheManager.MonkeytypeCacheManager.constructor | src/lib/monkeytypeCache.ts:37-52 | the fields start as the initial state |
| CacheManager.MonkeytypeCacheManager.GetCachedData | src/lib/monkeytypeCache.ts:78-80 | one record per key, in insertion order, covering every record |
| CacheManager.MonkeytypeCacheManager.GetCachedUserData | src/lib/monkeytypeCache.ts:82-84 | the record for the id, or null exactly when there is none |
| CacheManager.MonkeytypeCacheManager.GetCacheStats | src/lib/monkeytypeCache.ts:86-102 | the stats counts and ages as stated for `StatsFacts` |
| CacheManager.MonkeytypeCacheManager.UpdateUserData | src/lib/monkeytypeCache.ts:211-252 | the new fields are the user update of the old; the promise always fulfils |
| CacheManager.MonkeytypeCacheManager.SetRecord | src/lib/monkeytypeCache.ts:232 | the new fields are `SetEntry` of the old |
| CacheManager.MonkeytypeCacheManager.StoreFetch | src/lib/monkeytypeCache.ts:220-251 | records a fetch outcome as the user update does |
| CacheManager.MonkeytypeCacheManager.ProcessNext | src/lib/monkeytypeCache.ts:166 | one more user of the pass is processed; the result is fulfilled |
| CacheManager.MonkeytypeCacheManager.ProcessBatch | src/lib/monkeytypeCache.ts:165-168 | the batch's users are processed in order, with one fulfilled result each |
| CacheManager.MonkeytypeCacheManager.ProcessUsersInBatches | src/lib/monkeytypeCache.ts:158-187 | every user in input order, in batches of 1 to `batchSize` users that concatenate to the list; one fulfilled result per user; the state is the pass over all users |
| CacheManager.MonkeytypeCacheManager.UpdateCache | src/lib/monkeytypeCache.ts:106-156 | the new fields are the cycle of the old ones, and stay well formed |
| CacheManager.MonkeytypeCacheManager.ForceUpdate | src/lib/monkeytypeCache.ts:104-106 | a whole cycle, whatever the caller meant to target |
| Rank.FindIndex | src/app/api/rank/route.ts:19 | `findIndex`: -1 exactly when absent, otherwise the first position of the id |
| Rank.UserIds | src/app/api/rank/route.ts:16 | the `userId` column, position by position |
| Rank.IsRankedListing | src/app/api/rank/route.ts:13-17 | what the query returns: every "60" row of the table exactly once, each as stored, with wpm never increasing (a definition; `RankReflectsTable` and `RankOrder` use it) |
| Rank.GetRank | src/app/api/rank/route.ts:7-23 | 401 exactly without a session; no rank with the fixed message exactly when the user is not listed; otherwise `1 <= rank <= n`, the entry at `rank-1` is the user's and no earlier entry is |
| Rank.RankReflectsTable | src/app/api/rank/route.ts:13-23 | against the table: ranked exactly when the user has a "60" row, and the ranked entry is that row |
| Rank.RankOrder | src/app/api/rank/route.ts:13-17 | everyone ahead has at least the user's wpm, and everyone with a higher wpm is ahead |
| EmailVerification.CodeFor | src/app/api/verify-email/route.ts:15 | the code is 6 decimal digits whose value is `100000 + draw`, in [100000, 999999] |
| EmailVerification.CodeForInjective | src/app/api/verify-email/route.ts:15 | different draws give different codes |
| EmailVerification.MailCarriesCode | src/app/api/verify-email/route.ts:40 | the mail text contains the code right after the fixed prefix and ends with it |
| EmailVerification.WithPendingCode | src/app/api/verify-email/route.ts:17-25 | `collegeEmail` and `collegeCode` are set; every other column is unchanged |
| EmailVerification.RequestCode | src/app/api/verify-email/route.ts:7-44 | 401; a non-string email throws (500); a wrong suffix gives 400; a missing row gives 500 (all four leave the table unchanged and send no mail). Otherwise the address and code are stored, the mail carries the same code, and a failed delivery gives 500 after the write |
| EmailVerification.StoredCode | src/app/api/verify-email/confirm/route.ts:12-16 | `user?.collegeCode` is `undefined` exactly when the row is missing, and otherwise the row's `collegeCode` column (`null` or the string) |
| EmailVerification.CodeAccepted | src/app/api/verify-email/confirm/route.ts:16 | `user?.collegeCode !== code` is false: for a missing row exactly when the code is undefined, for a row without a pending code exactly when the code is null, otherwise exactly when the code is the pending string |
| EmailVerification.Confirmed | src/app/api/verify-email/confirm/route.ts:20-26 | verified set, code cleared, every other column unchanged |
| EmailVerification.ConfirmCode | src/app/api/verify-email/confirm/route.ts:6-29 | 401; a code that is not strictly equal to the stored one gives 400 with the table unchanged; an accepted code on a missing row gives 500; otherwise verified and the code cleared |
| EmailVerification.MailedCodeAccepted | src/app/api/verify-email/confirm/route.ts:16 | after a code request the confirm test accepts exactly the mailed code |
| EmailVerification.ResubmitRejected | src/app/api/verify-email/confirm/route.ts:24 | after confirmation no string code is accepted again |
| EmailVerification.NewCodeReplacesOld | src/app/api/verify-email/route.ts:17-25 | a second request makes the first code invalid |
| EmailVerification.NullCodeAccepted | src/app/api/verify-email/confirm/route.ts:16 | as written, a row with no pending code accepts the body `{"code": null}` |
| EmailVerification.PendingCodeMatchesIff | src/app/api/verify-email/confirm/route.ts:16 | the intended test is the written one restricted to string codes |
| EmailVerification.ConfirmPendingCode | src/app/api/verify-email/confirm/route.ts:6-29 | the confirm route with the intended test: a row becomes verified only when the body carries its pending code |
| MonkeytypeVerification.FetchBioViaApi | src/app/api/verify-monkeytype/route.ts:123-152 | fails exactly on a thrown fetch, a non-ok status (with the status in the message), an unparsable body or a missing `data`; otherwise the bio, or null when it is missing or empty |
| MonkeytypeVerification.ObtainBio | src/app/api/verify-monkeytype/route.ts:78-94 | the API's bio when it succeeds; otherwise a development failure in development, else the scraper's bio or its failure |
| MonkeytypeVerification.BioVerifies | src/app/api/verify-monkeytype/route.ts:96 | `!bioText \|\| !bioText.includes("[VIT]")` is false exactly when there is a bio containing the tag; the empty-bio test adds nothing |
| MonkeytypeVerification.VerifyMonkeytype | src/app/api/verify-monkeytype/route.ts:66-121 | 401; a missing or empty username gives 400; a development failure or a failed scrape gives 500; a missing row gives 500 (all unchanged). A bio with `[VIT]` links and verifies the username (200); any other bio clears the link (400). Keys are unchanged, and a verified link always names an account |
| MonkeytypeVerification.ProfileWithoutDetailsRejected | src/app/api/verify-monkeytype/route.ts:151 | a profile without `details` yields a null bio, which is rejected |
| MonkeytypeVerification.TagAloneVerifies | src/app/api/verify-monkeytype/route.ts:96 | a bio that is exactly `[VIT]` passes |
| UserProfile.ProjectionHidesCode | src/app/api/user/route.ts:14-25 | the GET view does not depend on `collegeCode`, `avatarUrl` or `discordId` |
| UserProfile.ProjectionKeepsTheRest | src/app/api/user/route.ts:14-25 | rows with the same view agree on every other column |
| UserProfile.Project | src/app/api/user/route.ts:14-25 | the ten columns GET selects (a definition; `ProjectionHidesCode` and `ProjectionKeepsTheRest` state what it keeps and drops) |
| UserProfile.GetUser | src/app/api/user/route.ts:7-28 | 401 exactly without a session; `null` exactly for a missing row; otherwise the ten-column view |
| UserProfile.ApplyField | src/app/api/user/route.ts:56-65 | undefined leaves the column, null clears it, a string sets it |
| UserProfile.Patched | src/app/api/user/route.ts:40-65 | the id, avatar, both verified flags and the pending code are untouched |
| UserProfile.PatchIdempotent | src/app/api/user/route.ts:52-66 | the same body twice has the effect of once; an empty body changes nothing |
| UserProfile.GetAfterPatch | src/app/api/user/route.ts:52-66 | GET after PATCH shows each sent value, with the flags unchanged |
| UserProfile.VerifiedLinkRetargeted | src/app/api/user/route.ts:58 | a verified row stays verified when `mtUrl` is repointed, or cleared by null |
| UserProfile.PatchUser | src/app/api/user/route.ts:31-73 | 401; a missing row or a non-text value gives 500 with the table unchanged; otherwise the patched row is stored and echoed whole |
| UserProfile.PatchEchoesPendingCode | src/app/api/user/route.ts:68 | as written, the PATCH reply repeats the pending code that GET withholds |
| UserProfile.PatchUserProjected | src/app/api/user/route.ts:31-73 | the same update, with a reply equal to what a following GET returns |
| UserProfile.ProjectedReplyHidesCode | src/app/api/user/route.ts:68 | the projected reply does not depend on the pending code |
| PersonalScore.ReplyAfterRefresh | src/app/api/update-personal-score/route.ts:36-53 | 500 exactly when there is still no record; otherwise the 60/30/15 triples and `lastFetched` of the record |
| PersonalScore.Eligible | src/app/api/update-personal-score/route.ts:13-20 | the row exists with a non-empty `mtUrl` and `mtVerified` set (a definition; `UpdatePersonalScore` states the 400 it gates) |
| PersonalScore.ServedFromCache | src/app/api/update-personal-score/route.ts:23-25 | a record exists and is under 30 s old (a definition; `FreshnessBoundary` checks its boundary) |
| PersonalScore.UpdatePersonalScore | src/app/api/update-personal-score/route.ts:7-59 | 401, or 400 when the user is not eligible (no refresh); a record under 30 s old is served from cache (no refresh); otherwise a whole cycle runs and the reply reads the record back |
| PersonalScore.RefreshOutcome | src/app/api/update-personal-score/route.ts:34-40 | 500 exactly when the user had no record and the cycle did not process them; a skipped cycle answers "updated" with the old record |
| PersonalScore.FreshnessBoundary | src/app/api/update-personal-score/route.ts:25 | a record exactly 30 s old is refreshed, and one 29 999 ms old is served |
| CacheRoute.Summarize | src/app/api/monkeytype-cache/route.ts:14-21 | the five record fields unchanged; `hasScores` exactly when one of the nine fields is non-null |
| CacheRoute.SummaryOmitsScores | src/app/api/monkeytype-cache/route.ts:14-21 | the summary carries no score value |
| CacheRoute.FailedNewUserHasNoScores | src/app/api/monkeytype-cache/route.ts:20 | a user whose first fetch failed has no scores |
| CacheRoute.Summaries | src/app/api/monkeytype-cache/route.ts:14 | one summary per record, position by position |
| CacheRoute.GetCacheReport | src/app/api/monkeytype-cache/route.ts:6-27 | `userCount` is the number of records and `stats.userCount`; fresh plus stale is that count; the users are the summaries in insertion order, covering every record |
| CacheRoute.IsAdmin | src/app/api/monkeytype-cache/route.ts:31 | nobody is the admin without a session or with `NEXT_PUBLIC_ADMIN_ID` unset; the admin's session id is that variable |
| CacheRoute.PostCacheAction | src/app/api/monkeytype-cache/route.ts:29-48 | 401 for anyone but the admin, and 400 for another action (no update in either case); "force-update" runs a whole cycle |
| TimeFormat.JsRem | src/app/admin/cache/page.tsx:104 | the truncating `%`: `a == b * Trunc(a, b) + r`, where `Trunc` is the quotient rounded toward zero; so r is Dafny's `%` for a non-negative dividend and lies in (-b, 0] for a negative one |
| TimeFormat.Minutes | src/app/admin/cache/page.tsx:103 | `Math.floor(diff / 60000)`: the largest m with `60000 * m <= diff` |
| TimeFormat.Seconds | src/app/admin/cache/page.tsx:104 | `Math.floor((diff % 60000) / 1000)`: the floor of the truncated remainder in seconds, between -60 and 59 |
| TimeFormat.FormatTimeAgo | src/app/admin/cache/page.tsx:101-106 | the text always ends with the seconds and `s ago` |
| TimeFormat.UnderAMinute | src/app/admin/cache/page.tsx:101-106 | under a minute ago the text is the whole seconds elapsed followed by `s ago` |
| TimeFormat.AtLeastAMinute | src/app/admin/cache/page.tsx:101-106 | a minute or more ago the text is `<t / 60>m <t % 60>s ago`, t being the whole seconds elapsed |
| TimeFormat.SecondsSplit | src/app/admin/cache/page.tsx:103-104 | for `diff >= 0` the seconds lie in 0..59 and `60 * minutes + seconds == floor(diff / 1000)` |
| TimeFormat.FutureSeconds | src/app/admin/cache/page.tsx:103-104 | for a future timestamp the minutes are negative and the seconds lie in -60..0 |
| TimeFormat.MinutesShownIff | src/app/admin/cache/page.tsx:105 | the text has an "m" exactly when at least 60 s have passed |
| Text.NatToStringRoundTrip | src/app/api/verify-email/route.ts:15 | the decimal rendering of a number reads back as that number |
| Text.NatToStringLength | src/app/api/verify-email/route.ts:15 | a number in [10^(k-1), 10^k) has k digits |

## Left out

- **Network I/O.** The HTTP calls to the profile API and the headless-browser
  scrapers (`src/lib/monkeytypeCache.ts:366-415`,
  `src/app/api/verify-monkeytype/route.ts:154-175`) are replaced by their
  outcomes, given as parameters. The request timeouts are left out.
- **Timers and sleeps.** The background interval and the initial timer
  (`src/lib/monkeytypeCache.ts:54-76`) and the pauses (`:182`, `:293`,
  `:359`) are left out. The back-off pauses are kept as values in
  `ApiOutcome.waits`.
- **Concurrency.** `Promise.allSettled` within a batch is modelled
  sequentially, user by user. The only call uses batch size 1. Two cycles
  cannot interleave in the model: the `isUpdating` guard is modelled on
  entry, but an await point inside a cycle is not.
- **Time.** `Date.now()` is a single `now` per call, so
  `lastGlobalUpdate`, `lastFetched` and `lastRateLimitTime` all read the
  same instant within one cycle. The duration log is left out.
- **Floating point.** Scores are `real`, so `isNaN` is always false.
  The scraper's `parseFloat` is left out.
- **Randomness.** `Math.random` in the verify-email route is replaced by a
  draw in [0, 900000).
- **Mail.** nodemailer delivery is a boolean outcome.
- **Authentication.** NextAuth sessions are `Option<string>`.
  `src/lib/auth.ts` is not part of this model.
- **Request parsing.** A body that fails `req.json()` is not modelled.
  verify-monkeytype takes `username` as an optional string, so a non-string
  username is not modelled.
- **The database schema.** Every text column is assumed nullable.
  `discordId` is the user table's unique key.
- ScoreStore.RowFor: `createdAt = now` on create is an assumption about a
  schema default. Neither upsert sets `createdAt`
  (`src/lib/updateScoresInDb.ts:38-44`, `src/lib/monkeytypeCache.ts:442-448`),
  and the schema file is not part of this model.
- **Logging.** All `console` output, including the per-result error log at
  `src/lib/monkeytypeCache.ts:144-148`, is left out.
- **Unreachable error handlers.** These `catch` blocks cannot be reached in
  the model, because nothing inside them can throw there:
  - the outer `catch` of `updateCache` (`:150-152`);
  - the `catch` in update-personal-score
    (`src/app/api/update-personal-score/route.ts:55-57`);
  - the `catch` in monkeytype-cache (`src/app/api/monkeytype-cache/route.ts:44-46`);
  - the GET `catch` in monkeytype-cache (`:23-25`).
- **Commented-out code.** The first implementation in
  `src/app/api/verify-monkeytype/route.ts:1-56` is commented out and not
  modelled.
- **Other callers.** The thin callers of `forceUpdate` (the refresh-scores,
  update-leaderboard and force-update-all routes) and
  `src/lib/refreshScores.ts` are not part of this model. The leaderboard
  query and the UI are not part of it either.
- CacheManager.MonkeytypeCacheManager.ProcessUsersInBatches: the
  rate-limit `break` is kept, but it is proved dead, because
  `updateUserData` catches every error and no promise rejects. Its contract
  therefore says every user is processed. The cooldown after a rate limit
  comes from `fetchScoresViaAPI` setting `lastRateLimitTime` itself.
- CacheManager.MonkeytypeCacheManager.UpdateCache: like every
  state-changing method of the class and every route handler that changes
  the manager, its contract is an equality of states, written with `old`.
  The properties each such method promises are proved as lemmas about the
  `CacheModel` functions it is equal to.

## Findings

| source | as written | input that shows it | evidently intended | confidence | as-written member | corrected member |
|---|---|---|---|---|---|---|
| src/app/api/verify-email/confirm/route.ts:16 | `user?.collegeCode !== code` lets the request through when both sides are `null` | a signed-in user with no pending code (never requested, or already confirmed) posts `{"code": null}`; the row is marked `collegeVerified` without any mail having been sent | accept only when a code is pending and the body carries that string | not executed | EmailVerification.ConfirmCode, EmailVerification.NullCodeAccepted | EmailVerification.ConfirmPendingCode |
| src/app/api/user/route.ts:68 | the PATCH reply is the whole updated row | a user with a pending email code posts `{}` to PATCH /api/user; the reply contains `collegeCode`, which GET deliberately leaves out, so the confirmation step can be passed without access to the mailbox | reply with the same projection GET uses | not executed | UserProfile.PatchUser, UserProfile.PatchEchoesPendingCode | UserProfile.PatchUserProjected |

A related observation about `src/app/api/user/route.ts:58`: `mtUrl` is on
the PATCH whitelist but `mtVerified` is not. A verified row can therefore be
repointed at any account, or cleared to null, and stay verified
(`UserProfile.VerifiedLinkRetargeted`). A row cleared to null drops out of
the cache's directory query, which requires a non-null `mtUrl`. A repointed
row stays in it, and the cache then stores the new account's scores under
this Discord id.
