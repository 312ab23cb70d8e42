/** The state machine of the Monkeytype cache manager
    (src/lib/monkeytypeCache.ts) as values: the cached records, the
    re-entrancy flag, the cooldown time and the score table the cycle writes,
    and one function per step of a refresh cycle. The class in CacheManager
    keeps its fields equal to these values. */
module CacheModel {
  import opened Wrappers
  import opened Scores
  import opened ScoreStore
  import opened ProfileApi

  /** `CACHE_DURATION`: five minutes in milliseconds. */
  const CacheDuration: int := 5 * 60 * 1000
  /** `MAX_FETCH_ATTEMPTS`. */
  const MaxFetchAttempts: nat := 3
  /** `RATE_LIMIT_DELAY`: the cooldown after a rate limit. */
  const RateLimitDelay: int := 5 * 60 * 1000
  /** The back-off window written inline in `updateUserData`. */
  const RetryWindow: int := 5 * 60 * 1000

  /** One cached user. `lastError` is `None` when it is `undefined`. */
  datatype CachedUserData = CachedUserData(
    discordId: string, mtUsername: string, scores: UserScore,
    lastFetched: int, fetchAttempts: nat, lastError: Option<string>)

  /** A row of `getVerifiedUsers`: a verified user with a Monkeytype name. */
  datatype VerifiedUser = VerifiedUser(discordId: string, mtUrl: string)

  /** Everything the outside world decides about one user's refresh: the
      API response of each attempt, whether NODE_ENV is development, what
      scraping yields, and the test types whose upsert throws. */
  datatype UserEnv = UserEnv(
    respond: nat -> ApiResponse, development: bool,
    scrape: Result<UserScore>, dbFailing: set<string>)

  /** The manager's fields. `order` is the insertion order of the Map
      `cache.data`; `db` is the score table the cycle writes to. */
  datatype CacheState = CacheState(
    data: map<string, CachedUserData>, order: seq<string>,
    lastGlobalUpdate: int, isUpdating: bool, lastRateLimitTime: int,
    db: ScoreTable)

  /** No key listed twice in the insertion order. */
  predicate DistinctKeys(ks: seq<string>) {
    forall i, j | 0 <= i < j < |ks| :: ks[i] != ks[j]
  }

  /** The invariant of the manager: the order lists each key of the map
      once, every record sits under its own Discord id, and the score table
      is keyed by (userId, testType). */
  ghost predicate Wf(s: CacheState) {
    && DistinctKeys(s.order)
    && (forall k :: k in s.data <==> k in s.order)
    && (forall k | k in s.data :: s.data[k].discordId == k)
    && WellKeyed(s.db)
  }

  /** The state of a freshly constructed manager. */
  function Initial(db: ScoreTable): (s: CacheState)
    ensures WellKeyed(db) ==> Wf(s)
    ensures s.data == map[] && !s.isUpdating
  {
    CacheState(map[], [], 0, false, 0, db)
  }

  /** `cache.data.set(r.discordId, r)`: an existing key keeps its place in
      the order, a new key goes last. */
  function SetEntry(s: CacheState, r: CachedUserData): (s': CacheState)
    ensures s'.data == s.data[r.discordId := r]
    ensures s'.lastGlobalUpdate == s.lastGlobalUpdate && s'.isUpdating == s.isUpdating
    ensures s'.lastRateLimitTime == s.lastRateLimitTime && s'.db == s.db
    ensures s.order <= s'.order
  {
    s.(data := s.data[r.discordId := r],
       order := if r.discordId in s.data then s.order else s.order + [r.discordId])
  }

  /** Setting an entry keeps the invariant. */
  lemma SetEntryWf(s: CacheState, r: CachedUserData)
    requires Wf(s)
    ensures Wf(SetEntry(s, r))
  {
    var s' := SetEntry(s, r);
    assert forall k :: k in s'.data <==> k in s'.order;
  }

  /** `cache.data.get(id)`. */
  function Lookup(s: CacheState, id: string): (e: Option<CachedUserData>)
    ensures e.Some? <==> id in s.data
    ensures e.Some? ==> e.value == s.data[id]
  {
    if id in s.data then Some(s.data[id]) else None
  }

  /** The back-off test of `updateUserData`: a record that failed three
      times and was fetched less than five minutes ago is not retried. */
  predicate SkipUser(e: Option<CachedUserData>, now: int) {
    e.Some? && e.value.fetchAttempts >= MaxFetchAttempts && now - e.value.lastFetched < RetryWindow
  }

  /** The record written after a successful fetch. */
  function SuccessRecord(user: VerifiedUser, scores: UserScore, now: int): (r: CachedUserData)
  {
    CachedUserData(user.discordId, user.mtUrl, scores, now, 0, None)
  }

  /** The record written after a failed fetch: the previous scores (all
      null for a new user), one more attempt, and the error message. */
  function FailureRecord(user: VerifiedUser, e: Option<CachedUserData>, message: string, now: int): (r: CachedUserData)
  {
    CachedUserData(user.discordId, user.mtUrl,
                   if e.Some? then e.value.scores else EmptyScores(),
                   now, (if e.Some? then e.value.fetchAttempts else 0) + 1, Some(message))
  }

  /** `updateUserData` for one user, given what its fetch returned. The API
      path sets `lastRateLimitTime` before anything else; a success then
      stores the record and upserts the scores; a failure stores the
      failure record. */
  function UserStepWith(s: CacheState, user: VerifiedUser, now: int, f: FetchResult, dbFailing: set<string>): CacheState {
    var e := Lookup(s, user.discordId);
    if SkipUser(e, now) then s
    else
      var s1 := if f.rateLimited then s.(lastRateLimitTime := now) else s;
      match f.result
      case Ok(scores) =>
        var s2 := SetEntry(s1, SuccessRecord(user, scores, now));
        s2.(db := ApplyWrites(s2.db, user.discordId, AbortingWrites(ScoreMap(scores), dbFailing), now))
      case Err(message) =>
        SetEntry(s1, FailureRecord(user, e, message, now))
  }

  /** `updateUserData` with the fetch decided by the user's environment. */
  function UserStep(s: CacheState, user: VerifiedUser, now: int, env: UserEnv): CacheState {
    UserStepWith(s, user, now, UserFetch(env.respond, env.development, env.scrape), env.dbFailing)
  }

  /** The fetch outcome of the i-th user of a pass. */
  function FetchesOf(envs: nat -> UserEnv): nat -> FetchResult {
    (i: nat) => UserFetch(envs(i).respond, envs(i).development, envs(i).scrape)
  }

  /** The failing upserts of the i-th user of a pass. */
  function FailingOf(envs: nat -> UserEnv): nat -> set<string> {
    (i: nat) => envs(i).dbFailing
  }

  /** The users of a list processed one after the other, the i-th with
      fetch outcome fetch(i) and failing upserts failing(i). */
  function UsersStepWith(s: CacheState, users: seq<VerifiedUser>, now: int,
                         fetch: nat -> FetchResult, failing: nat -> set<string>): CacheState
    decreases |users|
  {
    if users == [] then s
    else
      var n := |users| - 1;
      UserStepWith(UsersStepWith(s, users[..n], now, fetch, failing), users[n], now, fetch(n), failing(n))
  }

  /** The users of a list processed in order, the i-th with environment envs(i). */
  function UsersStep(s: CacheState, users: seq<VerifiedUser>, now: int, envs: nat -> UserEnv): CacheState {
    UsersStepWith(s, users, now, FetchesOf(envs), FailingOf(envs))
  }

  /** One more user of a pass in the environment-driven form. */
  lemma UsersStepSnoc(s: CacheState, users: seq<VerifiedUser>, k: nat, now: int, envs: nat -> UserEnv)
    requires k < |users|
    ensures UsersStep(s, users[..k + 1], now, envs) == UserStep(UsersStep(s, users[..k], now, envs), users[k], now, envs(k))
  {
    assert users[..k + 1][..k] == users[..k];
    assert FetchesOf(envs)(k) == UserFetch(envs(k).respond, envs(k).development, envs(k).scrape);
    assert FailingOf(envs)(k) == envs(k).dbFailing;
  }

  /** A prefix split at an inner point. */
  lemma PrefixSplit(users: seq<VerifiedUser>, i: nat, end: nat)
    requires i <= end <= |users|
    ensures users[..end] == users[..i] + users[i..end]
    ensures users[..|users|] == users && users[..0] == []
  {
  }

  /** The batches of a pass laid end to end. */
  function Concat(batches: seq<seq<VerifiedUser>>): seq<VerifiedUser>
    decreases |batches|
  {
    if batches == [] then [] else Concat(batches[..|batches| - 1]) + batches[|batches| - 1]
  }

  /** `getVerifiedUsers`: a failing directory query yields no users. */
  function VerifiedUsers(directory: Result<seq<VerifiedUser>>): (users: seq<VerifiedUser>)
    ensures directory.Err? ==> users == []
    ensures directory.Ok? ==> users == directory.value
  {
    if directory.Ok? then directory.value else []
  }

  /** `updateCache`: skipped while a cycle runs or during the cooldown;
      otherwise every verified user is processed with `isUpdating` set, and
      the cycle ends with `lastGlobalUpdate` advanced and the flag cleared. */
  function CycleSpec(s: CacheState, now: int, directory: Result<seq<VerifiedUser>>, envs: nat -> UserEnv): CacheState {
    if s.isUpdating then s
    else if now - s.lastRateLimitTime < RateLimitDelay then s
    else
      var users := VerifiedUsers(directory);
      if users == [] then s.(lastGlobalUpdate := now)
      else UsersStep(s.(isUpdating := true), users, now, envs).(lastGlobalUpdate := now, isUpdating := false)
  }

  /** The records in the Map's insertion order. */
  function ValuesIn(data: map<string, CachedUserData>, ks: seq<string>): (vs: seq<CachedUserData>)
    requires forall i | 0 <= i < |ks| :: ks[i] in data
    ensures |vs| == |ks|
    ensures forall i | 0 <= i < |ks| :: vs[i] == data[ks[i]]
    decreases |ks|
  {
    if ks == [] then [] else ValuesIn(data, ks[..|ks| - 1]) + [data[ks[|ks| - 1]]]
  }

  /** `getCachedData`: `Array.from(cache.data.values())`. */
  function CachedData(s: CacheState): (vs: seq<CachedUserData>)
    requires forall i | 0 <= i < |s.order| :: s.order[i] in s.data
    ensures |vs| == |s.order|
    ensures forall i | 0 <= i < |vs| :: vs[i] == s.data[s.order[i]]
  {
    ValuesIn(s.data, s.order)
  }

  /** A record is fresh when fetched less than CACHE_DURATION ago. */
  predicate IsFresh(r: CachedUserData, now: int) {
    now - r.lastFetched < CacheDuration
  }

  /** The length of `.filter(user => now - user.lastFetched < CACHE_DURATION)`. */
  function FreshCount(vs: seq<CachedUserData>, now: int): (n: nat)
    ensures n <= |vs|
    decreases |vs|
  {
    if vs == [] then 0
    else FreshCount(vs[..|vs| - 1], now) + (if IsFresh(vs[|vs| - 1], now) then 1 else 0)
  }

  /** The object `getCacheStats` returns. */
  datatype CacheStats = CacheStats(
    userCount: int, freshDataCount: int, staleDataCount: int,
    lastGlobalUpdate: int, cacheAge: int, isUpdating: bool, nextUpdateIn: int)

  /** `getCacheStats` at time `now`. */
  function StatsOf(s: CacheState, now: int): (st: CacheStats)
    requires forall i | 0 <= i < |s.order| :: s.order[i] in s.data
    ensures st.userCount == |s.data| && st.cacheAge == now - s.lastGlobalUpdate
    ensures st.freshDataCount + st.staleDataCount == st.userCount
    ensures st.nextUpdateIn >= 0 && st.nextUpdateIn + st.cacheAge >= CacheDuration
    ensures st.lastGlobalUpdate == s.lastGlobalUpdate && st.isUpdating == s.isUpdating
  {
    var cacheAge := now - s.lastGlobalUpdate;
    var userCount := |s.data|;
    var freshCount := FreshCount(CachedData(s), now);
    CacheStats(userCount, freshCount, userCount - freshCount, s.lastGlobalUpdate, cacheAge, s.isUpdating,
               if CacheDuration - cacheAge > 0 then CacheDuration - cacheAge else 0)
  }

  /** The keys whose records are fresh: the reference the count is checked against. */
  function FreshKeys(s: CacheState, now: int): set<string> {
    set k | k in s.data && IsFresh(s.data[k], now)
  }

  // ---------------------------------------------------------------------
  // Stats and lookups

  /** The keys of a list, as a set. */
  function KeySet(ks: seq<string>): set<string>
    decreases |ks|
  {
    if ks == [] then {} else KeySet(ks[..|ks| - 1]) + {ks[|ks| - 1]}
  }

  /** The fresh keys of a list, as a set. */
  function FreshSet(data: map<string, CachedUserData>, ks: seq<string>, now: int): set<string>
    requires forall i | 0 <= i < |ks| :: ks[i] in data
    decreases |ks|
  {
    if ks == [] then {}
    else FreshSet(data, ks[..|ks| - 1], now) + (if IsFresh(data[ks[|ks| - 1]], now) then {ks[|ks| - 1]} else {})
  }

  lemma {:induction false} KeySetMembers(ks: seq<string>, k: string)
    ensures k in KeySet(ks) <==> k in ks
    decreases |ks|
  {
    if ks != [] {
      KeySetMembers(ks[..|ks| - 1], k);
      assert k in ks <==> k in ks[..|ks| - 1] || k == ks[|ks| - 1];
    }
  }

  lemma {:induction false} FreshSetMembers(data: map<string, CachedUserData>, ks: seq<string>, now: int, k: string)
    requires forall i | 0 <= i < |ks| :: ks[i] in data
    ensures k in FreshSet(data, ks, now) <==> k in ks && IsFresh(data[k], now)
    decreases |ks|
  {
    if ks != [] {
      FreshSetMembers(data, ks[..|ks| - 1], now, k);
      assert k in ks <==> k in ks[..|ks| - 1] || k == ks[|ks| - 1];
    }
  }

  /** A list without repeats is as long as its key set. */
  lemma {:induction false} KeySetSize(ks: seq<string>)
    requires DistinctKeys(ks)
    ensures |KeySet(ks)| == |ks|
    decreases |ks|
  {
    if ks != [] {
      var init := ks[..|ks| - 1];
      KeySetSize(init);
      KeySetMembers(init, ks[|ks| - 1]);
    }
  }

  /** Over a list without repeats the count is the size of the fresh set,
      and the list is as long as its key set. */
  lemma {:induction false} FreshCountKeys(data: map<string, CachedUserData>, ks: seq<string>, now: int)
    requires forall i | 0 <= i < |ks| :: ks[i] in data
    requires DistinctKeys(ks)
    ensures FreshCount(ValuesIn(data, ks), now) == |FreshSet(data, ks, now)|
    ensures |ks| == |KeySet(ks)|
    decreases |ks|
  {
    if ks != [] {
      var init, last := ks[..|ks| - 1], ks[|ks| - 1];
      FreshCountKeys(data, init, now);
      var vs := ValuesIn(data, ks);
      assert vs[..|vs| - 1] == ValuesIn(data, init);
      assert last !in init;
      KeySetMembers(init, last);
      FreshSetMembers(data, init, now, last);
    }
  }

  /** The stats: `userCount` is the number of records, `freshDataCount` the
      number of records fetched strictly less than CACHE_DURATION ago (one
      exactly five minutes old is stale), `staleDataCount` the rest, both
      non-negative; `nextUpdateIn` is never negative, is 0 once the cache
      is CACHE_DURATION old and otherwise the time left. */
  lemma StatsFacts(s: CacheState, now: int)
    requires Wf(s)
    ensures forall i | 0 <= i < |s.order| :: s.order[i] in s.data
    ensures var st := StatsOf(s, now);
      && st.userCount == |s.data|
      && st.freshDataCount == |FreshKeys(s, now)|
      && 0 <= st.freshDataCount <= st.userCount
      && st.staleDataCount == st.userCount - st.freshDataCount >= 0
      && st.cacheAge == now - s.lastGlobalUpdate
      && st.isUpdating == s.isUpdating && st.lastGlobalUpdate == s.lastGlobalUpdate
      && st.nextUpdateIn >= 0
      && (st.cacheAge >= CacheDuration ==> st.nextUpdateIn == 0)
      && (st.cacheAge < CacheDuration ==> st.nextUpdateIn == CacheDuration - st.cacheAge)
  {
    OrderLength(s);
    FreshCountIsFreshKeys(s, now);
  }

  /** The insertion order lists every key once. */
  lemma OrderLength(s: CacheState)
    requires Wf(s)
    ensures forall i | 0 <= i < |s.order| :: s.order[i] in s.data
    ensures |s.order| == |s.data|
  {
    KeySetSize(s.order);
    forall k ensures k in KeySet(s.order) <==> k in s.data {
      KeySetMembers(s.order, k);
    }
    assert KeySet(s.order) == s.data.Keys;
  }

  /** The filtered count is the number of fresh keys, at most the number of records. */
  lemma FreshCountIsFreshKeys(s: CacheState, now: int)
    requires Wf(s)
    ensures forall i | 0 <= i < |s.order| :: s.order[i] in s.data
    ensures FreshCount(CachedData(s), now) == |FreshKeys(s, now)|
  {
    FreshCountKeys(s.data, s.order, now);
    forall k ensures k in FreshSet(s.data, s.order, now) <==> k in FreshKeys(s, now) {
      FreshSetMembers(s.data, s.order, now, k);
    }
    assert FreshSet(s.data, s.order, now) == FreshKeys(s, now);
  }

  /** `getCachedData` lists every record once, in insertion order. */
  lemma CachedDataFacts(s: CacheState)
    requires Wf(s)
    ensures forall i | 0 <= i < |s.order| :: s.order[i] in s.data
    ensures var vs := CachedData(s);
      && |vs| == |s.data|
      && (forall i | 0 <= i < |vs| :: vs[i] == s.data[s.order[i]])
      && (forall k | k in s.data :: s.data[k] in vs)
  {
    OrderLength(s);
    CachedDataCovers(s);
  }

  lemma CachedDataCovers(s: CacheState)
    requires Wf(s)
    ensures forall i | 0 <= i < |s.order| :: s.order[i] in s.data
    ensures forall k | k in s.data :: s.data[k] in CachedData(s)
  {
    var vs := CachedData(s);
    forall k | k in s.data ensures s.data[k] in vs {
      var i :| 0 <= i < |s.order| && s.order[i] == k;
      assert vs[i] == s.data[k];
    }
  }

  // ---------------------------------------------------------------------
  // One user

  /** A user in back-off is left alone: the whole state is unchanged. */
  lemma UserStepSkips(s: CacheState, user: VerifiedUser, now: int, f: FetchResult, dbFailing: set<string>)
    requires SkipUser(Lookup(s, user.discordId), now)
    ensures UserStepWith(s, user, now, f, dbFailing) == s
  {
  }

  /** Any other user gets a new record dated `now`: after a success the
      fetched scores with the attempt count reset and no error, after a
      failure the previous scores (or nine nulls), one more attempt and the
      error message. `lastRateLimitTime` becomes `now` exactly when the API
      path was rate limited. */
  lemma UserStepRecord(s: CacheState, user: VerifiedUser, now: int, f: FetchResult, dbFailing: set<string>)
    requires !SkipUser(Lookup(s, user.discordId), now)
    ensures var s', id := UserStepWith(s, user, now, f, dbFailing), user.discordId;
      && id in s'.data
      && s'.data[id].discordId == id && s'.data[id].mtUsername == user.mtUrl
      && s'.data[id].lastFetched == now
      && (f.result.Ok? ==>
            s'.data[id].scores == f.result.value && s'.data[id].fetchAttempts == 0 && s'.data[id].lastError == None)
      && (f.result.Err? ==>
            && s'.data[id].scores == (if id in s.data then s.data[id].scores else EmptyScores())
            && s'.data[id].fetchAttempts == (if id in s.data then s.data[id].fetchAttempts + 1 else 1)
            && s'.data[id].lastError == Some(f.result.error))
      && s'.lastRateLimitTime == (if f.rateLimited then now else s.lastRateLimitTime)
  {
  }

  /** The score table after a successful fetch: each mode the single-try
      upsert loop reaches holds its new row, and every row of another user
      is untouched. Without a success the table does not change. */
  lemma UserStepScores(s: CacheState, user: VerifiedUser, now: int, f: FetchResult, dbFailing: set<string>)
    ensures var s', id := UserStepWith(s, user, now, f, dbFailing), user.discordId;
      && (SkipUser(Lookup(s, id), now) || f.result.Err? ==> s'.db == s.db)
      && (!SkipUser(Lookup(s, id), now) && f.result.Ok? ==>
            && s'.db == ApplyWrites(s.db, id, AbortingWrites(ScoreMap(f.result.value), dbFailing), now)
            && (forall e | e in AbortingWrites(ScoreMap(f.result.value), dbFailing) ::
                 (id, e.testType) in s'.db && s'.db[(id, e.testType)] == RowFor(id, e, now)))
      && (forall k | k in s.db && k.0 != id :: k in s'.db && s'.db[k] == s.db[k])
  {
    var s', id := UserStepWith(s, user, now, f, dbFailing), user.discordId;
    if !SkipUser(Lookup(s, id), now) && f.result.Ok? {
      var entries := ScoreMap(f.result.value);
      ScoreMapDistinct(f.result.value);
      SelectionsDistinct(entries, dbFailing);
      WritesEffect(s.db, id, AbortingWrites(entries, dbFailing), now);
    }
  }

  /** Only the user's own entry is written: every other record, the
      update flag and the last global update are unchanged. */
  lemma UserStepFrame(s: CacheState, user: VerifiedUser, now: int, f: FetchResult, dbFailing: set<string>)
    ensures var s' := UserStepWith(s, user, now, f, dbFailing);
      && s'.data.Keys == s.data.Keys + (if SkipUser(Lookup(s, user.discordId), now) then {} else {user.discordId})
      && (forall k | k in s.data && k != user.discordId :: s'.data[k] == s.data[k])
      && s'.lastGlobalUpdate == s.lastGlobalUpdate && s'.isUpdating == s.isUpdating
  {
  }

  /** Processing a user keeps the manager's invariant. */
  lemma UserStepWf(s: CacheState, user: VerifiedUser, now: int, f: FetchResult, dbFailing: set<string>)
    requires Wf(s)
    ensures Wf(UserStepWith(s, user, now, f, dbFailing))
  {
    if !SkipUser(Lookup(s, user.discordId), now) {
      var s1 := if f.rateLimited then s.(lastRateLimitTime := now) else s;
      assert Wf(s1);
      match f.result
      case Ok(scores) =>
        var s2 := SetEntry(s1, SuccessRecord(user, scores, now));
        SetEntryWf(s1, SuccessRecord(user, scores, now));
        ApplyWritesWellKeyed(s2.db, user.discordId, AbortingWrites(ScoreMap(scores), dbFailing), now);
      case Err(message) =>
        SetEntryWf(s1, FailureRecord(user, Lookup(s, user.discordId), message, now));
    }
  }

  // ---------------------------------------------------------------------
  // A list of users

  /** The Discord ids of a list of users. */
  function IdsOf(users: seq<VerifiedUser>): set<string>
    decreases |users|
  {
    if users == [] then {} else IdsOf(users[..|users| - 1]) + {users[|users| - 1].discordId}
  }

  /** After the users are processed each of them has a record, no other
      record appears, the flags are as before and the invariant holds. */
  lemma {:induction false} UsersStepFacts(s: CacheState, users: seq<VerifiedUser>, now: int,
                                          fetch: nat -> FetchResult, failing: nat -> set<string>)
    ensures var s' := UsersStepWith(s, users, now, fetch, failing);
      && s'.data.Keys == s.data.Keys + IdsOf(users)
      && s'.lastGlobalUpdate == s.lastGlobalUpdate && s'.isUpdating == s.isUpdating
      && (Wf(s) ==> Wf(s'))
    decreases |users|
  {
    if users != [] {
      var n := |users| - 1;
      var mid := UsersStepWith(s, users[..n], now, fetch, failing);
      UsersStepFacts(s, users[..n], now, fetch, failing);
      UserStepFrame(mid, users[n], now, fetch(n), failing(n));
      if Wf(s) { UserStepWf(mid, users[n], now, fetch(n), failing(n)); }
      if SkipUser(Lookup(mid, users[n].discordId), now) {
        assert users[n].discordId in mid.data;
      }
    }
  }

  lemma {:induction false} IdsOfMember(users: seq<VerifiedUser>, i: nat)
    requires i < |users|
    ensures users[i].discordId in IdsOf(users)
    decreases |users|
  {
    if i < |users| - 1 {
      assert users[..|users| - 1][i] == users[i];
      IdsOfMember(users[..|users| - 1], i);
    }
  }

  /** Records of users not in the list are untouched. */
  lemma {:induction false} UsersStepOthers(s: CacheState, users: seq<VerifiedUser>, now: int,
                                           fetch: nat -> FetchResult, failing: nat -> set<string>, k: string)
    requires k in s.data && k !in IdsOf(users)
    ensures var s' := UsersStepWith(s, users, now, fetch, failing); k in s'.data && s'.data[k] == s.data[k]
    decreases |users|
  {
    if users != [] {
      var n := |users| - 1;
      var mid := UsersStepWith(s, users[..n], now, fetch, failing);
      UsersStepOthers(s, users[..n], now, fetch, failing, k);
      UserStepFrame(mid, users[n], now, fetch(n), failing(n));
    }
  }

  /** Once some user's fetch is rate limited during the pass, the pass ends
      with `lastRateLimitTime == now`: later users can only set it to `now`
      again. */
  lemma UsersStepRateLimit(s: CacheState, users: seq<VerifiedUser>, now: int,
                           fetch: nat -> FetchResult, failing: nat -> set<string>, i: nat)
    requires i < |users|
    requires UsersStepWith(s, users[..i + 1], now, fetch, failing).lastRateLimitTime == now
    ensures UsersStepWith(s, users, now, fetch, failing).lastRateLimitTime == now
  {
    PrefixKeepsCooldown(s, users, now, fetch, failing, i, |users|);
    assert users[..|users|] == users;
  }

  /** The same for every longer prefix of the pass. */
  lemma {:induction false} PrefixKeepsCooldown(s: CacheState, users: seq<VerifiedUser>, now: int,
                                               fetch: nat -> FetchResult, failing: nat -> set<string>,
                                               i: nat, j: nat)
    requires i < j <= |users|
    requires UsersStepWith(s, users[..i + 1], now, fetch, failing).lastRateLimitTime == now
    ensures UsersStepWith(s, users[..j], now, fetch, failing).lastRateLimitTime == now
    decreases j
  {
    if j > i + 1 {
      PrefixKeepsCooldown(s, users, now, fetch, failing, i, j - 1);
      assert users[..j][..j - 1] == users[..j - 1];
      PassKeepsCooldown(s, users[..j], now, fetch, failing);
    }
  }

  /** The last user of a pass keeps a cooldown the earlier users started. */
  lemma PassKeepsCooldown(s: CacheState, users: seq<VerifiedUser>, now: int,
                          fetch: nat -> FetchResult, failing: nat -> set<string>)
    requires users != []
    requires UsersStepWith(s, users[..|users| - 1], now, fetch, failing).lastRateLimitTime == now
    ensures UsersStepWith(s, users, now, fetch, failing).lastRateLimitTime == now
  {
    var n := |users| - 1;
    UserStepKeepsCooldown(UsersStepWith(s, users[..n], now, fetch, failing), users[n], now, fetch(n), failing(n));
  }

  /** A cooldown started at `now` is not undone by a later user's update. */
  lemma UserStepKeepsCooldown(s: CacheState, user: VerifiedUser, now: int, f: FetchResult, dbFailing: set<string>)
    requires s.lastRateLimitTime == now
    ensures UserStepWith(s, user, now, f, dbFailing).lastRateLimitTime == now
  {
  }

  // ---------------------------------------------------------------------
  // A whole cycle

  /** A cycle does nothing while another runs or during the cooldown. */
  lemma CycleGuards(s: CacheState, now: int, directory: Result<seq<VerifiedUser>>, envs: nat -> UserEnv)
    ensures s.isUpdating ==> CycleSpec(s, now, directory, envs) == s
    ensures now - s.lastRateLimitTime < RateLimitDelay ==> CycleSpec(s, now, directory, envs) == s
  {
  }

  /** A cycle that passes the guards ends with the flag cleared and
      `lastGlobalUpdate == now`, on the empty-list path and the normal path
      alike; a failing directory query counts as no users; every listed
      user has a record, the other records are untouched and the
      invariant holds. */
  lemma CycleCompletes(s: CacheState, now: int, directory: Result<seq<VerifiedUser>>, envs: nat -> UserEnv)
    requires !s.isUpdating && now - s.lastRateLimitTime >= RateLimitDelay
    ensures var s' := CycleSpec(s, now, directory, envs);
      && !s'.isUpdating && s'.lastGlobalUpdate == now
      && (directory.Err? ==> s' == s.(lastGlobalUpdate := now))
      && s'.data.Keys == s.data.Keys + IdsOf(VerifiedUsers(directory))
      && (forall k | k in s.data && k !in IdsOf(VerifiedUsers(directory)) :: s'.data[k] == s.data[k])
      && (Wf(s) ==> Wf(s'))
  {
    var users := VerifiedUsers(directory);
    if users != [] {
      var s0 := s.(isUpdating := true);
      UsersStepFacts(s0, users, now, FetchesOf(envs), FailingOf(envs));
      forall k | k in s.data && k !in IdsOf(users)
        ensures CycleSpec(s, now, directory, envs).data[k] == s.data[k]
      {
        UsersStepOthers(s0, users, now, FetchesOf(envs), FailingOf(envs), k);
      }
    }
  }

  /** Every user listed by the directory has a record after the cycle. */
  lemma CycleCoversUsers(s: CacheState, now: int, directory: Result<seq<VerifiedUser>>, envs: nat -> UserEnv)
    requires !s.isUpdating && now - s.lastRateLimitTime >= RateLimitDelay
    ensures forall u | u in VerifiedUsers(directory) :: u.discordId in CycleSpec(s, now, directory, envs).data
  {
    CycleCompletes(s, now, directory, envs);
    var users := VerifiedUsers(directory);
    forall u | u in users ensures u.discordId in CycleSpec(s, now, directory, envs).data {
      var i :| 0 <= i < |users| && users[i] == u;
      IdsOfMember(users, i);
    }
  }

  /** A new user whose three API attempts are all answered 429, in
      development (no scraping), gets a failure record with one attempt and
      the wrapped rate-limit message, and the cycle starts the cooldown: any
      cycle in the next five minutes leaves the state as it is. */
  lemma RateLimitedUserStartsCooldown(s: CacheState, now: int, now2: int, u: VerifiedUser,
                                       env: UserEnv, envs: nat -> UserEnv,
                                       directory2: Result<seq<VerifiedUser>>, envs2: nat -> UserEnv)
    requires !s.isUpdating && now - s.lastRateLimitTime >= RateLimitDelay
    requires u.discordId !in s.data
    requires envs(0) == env && env.development
    requires forall i :: 0 <= i < MaxRetries ==> Attempts(env.respond)(i).Status429?
    requires now <= now2 < now + RateLimitDelay
    ensures var s' := CycleSpec(s, now, Ok([u]), envs);
      && u.discordId in s'.data
      && s'.data[u.discordId].fetchAttempts == 1
      && s'.data[u.discordId].lastError ==
           Some(DevelopmentPrefix + ErrorText(RateLimitError))
      && s'.data[u.discordId].scores == EmptyScores()
      && s'.lastRateLimitTime == now
      && CycleSpec(s', now2, directory2, envs2) == s'
  {
    ThreeRateLimitsFail(env.respond);
    var f := UserFetch(env.respond, env.development, env.scrape);
    var s0 := s.(isUpdating := true);
    assert [u][..0] == [];
    assert FetchesOf(envs)(0) == f && FailingOf(envs)(0) == env.dbFailing;
    assert UsersStepWith(s0, [u], now, FetchesOf(envs), FailingOf(envs)) ==
      UserStepWith(UsersStepWith(s0, [], now, FetchesOf(envs), FailingOf(envs)), u, now, FetchesOf(envs)(0), FailingOf(envs)(0));
    assert UsersStep(s0, [u], now, envs) == UserStepWith(s0, u, now, f, env.dbFailing);
    UserStepRecord(s0, u, now, f, env.dbFailing);
  }
}
