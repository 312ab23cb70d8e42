/** The cache manager object (src/lib/monkeytypeCache.ts:36-470): its
    fields, its read-only queries and the methods of a refresh cycle. Each
    method is proved to leave the fields equal to the corresponding
    CacheModel function of the previous fields. */
module CacheManager {
  import opened Wrappers
  import opened Text
  import opened Scores
  import opened ScoreStore
  import opened ProfileApi
  import opened CacheModel

  /** A settled `updateUserData` promise. */
  datatype Settled = Fulfilled | Rejected(reason: string)

  /** The batch-level test: a rejection whose message includes "429". */
  predicate RateLimitedRejection(r: Settled) {
    r.Rejected? && Contains(r.reason, "429")
  }

  /** `batchResults.some(...)` of that test. */
  predicate HasRateLimit(rs: seq<Settled>) {
    exists k | 0 <= k < |rs| :: RateLimitedRejection(rs[k])
  }

  /** All fulfilled. */
  predicate AllFulfilled(rs: seq<Settled>) {
    forall k | 0 <= k < |rs| :: rs[k] == Fulfilled
  }

  lemma FulfilledSnoc(rs: seq<Settled>, r: Settled)
    requires AllFulfilled(rs) && r == Fulfilled
    ensures AllFulfilled(rs + [r]) && |rs + [r]| == |rs| + 1
  {
  }

  /** A batch whose updates all fulfilled has no rate-limited rejection. */
  lemma FulfilledNoRateLimit(rs: seq<Settled>)
    requires AllFulfilled(rs)
    ensures !HasRateLimit(rs)
  {
  }

  class MonkeytypeCacheManager {
    var data: map<string, CachedUserData>
    var order: seq<string>
    var lastGlobalUpdate: int
    var isUpdating: bool
    var lastRateLimitTime: int
    var db: ScoreTable

    /** The fields as a value. */
    function State(): CacheState
      reads this
    {
      CacheState(data, order, lastGlobalUpdate, isUpdating, lastRateLimitTime, db)
    }

    ghost predicate Valid()
      reads this
    {
      Wf(State())
    }

    /** A new manager over an existing score table (the timers it starts
        are not modelled). */
    constructor (initialDb: ScoreTable)
      requires WellKeyed(initialDb)
      ensures Valid() && State() == Initial(initialDb)
    {
      data := map[];
      order := [];
      lastGlobalUpdate := 0;
      isUpdating := false;
      lastRateLimitTime := 0;
      db := initialDb;
    }

    /** `getCachedData`: every record once, in insertion order. */
    function GetCachedData(): (r: seq<CachedUserData>)
      reads this
      requires Valid()
      ensures |r| == |order| == |data|
      ensures forall i | 0 <= i < |r| :: r[i] == data[order[i]]
      ensures forall k | k in data :: data[k] in r
    {
      CachedDataFacts(State());
      CachedData(State())
    }

    /** `getCachedUserData`: the record stored under the id, or null. */
    function GetCachedUserData(discordId: string): (r: Option<CachedUserData>)
      reads this
      requires Valid()
      ensures r.Some? <==> discordId in data
      ensures r.Some? ==> r.value == data[discordId] && r.value.discordId == discordId
    {
      Lookup(State(), discordId)
    }

    /** `getCacheStats` at time `now`. */
    function GetCacheStats(now: int): (r: CacheStats)
      reads this
      requires Valid()
      ensures r.userCount == |data| && r.freshDataCount == |FreshKeys(State(), now)|
      ensures r.staleDataCount == r.userCount - r.freshDataCount >= 0
      ensures r.cacheAge == now - lastGlobalUpdate && r.isUpdating == isUpdating
      ensures r.nextUpdateIn == (if r.cacheAge >= CacheDuration then 0 else CacheDuration - r.cacheAge)
    {
      StatsFacts(State(), now);
      StatsOf(State(), now)
    }

    /** `updateUserData`: never rejects; writes at most the user's own
        entry, the cooldown time and the user's score rows (what that
        means is proved about UserStep in CacheModel). */
    method UpdateUserData(user: VerifiedUser, now: int, env: UserEnv) returns (outcome: Settled)
      modifies this
      ensures State() == UserStep(old(State()), user, now, env)
      ensures outcome == Fulfilled
    {
      var existing := Lookup(State(), user.discordId);
      if existing.Some? && existing.value.fetchAttempts >= MaxFetchAttempts &&
         now - existing.value.lastFetched < RetryWindow {
        return Fulfilled;
      }
      var f := FetchUserScores(env.respond, env.development, env.scrape);
      StoreFetch(user, now, f, env.dbFailing);
      outcome := Fulfilled;
    }

    /** `cache.data.set(record.discordId, record)`. */
    method SetRecord(record: CachedUserData)
      modifies this
      ensures State() == SetEntry(old(State()), record)
    {
      if record.discordId !in data {
        order := order + [record.discordId];
      }
      data := data[record.discordId := record];
    }

    /** The part of `updateUserData` after the fetch: the cooldown time when
        the API path was rate limited, then the success record and the
        score upserts, or the failure record. */
    method StoreFetch(user: VerifiedUser, now: int, f: FetchResult, dbFailing: set<string>)
      requires !SkipUser(Lookup(State(), user.discordId), now)
      modifies this
      ensures State() == UserStepWith(old(State()), user, now, f, dbFailing)
    {
      var existing := Lookup(State(), user.discordId);
      if f.rateLimited {
        lastRateLimitTime := now;
      }
      match f.result {
        case Ok(scores) =>
          SetRecord(SuccessRecord(user, scores, now));
          db := UpdateDatabaseScores(db, user.discordId, scores, now, dbFailing);
        case Err(message) =>
          SetRecord(FailureRecord(user, existing, message, now));
      }
    }

    /** One batch of `processUsersInBatches`: `Promise.allSettled` over the
        users users[start..end], run one after the other. */
    method ProcessBatch(ghost s0: CacheState, users: seq<VerifiedUser>, start: nat, end: nat, now: int, envs: nat -> UserEnv)
      returns (batchResults: seq<Settled>)
      requires start <= end <= |users|
      requires State() == UsersStep(s0, users[..start], now, envs)
      modifies this
      ensures State() == UsersStep(s0, users[..end], now, envs)
      ensures |batchResults| == end - start && AllFulfilled(batchResults)
    {
      batchResults := [];
      var j := start;
      while j < end
        invariant start <= j <= end
        invariant |batchResults| == j - start && AllFulfilled(batchResults)
        invariant State() == UsersStep(s0, users[..j], now, envs)
      {
        var r := ProcessNext(s0, users, j, now, envs);
        FulfilledSnoc(batchResults, r);
        batchResults := batchResults + [r];
        j := j + 1;
      }
    }

    /** The next user of a batch: one `updateUserData` call. */
    method ProcessNext(ghost s0: CacheState, users: seq<VerifiedUser>, j: nat, now: int, envs: nat -> UserEnv)
      returns (r: Settled)
      requires j < |users|
      requires State() == UsersStep(s0, users[..j], now, envs)
      modifies this
      ensures State() == UsersStep(s0, users[..j + 1], now, envs)
      ensures r == Fulfilled
    {
      UsersStepSnoc(s0, users, j, now, envs);
      r := UpdateUserData(users[j], now, envs(j));
    }

    /** `processUsersInBatches`: the users in order, `batchSize` at a time;
        a batch with a rate-limited rejection would set the cooldown and
        stop, but no user update rejects, so every user is processed and
        every result is fulfilled. */
    method ProcessUsersInBatches(users: seq<VerifiedUser>, batchSize: nat, now: int, envs: nat -> UserEnv)
      returns (results: seq<Settled>, ghost batches: seq<seq<VerifiedUser>>)
      requires batchSize >= 1
      modifies this
      ensures |results| == |users| && AllFulfilled(results)
      ensures Concat(batches) == users
      ensures forall b | b in batches :: 1 <= |b| <= batchSize
      ensures State() == UsersStep(old(State()), users, now, envs)
    {
      ghost var s0 := State();
      PrefixSplit(users, 0, 0);
      results := [];
      batches := [];
      var i := 0;
      while i < |users|
        invariant 0 <= i <= |users|
        invariant |results| == i && AllFulfilled(results)
        invariant Concat(batches) == users[..i]
        invariant forall b | b in batches :: 1 <= |b| <= batchSize
        invariant State() == UsersStep(s0, users[..i], now, envs)
        decreases |users| - i
      {
        var end := if i + batchSize < |users| then i + batchSize else |users|;
        var batchResults := ProcessBatch(s0, users, i, end, now, envs);
        results := results + batchResults;
        PrefixSplit(users, i, end);
        batches := batches + [users[i..end]];
        FulfilledNoRateLimit(batchResults);
        var hasRateLimit := HasRateLimit(batchResults);
        lastRateLimitTime := if hasRateLimit then now else lastRateLimitTime;
        if hasRateLimit {
          break;
        }
        i := end;
      }
    }

    /** `updateCache`: the whole refresh cycle. */
    method UpdateCache(now: int, directory: Result<seq<VerifiedUser>>, envs: nat -> UserEnv)
      requires Valid()
      modifies this
      ensures Valid()
      ensures State() == CycleSpec(old(State()), now, directory, envs)
    {
      if isUpdating {
        return;
      }
      if now - lastRateLimitTime < RateLimitDelay {
        return;
      }
      isUpdating := true;
      var users := VerifiedUsers(directory);
      if |users| == 0 {
        lastGlobalUpdate := now;
        isUpdating := false;
        return;
      }
      var results, batches := ProcessUsersInBatches(users, 1, now, envs);
      lastGlobalUpdate := now;
      isUpdating := false;
      CycleCompletes(old(State()), now, directory, envs);
    }

    /** `forceUpdate`: takes no user argument and runs a full cycle. */
    method ForceUpdate(now: int, directory: Result<seq<VerifiedUser>>, envs: nat -> UserEnv)
      requires Valid()
      modifies this
      ensures Valid()
      ensures State() == CycleSpec(old(State()), now, directory, envs)
    {
      UpdateCache(now, directory, envs);
    }
  }
}
