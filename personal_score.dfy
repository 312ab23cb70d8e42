/** POST /api/update-personal-score
    (src/app/api/update-personal-score/route.ts): a verified user asks for
    fresh scores. A record fetched less than 30 s ago is served as it is;
    otherwise the manager's `forceUpdate` runs. It takes no user argument,
    so the whole refresh cycle runs, and the record is read back. */
module PersonalScore {
  import opened Wrappers
  import opened Scores
  import opened Users
  import opened CacheModel
  import opened CacheManager

  const FreshThreshold: int := 30 * 1000
  const NotEligibleText := "No verified Monkeytype profile found."
  const AlreadyFreshText := "Scores are already up to date"
  const UpdatedText := "Scores updated successfully"
  const RefreshFailedText := "Failed to fetch updated scores"

  datatype PersonalReply =
    | PersonalUnauthorized
    | NotEligible(error: string)
    | FromCache(message: string, lastFetched: int, scores: UserScore)
    | Refreshed(message: string, modes: seq<ModeEntry>, lastFetched: int)
    | RefreshFailed(error: string)

  /** `user && user.mtUrl && user.mtVerified`. */
  predicate Eligible(users: UserTable, id: string) {
    id in users && users[id].mtUrl.Some? && users[id].mtUrl.value != "" && users[id].mtVerified
  }

  /** The freshness gate: a record exists and is less than 30 s old. */
  predicate ServedFromCache(s: CacheState, id: string, now: int) {
    id in s.data && now - s.data[id].lastFetched < FreshThreshold
  }

  /** The reply once the refresh has run: the 60, 30 and 15 triples of the
      stored record, or 500 when there is still no record. */
  function ReplyAfterRefresh(s: CacheState, id: string): (r: PersonalReply)
    ensures r.RefreshFailed? <==> id !in s.data
    ensures r.Refreshed? ==>
      && r.modes == ScoreMap(s.data[id].scores)
      && r.lastFetched == s.data[id].lastFetched && r.message == UpdatedText
  {
    if id in s.data then Refreshed(UpdatedText, ScoreMap(s.data[id].scores), s.data[id].lastFetched)
    else RefreshFailed(RefreshFailedText)
  }

  /** The route's handler. The row is looked up by the session's id, so
      `user.discordId` is that id. */
  method UpdatePersonalScore(mgr: MonkeytypeCacheManager, users: UserTable, session: Session,
                             now: int, directory: Result<seq<VerifiedUser>>, envs: nat -> UserEnv)
    returns (reply: PersonalReply)
    requires mgr.Valid()
    modifies mgr
    ensures mgr.Valid()
    ensures session.None? ==> reply == PersonalUnauthorized && mgr.State() == old(mgr.State())
    ensures session.Some? && !Eligible(users, session.value) ==>
      reply == NotEligible(NotEligibleText) && mgr.State() == old(mgr.State())
    ensures session.Some? && Eligible(users, session.value) && ServedFromCache(old(mgr.State()), session.value, now) ==>
      var r := old(mgr.data)[session.value];
      reply == FromCache(AlreadyFreshText, r.lastFetched, r.scores) && mgr.State() == old(mgr.State())
    ensures session.Some? && Eligible(users, session.value) && !ServedFromCache(old(mgr.State()), session.value, now) ==>
      && mgr.State() == CycleSpec(old(mgr.State()), now, directory, envs)
      && reply == ReplyAfterRefresh(mgr.State(), session.value)
  {
    if session.None? {
      return PersonalUnauthorized;
    }
    var id := session.value;
    if id !in users || users[id].mtUrl.None? || users[id].mtUrl.value == "" || !users[id].mtVerified {
      return NotEligible(NotEligibleText);
    }
    var cached := mgr.GetCachedUserData(id);
    if cached.Some? && now - cached.value.lastFetched < FreshThreshold {
      return FromCache(AlreadyFreshText, cached.value.lastFetched, cached.value.scores);
    }
    mgr.ForceUpdate(now, directory, envs);
    var updated := mgr.GetCachedUserData(id);
    if updated.None? {
      return RefreshFailed(RefreshFailedText);
    }
    reply := Refreshed(UpdatedText, ScoreMap(updated.value.scores), updated.value.lastFetched);
  }

  /** The cycle may be skipped (by the re-entrancy flag or the cooldown):
      the route then answers "updated" with the record as it was, and it
      answers 500 exactly when the user had no record before and the cycle
      did not process it. */
  lemma RefreshOutcome(s: CacheState, id: string, now: int,
                       directory: Result<seq<VerifiedUser>>, envs: nat -> UserEnv)
    ensures var s' := CycleSpec(s, now, directory, envs);
      var runs := !s.isUpdating && now - s.lastRateLimitTime >= RateLimitDelay;
      && (ReplyAfterRefresh(s', id).RefreshFailed? <==>
            id !in s.data && !(runs && id in IdsOf(VerifiedUsers(directory))))
      && (!runs && id in s.data ==>
            ReplyAfterRefresh(s', id) ==
              Refreshed(UpdatedText, ScoreMap(s.data[id].scores), s.data[id].lastFetched))
  {
    CycleGuards(s, now, directory, envs);
    if !s.isUpdating && now - s.lastRateLimitTime >= RateLimitDelay {
      CycleCompletes(s, now, directory, envs);
    }
  }

  /** A record exactly 30 s old is refreshed, one 29 999 ms old is served. */
  lemma FreshnessBoundary(s: CacheState, id: string)
    requires id in s.data
    ensures !ServedFromCache(s, id, s.data[id].lastFetched + 30000)
    ensures ServedFromCache(s, id, s.data[id].lastFetched + 29999)
  {
  }
}
