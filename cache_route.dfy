/** GET and POST /api/monkeytype-cache (src/app/api/monkeytype-cache/route.ts):
    a report of the manager's state for the admin page, and an admin-only
    action that triggers a refresh cycle. */
module CacheRoute {
  import opened Wrappers
  import opened Scores
  import opened Users
  import opened CacheModel
  import opened CacheManager

  const ForceUpdateAction := "force-update"
  const TriggeredText := "Cache update triggered successfully"
  const InvalidActionText := "Invalid action"

  /** One user in the report: the record without its scores, and whether
      it has any. */
  datatype UserSummary = UserSummary(
    discordId: string, mtUsername: string, lastFetched: int,
    fetchAttempts: nat, lastError: Option<string>, hasScores: bool)

  function Summarize(c: CachedUserData): (u: UserSummary)
    ensures u.hasScores <==> exists i | 0 <= i < |Fields(c.scores)| :: Fields(c.scores)[i].Some?
    ensures u.discordId == c.discordId && u.mtUsername == c.mtUsername
    ensures u.lastFetched == c.lastFetched && u.fetchAttempts == c.fetchAttempts && u.lastError == c.lastError
  {
    UserSummary(c.discordId, c.mtUsername, c.lastFetched, c.fetchAttempts, c.lastError, HasScores(c.scores))
  }

  /** Records that differ only in their scores, while both have some or
      both have none, are reported the same: the report carries no score. */
  lemma SummaryOmitsScores(c: CachedUserData, scores: UserScore)
    requires HasScores(c.scores) == HasScores(scores)
    ensures Summarize(c.(scores := scores)) == Summarize(c)
  {
  }

  /** A user whose first fetch failed is reported without scores. */
  lemma FailedNewUserHasNoScores(user: VerifiedUser, message: string, now: int)
    ensures !Summarize(FailureRecord(user, None, message, now)).hasScores
  {
    HasScoresFacts(EmptyScores());
  }

  /** `cachedData.map(...)`. */
  function Summaries(cached: seq<CachedUserData>): (us: seq<UserSummary>)
    ensures |us| == |cached|
    ensures forall i | 0 <= i < |us| :: us[i] == Summarize(cached[i])
    ensures forall c | c in cached :: Summarize(c) in us
  {
    var us := seq(|cached|, i requires 0 <= i < |cached| => Summarize(cached[i]));
    assert forall c | c in cached :: Summarize(c) in us by {
      forall c | c in cached ensures Summarize(c) in us {
        var i :| 0 <= i < |cached| && cached[i] == c;
        assert us[i] == Summarize(c);
      }
    }
    us
  }

  datatype CacheReport = CacheReport(stats: CacheStats, userCount: int, users: seq<UserSummary>)

  /** GET: the stats, the number of records, and one summary per record in
      insertion order. */
  function GetCacheReport(mgr: MonkeytypeCacheManager, now: int): (r: CacheReport)
    reads mgr
    requires mgr.Valid()
    ensures r.userCount == |mgr.data| == |r.users| == r.stats.userCount
    ensures r.stats.freshDataCount + r.stats.staleDataCount == r.userCount
    ensures r.users == Summaries(mgr.GetCachedData())
    ensures forall k | k in mgr.data :: Summarize(mgr.data[k]) in r.users
  {
    var cached := mgr.GetCachedData();
    CacheReport(mgr.GetCacheStats(now), |cached|, Summaries(cached))
  }

  /** `session.user.id === process.env.NEXT_PUBLIC_ADMIN_ID`; an unset
      variable matches nobody. */
  predicate IsAdmin(session: Session, adminId: Option<string>)
    ensures adminId.None? || session.None? ==> !IsAdmin(session, adminId)
    ensures IsAdmin(session, adminId) ==> session == adminId
  {
    session.Some? && adminId == Some(session.value)
  }

  /** POST: only the admin, and only the action "force-update", starts a
      cycle; the reply does not wait for anything the cycle reports. */
  method PostCacheAction(mgr: MonkeytypeCacheManager, session: Session, adminId: Option<string>,
                         action: JsonValue, now: int, directory: Result<seq<VerifiedUser>>,
                         envs: nat -> UserEnv)
    returns (reply: Reply)
    requires mgr.Valid()
    modifies mgr
    ensures mgr.Valid()
    ensures !IsAdmin(session, adminId) ==> reply == Unauthorized && mgr.State() == old(mgr.State())
    ensures IsAdmin(session, adminId) && action != Str(ForceUpdateAction) ==>
      reply == Reply(400, InvalidActionText) && mgr.State() == old(mgr.State())
    ensures IsAdmin(session, adminId) && action == Str(ForceUpdateAction) ==>
      reply == Reply(200, TriggeredText) && mgr.State() == CycleSpec(old(mgr.State()), now, directory, envs)
  {
    if session.None? || adminId != Some(session.value) {
      return Unauthorized;
    }
    if action == Str(ForceUpdateAction) {
      mgr.ForceUpdate(now, directory, envs);
      return Reply(200, TriggeredText);
    }
    reply := Reply(400, InvalidActionText);
  }
}
