/** GET /api/rank (src/app/api/rank/route.ts): the signed-in user's place
    among the "60" scores ordered by wpm, highest first. The query result is
    a parameter; IsRankedListing says what the query returns for a table. */
module Rank {
  import opened Wrappers
  import opened ScoreStore
  import opened Users

  const NoScoreText := "User has no 60s score yet."

  datatype RankReply = RankUnauthorized | NoRank(message: string) | Ranked(rank: nat)

  /** `findIndex` with equality: the first position of id, or -1. */
  function FindIndex(ids: seq<string>, id: string): (r: int)
    ensures -1 <= r < |ids|
    ensures r == -1 <==> id !in ids
    ensures r >= 0 ==> ids[r] == id && forall j | 0 <= j < r :: ids[j] != id
  {
    if |ids| == 0 then -1
    else if ids[0] == id then 0
    else
      var k := FindIndex(ids[1..], id);
      if k == -1 then -1 else k + 1
  }

  /** The `userId` column of the query result. */
  function UserIds(listing: seq<ScoreRow>): (ids: seq<string>)
    ensures |ids| == |listing|
    ensures forall i | 0 <= i < |listing| :: ids[i] == listing[i].userId
  {
    seq(|listing|, i requires 0 <= i < |listing| => listing[i].userId)
  }

  /** The route's reply for a session and the query result. */
  function GetRank(session: Session, listing: seq<ScoreRow>): (r: RankReply)
    ensures session.None? <==> r == RankUnauthorized
    ensures session.Some? ==> (r.NoRank? <==> session.value !in UserIds(listing))
    ensures r.NoRank? ==> r.message == NoScoreText
    ensures r.Ranked? ==>
      && 1 <= r.rank <= |listing|
      && listing[r.rank - 1].userId == session.value
      && forall j | 0 <= j < r.rank - 1 :: listing[j].userId != session.value
  {
    match session
    case None => RankUnauthorized
    case Some(id) =>
      var k := FindIndex(UserIds(listing), id);
      if k == -1 then NoRank(NoScoreText) else Ranked(k + 1)
  }

  /** `findMany({ where: { testType: "60" }, orderBy: { wpm: "desc" } })`:
      every "60" row of the table exactly once, wpm never increasing. The
      order among equal wpm values is the database's. */
  ghost predicate IsRankedListing(table: ScoreTable, listing: seq<ScoreRow>) {
    && (forall i, j | 0 <= i < j < |listing| :: listing[i].wpm >= listing[j].wpm)
    && (forall i, j | 0 <= i < j < |listing| :: listing[i].userId != listing[j].userId)
    && (forall i | 0 <= i < |listing| ::
          listing[i].testType == "60" && (listing[i].userId, "60") in table &&
          table[(listing[i].userId, "60")] == listing[i])
    && (forall k | k in table && k.1 == "60" :: table[k] in listing)
  }

  /** Against the table: a user is ranked exactly when it has a "60" row,
      and the entry at its rank is that row. */
  lemma RankReflectsTable(table: ScoreTable, listing: seq<ScoreRow>, id: string)
    requires WellKeyed(table) && IsRankedListing(table, listing)
    ensures GetRank(Some(id), listing).Ranked? <==> (id, "60") in table
    ensures GetRank(Some(id), listing).Ranked? ==>
      listing[GetRank(Some(id), listing).rank - 1] == table[(id, "60")]
  {
    var ids := UserIds(listing);
    if (id, "60") in table {
      var row := table[(id, "60")];
      assert row in listing;
      var i :| 0 <= i < |listing| && listing[i] == row;
      assert ids[i] == id;
    }
    if id in ids {
      var i :| 0 <= i < |ids| && ids[i] == id;
      assert listing[i].userId == id;
    }
  }

  /** Everyone ranked ahead has at least the user's wpm, and everyone with
      a strictly higher wpm is ranked ahead. */
  lemma RankOrder(table: ScoreTable, listing: seq<ScoreRow>, id: string)
    requires WellKeyed(table) && IsRankedListing(table, listing)
    requires GetRank(Some(id), listing).Ranked?
    ensures var r := GetRank(Some(id), listing).rank;
      var mine := listing[r - 1];
      && (forall j | 0 <= j < r - 1 :: listing[j].wpm >= mine.wpm)
      && (forall j | 0 <= j < |listing| && listing[j].wpm > mine.wpm :: j < r - 1)
  {
  }
}
