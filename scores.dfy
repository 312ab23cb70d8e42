/** The nine nullable personal-best fields kept per user, and their
    per-mode views (src/lib/monkeytypeCache.ts:9-19). */
module Scores {
  import opened Wrappers

  /** `UserScore`: best wpm, raw wpm and accuracy for the 15, 30 and 60
      second time modes; each field may be null. */
  datatype UserScore = UserScore(
    wpm15: Option<real>, raw15: Option<real>, acc15: Option<real>,
    wpm30: Option<real>, raw30: Option<real>, acc30: Option<real>,
    wpm60: Option<real>, raw60: Option<real>, acc60: Option<real>)

  /** One mode's triple, as `getScoreForMode` returns it. */
  datatype ModeScore = ModeScore(wpm: Option<real>, raw: Option<real>, acc: Option<real>)

  /** One element of the `scoreMap` arrays: a test type with its triple. */
  datatype ModeEntry = ModeEntry(testType: string, wpm: Option<real>, raw: Option<real>, accuracy: Option<real>)

  const NullMode := ModeScore(None, None, None)

  /** `getEmptyScores`. */
  function EmptyScores(): (s: UserScore)
    ensures forall i :: 0 <= i < |Fields(s)| ==> Fields(s)[i] == None
  {
    UserScore(None, None, None, None, None, None, None, None, None)
  }

  /** The values of a UserScore in declaration order (`Object.values`). */
  function Fields(s: UserScore): (f: seq<Option<real>>)
    ensures |f| == 9
  {
    [s.wpm15, s.raw15, s.acc15, s.wpm30, s.raw30, s.acc30, s.wpm60, s.raw60, s.acc60]
  }

  /** Assembles a UserScore from the triples of the 15, 30 and 60 second modes. */
  function FromModes(m15: ModeScore, m30: ModeScore, m60: ModeScore): UserScore {
    UserScore(m15.wpm, m15.raw, m15.acc, m30.wpm, m30.raw, m30.acc, m60.wpm, m60.raw, m60.acc)
  }

  /** The test types in the order in which both score maps list them. */
  const TestTypes: seq<string> := ["60", "30", "15"]

  /** The triple stored under a test type. */
  function ModeOf(s: UserScore, testType: string): ModeScore
    requires testType in TestTypes
  {
    if testType == "60" then ModeScore(s.wpm60, s.raw60, s.acc60)
    else if testType == "30" then ModeScore(s.wpm30, s.raw30, s.acc30)
    else ModeScore(s.wpm15, s.raw15, s.acc15)
  }

  /** The `scoreMap` array built in updateScoresInDb, updateDatabaseScores and
      the personal refresh route: modes "60", "30", "15" in that order, each
      pairing wpmN/rawN/accN with test type "N". */
  function ScoreMap(s: UserScore): (m: seq<ModeEntry>)
    ensures |m| == |TestTypes|
    ensures forall i :: 0 <= i < |m| ==>
      m[i].testType == TestTypes[i] &&
      ModeScore(m[i].wpm, m[i].raw, m[i].accuracy) == ModeOf(s, TestTypes[i])
  {
    [ ModeEntry("60", s.wpm60, s.raw60, s.acc60),
      ModeEntry("30", s.wpm30, s.raw30, s.acc30),
      ModeEntry("15", s.wpm15, s.raw15, s.acc15) ]
  }

  /** The score map loses nothing: the scores can be rebuilt from it. */
  lemma ScoreMapRoundTrip(s: UserScore)
    ensures var m := ScoreMap(s);
      FromModes(ModeScore(m[2].wpm, m[2].raw, m[2].accuracy),
                ModeScore(m[1].wpm, m[1].raw, m[1].accuracy),
                ModeScore(m[0].wpm, m[0].raw, m[0].accuracy)) == s
  {
  }

  /** `Object.values(scores).some(score => score !== null)`. */
  predicate HasScores(s: UserScore) {
    exists i | 0 <= i < |Fields(s)| :: Fields(s)[i].Some?
  }

  /** No empty record has scores; a record with a non-null wpm in any mode has. */
  lemma HasScoresFacts(s: UserScore)
    ensures !HasScores(EmptyScores())
    ensures (exists e | e in ScoreMap(s) :: e.wpm.Some?) ==> HasScores(s)
  {
    if exists e | e in ScoreMap(s) :: e.wpm.Some? {
      if s.wpm60.Some? { assert Fields(s)[6].Some?; }
      else if s.wpm30.Some? { assert Fields(s)[3].Some?; }
      else { assert Fields(s)[0].Some?; }
    }
  }
}
