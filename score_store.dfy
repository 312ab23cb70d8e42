/** The durable score table, one row per (userId, testType), and the two
    upsert loops that write personal bests to it: updateScoresInDb
    (src/lib/updateScoresInDb.ts:15-51), which isolates each mode's failure,
    and the cache's updateDatabaseScores (src/lib/monkeytypeCache.ts:417-455),
    whose single try stops at the first failing mode. */
module ScoreStore {
  import opened Wrappers
  import opened Scores

  /** A row of the score table. */
  datatype ScoreRow = ScoreRow(userId: string, testType: string, wpm: real,
                               raw: Option<real>, accuracy: Option<real>, createdAt: int)

  /** The table, keyed by its unique (userId, testType) pair. */
  type ScoreTable = map<(string, string), ScoreRow>

  /** Every row sits under its own (userId, testType) key. */
  ghost predicate WellKeyed(t: ScoreTable) {
    forall k | k in t :: t[k].userId == k.0 && t[k].testType == k.1
  }

  /** A mode is written iff its wpm is not null (isNaN cannot hold of a real). */
  predicate Writable(e: ModeEntry) {
    e.wpm.Some?
  }

  /** The row an upsert leaves behind: on update wpm/raw/accuracy and
      createdAt are overwritten, on create the same values are inserted
      (createdAt taking its default, the current time); null raw and
      accuracy are stored as null. */
  function RowFor(userId: string, e: ModeEntry, now: int): (r: ScoreRow)
    requires Writable(e)
    ensures r.userId == userId && r.testType == e.testType && Some(r.wpm) == e.wpm
    ensures r.raw == e.raw && r.accuracy == e.accuracy && r.createdAt == now
  {
    ScoreRow(userId, e.testType, e.wpm.value, e.raw, e.accuracy, now)
  }

  /** `prisma.score.upsert` keyed by (userId, testType). */
  function Upsert(t: ScoreTable, userId: string, e: ModeEntry, now: int): (t': ScoreTable)
    requires Writable(e)
    ensures t'.Keys == t.Keys + {(userId, e.testType)}
    ensures t'[(userId, e.testType)] == RowFor(userId, e, now)
    ensures forall k | k in t && k != (userId, e.testType) :: t'[k] == t[k]
    ensures WellKeyed(t) ==> WellKeyed(t')
  {
    t[(userId, e.testType) := RowFor(userId, e, now)]
  }

  /** The upserts applied in order. */
  function ApplyWrites(t: ScoreTable, userId: string, writes: seq<ModeEntry>, now: int): ScoreTable
    requires forall i | 0 <= i < |writes| :: Writable(writes[i])
    decreases |writes|
  {
    if writes == [] then t
    else Upsert(ApplyWrites(t, userId, writes[..|writes| - 1], now), userId, writes[|writes| - 1], now)
  }

  /** The test types a list of writes touches. */
  function TypesOf(writes: seq<ModeEntry>): set<string>
    decreases |writes|
  {
    if writes == [] then {} else TypesOf(writes[..|writes| - 1]) + {writes[|writes| - 1].testType}
  }

  /** The table keys a list of writes for one user touches. */
  function KeysFor(userId: string, writes: seq<ModeEntry>): set<(string, string)>
    decreases |writes|
  {
    if writes == [] then {} else KeysFor(userId, writes[..|writes| - 1]) + {(userId, writes[|writes| - 1].testType)}
  }

  /** No test type occurs twice along the list. */
  predicate DistinctTypes(writes: seq<ModeEntry>)
    decreases |writes|
  {
    writes == [] ||
    (DistinctTypes(writes[..|writes| - 1]) && writes[|writes| - 1].testType !in TypesOf(writes[..|writes| - 1]))
  }

  lemma {:induction false} KeysForTypes(userId: string, writes: seq<ModeEntry>, k: (string, string))
    ensures k in KeysFor(userId, writes) <==> k.0 == userId && k.1 in TypesOf(writes)
    decreases |writes|
  {
    if writes != [] { KeysForTypes(userId, writes[..|writes| - 1], k); }
  }

  lemma {:induction false} TypesOfMember(writes: seq<ModeEntry>, e: ModeEntry)
    requires e in writes
    ensures e.testType in TypesOf(writes)
    decreases |writes|
  {
    if e != writes[|writes| - 1] {
      assert e in writes[..|writes| - 1];
      TypesOfMember(writes[..|writes| - 1], e);
    }
  }

  /** The upserts add exactly the keys (userId, type) of their modes. */
  lemma {:induction false} ApplyWritesKeys(t: ScoreTable, userId: string, writes: seq<ModeEntry>, now: int)
    requires forall i | 0 <= i < |writes| :: Writable(writes[i])
    ensures ApplyWrites(t, userId, writes, now).Keys == t.Keys + KeysFor(userId, writes)
    decreases |writes|
  {
    if writes != [] { ApplyWritesKeys(t, userId, writes[..|writes| - 1], now); }
  }

  /** Rows under keys that no upsert touches are unchanged. */
  lemma {:induction false} ApplyWritesFrame(t: ScoreTable, userId: string, writes: seq<ModeEntry>, now: int, k: (string, string))
    requires forall i | 0 <= i < |writes| :: Writable(writes[i])
    requires k in t && k !in KeysFor(userId, writes)
    ensures k in ApplyWrites(t, userId, writes, now) && ApplyWrites(t, userId, writes, now)[k] == t[k]
    decreases |writes|
  {
    if writes != [] { ApplyWritesFrame(t, userId, writes[..|writes| - 1], now, k); }
  }

  /** With distinct test types, each written mode's key holds that mode's row. */
  lemma {:induction false} ApplyWritesRow(t: ScoreTable, userId: string, writes: seq<ModeEntry>, now: int, e: ModeEntry)
    requires forall i | 0 <= i < |writes| :: Writable(writes[i])
    requires DistinctTypes(writes) && e in writes
    ensures (userId, e.testType) in ApplyWrites(t, userId, writes, now)
    ensures ApplyWrites(t, userId, writes, now)[(userId, e.testType)] == RowFor(userId, e, now)
    decreases |writes|
  {
    var init, last := writes[..|writes| - 1], writes[|writes| - 1];
    if e != last {
      assert e in init;
      TypesOfMember(init, e);
      ApplyWritesRow(t, userId, init, now, e);
    }
  }

  /** Upserts keep every row under its own key. */
  lemma {:induction false} ApplyWritesWellKeyed(t: ScoreTable, userId: string, writes: seq<ModeEntry>, now: int)
    requires forall i | 0 <= i < |writes| :: Writable(writes[i])
    requires WellKeyed(t)
    ensures WellKeyed(ApplyWrites(t, userId, writes, now))
    decreases |writes|
  {
    if writes != [] { ApplyWritesWellKeyed(t, userId, writes[..|writes| - 1], now); }
  }

  /** Modes written when each upsert has its own try: every writable mode
      whose upsert does not throw, in order. */
  function IsolatedWrites(entries: seq<ModeEntry>, failing: set<string>): (w: seq<ModeEntry>)
    ensures forall i | 0 <= i < |w| :: Writable(w[i]) && w[i].testType !in failing && w[i] in entries
    ensures forall e | e in entries && Writable(e) && e.testType !in failing :: e in w
    decreases |entries|
  {
    if entries == [] then []
    else
      var init, last := entries[..|entries| - 1], entries[|entries| - 1];
      IsolatedWrites(init, failing) + (if Writable(last) && last.testType !in failing then [last] else [])
  }

  /** Some writable mode of the list has an upsert that throws. */
  predicate HitsFailure(entries: seq<ModeEntry>, failing: set<string>)
    decreases |entries|
  {
    entries != [] &&
    (HitsFailure(entries[..|entries| - 1], failing) ||
     (Writable(entries[|entries| - 1]) && entries[|entries| - 1].testType in failing))
  }

  /** Modes written when one try encloses the loop: the writable modes
      before the first writable one whose upsert throws. */
  function AbortingWrites(entries: seq<ModeEntry>, failing: set<string>): (w: seq<ModeEntry>)
    ensures forall i | 0 <= i < |w| :: Writable(w[i]) && w[i].testType !in failing && w[i] in entries
    decreases |entries|
  {
    if entries == [] then []
    else
      var init, last := entries[..|entries| - 1], entries[|entries| - 1];
      AbortingWrites(init, failing) +
        (if !HitsFailure(init, failing) && Writable(last) && last.testType !in failing then [last] else [])
  }

  /** The modes the single-try loop writes are a prefix of those the
      per-mode-try loop writes, and all of them when no writable mode fails. */
  lemma {:induction false} AbortingIsPrefix(entries: seq<ModeEntry>, failing: set<string>)
    ensures var a, i := AbortingWrites(entries, failing), IsolatedWrites(entries, failing);
      |a| <= |i| && a == i[..|a|]
    ensures !HitsFailure(entries, failing) ==>
      AbortingWrites(entries, failing) == IsolatedWrites(entries, failing)
    decreases |entries|
  {
    if entries != [] {
      var init, last := entries[..|entries| - 1], entries[|entries| - 1];
      AbortingIsPrefix(init, failing);
    }
  }

  /** A selection from a list with distinct test types has distinct types. */
  lemma {:induction false} SelectionsDistinct(entries: seq<ModeEntry>, failing: set<string>)
    requires DistinctTypes(entries)
    ensures TypesOf(IsolatedWrites(entries, failing)) <= TypesOf(entries)
    ensures TypesOf(AbortingWrites(entries, failing)) <= TypesOf(entries)
    ensures DistinctTypes(IsolatedWrites(entries, failing))
    ensures DistinctTypes(AbortingWrites(entries, failing))
    decreases |entries|
  {
    if entries != [] {
      var init, last := entries[..|entries| - 1], entries[|entries| - 1];
      SelectionsDistinct(init, failing);
      var iw, aw := IsolatedWrites(entries, failing), AbortingWrites(entries, failing);
      var iw0, aw0 := IsolatedWrites(init, failing), AbortingWrites(init, failing);
      if iw != iw0 { assert iw[..|iw| - 1] == iw0; }
      if aw != aw0 { assert aw[..|aw| - 1] == aw0; }
    }
  }

  lemma ScoreMapDistinct(s: UserScore)
    ensures DistinctTypes(ScoreMap(s))
  {
    var m := ScoreMap(s);
    var e0, e1, e2 := m[0], m[1], m[2];
    assert m == [e0, e1, e2] && m[..2] == [e0, e1];
    assert [e0, e1][..1] == [e0] && [e0][..0] == [];
    assert TypesOf([e0]) == {"60"} && DistinctTypes([e0]);
    assert TypesOf([e0, e1]) == {"60", "30"} && DistinctTypes([e0, e1]);
  }

  /** The two loops differ: with every mode present and the "60" upsert
      failing, the single try writes nothing while the per-mode tries still
      write "30" and "15". */
  lemma AbortingLosesLaterModes(s: UserScore)
    requires s.wpm60.Some? && s.wpm30.Some? && s.wpm15.Some?
    ensures AbortingWrites(ScoreMap(s), {"60"}) == []
    ensures IsolatedWrites(ScoreMap(s), {"60"}) == [ScoreMap(s)[1], ScoreMap(s)[2]]
  {
    var m := ScoreMap(s);
    var e0, e1, e2 := m[0], m[1], m[2];
    assert m == [e0, e1, e2] && m[..2] == [e0, e1];
    assert [e0, e1][..1] == [e0] && [e0][..0] == [];
    assert HitsFailure([e0], {"60"});
    assert AbortingWrites([e0], {"60"}) == [];
    assert HitsFailure([e0, e1], {"60"});
    assert AbortingWrites([e0, e1], {"60"}) == [];
    assert IsolatedWrites([e0], {"60"}) == [];
    assert IsolatedWrites([e0, e1], {"60"}) == [e1];
  }

  /** With distinct test types, the upserts leave exactly the written rows
      under their keys and every other row as it was. */
  lemma WritesEffect(t: ScoreTable, userId: string, w: seq<ModeEntry>, now: int)
    requires forall i | 0 <= i < |w| :: Writable(w[i])
    requires DistinctTypes(w)
    ensures forall e | e in w :: ((userId, e.testType) in ApplyWrites(t, userId, w, now) &&
      ApplyWrites(t, userId, w, now)[(userId, e.testType)] == RowFor(userId, e, now))
    ensures forall k | k in t && !(k.0 == userId && k.1 in TypesOf(w)) ::
      k in ApplyWrites(t, userId, w, now) && ApplyWrites(t, userId, w, now)[k] == t[k]
    ensures ApplyWrites(t, userId, w, now).Keys == t.Keys + KeysFor(userId, w)
  {
    ApplyWritesKeys(t, userId, w, now);
    forall e | e in w
      ensures (userId, e.testType) in ApplyWrites(t, userId, w, now) &&
        ApplyWrites(t, userId, w, now)[(userId, e.testType)] == RowFor(userId, e, now)
    {
      ApplyWritesRow(t, userId, w, now, e);
    }
    forall k | k in t && !(k.0 == userId && k.1 in TypesOf(w))
      ensures k in ApplyWrites(t, userId, w, now) && ApplyWrites(t, userId, w, now)[k] == t[k]
    {
      KeysForTypes(userId, w, k);
      ApplyWritesFrame(t, userId, w, now, k);
    }
  }

  /** A prefix free of failures stays free when the next mode does not fail. */
  lemma NoFailureExtend(entries: seq<ModeEntry>, i: nat, failing: set<string>)
    requires i < |entries| && !HitsFailure(entries[..i], failing)
    requires !(Writable(entries[i]) && entries[i].testType in failing)
    ensures !HitsFailure(entries[..i + 1], failing)
  {
    var p := entries[..i + 1];
    assert p[..|p| - 1] == entries[..i] && p[|p| - 1] == entries[i];
  }

  /** One more mode of the per-mode-try loop. */
  lemma IsolatedStep(t: ScoreTable, userId: string, entries: seq<ModeEntry>, i: nat, failing: set<string>, now: int)
    requires i < |entries|
    ensures ApplyWrites(t, userId, IsolatedWrites(entries[..i + 1], failing), now) ==
      var before := ApplyWrites(t, userId, IsolatedWrites(entries[..i], failing), now);
      if Writable(entries[i]) && entries[i].testType !in failing then Upsert(before, userId, entries[i], now) else before
  {
    var p, w := entries[..i + 1], IsolatedWrites(entries[..i], failing);
    assert p[..|p| - 1] == entries[..i] && p[|p| - 1] == entries[i];
    if Writable(entries[i]) && entries[i].testType !in failing {
      var w' := w + [entries[i]];
      assert IsolatedWrites(p, failing) == w';
      assert w'[..|w'| - 1] == w && w'[|w'| - 1] == entries[i];
    } else {
      assert IsolatedWrites(p, failing) == w + [] == w;
    }
  }

  /** One more mode of the single-try loop, before any failure. */
  lemma AbortingStep(t: ScoreTable, userId: string, entries: seq<ModeEntry>, i: nat, failing: set<string>, now: int)
    requires i < |entries| && !HitsFailure(entries[..i], failing)
    requires !(Writable(entries[i]) && entries[i].testType in failing)
    ensures ApplyWrites(t, userId, AbortingWrites(entries[..i + 1], failing), now) ==
      var before := ApplyWrites(t, userId, AbortingWrites(entries[..i], failing), now);
      if Writable(entries[i]) then Upsert(before, userId, entries[i], now) else before
  {
    var p, w := entries[..i + 1], AbortingWrites(entries[..i], failing);
    assert p[..|p| - 1] == entries[..i] && p[|p| - 1] == entries[i];
    if Writable(entries[i]) {
      var w' := w + [entries[i]];
      assert AbortingWrites(p, failing) == w';
      assert w'[..|w'| - 1] == w && w'[|w'| - 1] == entries[i];
    } else {
      assert AbortingWrites(p, failing) == w + [] == w;
    }
  }

  /** `updateScoresInDb`: each writable mode is upserted in its own try, so a
      failing upsert (its test type in `failing`) does not stop the later
      ones. Only modes with a non-null wpm are written, each under
      (discordId, testType); every other row is unchanged. */
  method UpdateScoresInDb(table: ScoreTable, discordId: string, scores: UserScore, now: int, failing: set<string>)
    returns (t: ScoreTable)
    ensures t == ApplyWrites(table, discordId, IsolatedWrites(ScoreMap(scores), failing), now)
    ensures forall e | e in ScoreMap(scores) && Writable(e) && e.testType !in failing ::
      (discordId, e.testType) in t && t[(discordId, e.testType)] == RowFor(discordId, e, now)
    ensures forall k | k in table && !(k.0 == discordId && k.1 in TypesOf(IsolatedWrites(ScoreMap(scores), failing))) ::
      k in t && t[k] == table[k]
    ensures t.Keys == table.Keys + KeysFor(discordId, IsolatedWrites(ScoreMap(scores), failing))
  {
    var scoreMap := ScoreMap(scores);
    t := table;
    for i := 0 to |scoreMap|
      invariant t == ApplyWrites(table, discordId, IsolatedWrites(scoreMap[..i], failing), now)
    {
      var s := scoreMap[i];
      IsolatedStep(table, discordId, scoreMap, i, failing, now);
      if s.wpm.Some? {
        if s.testType !in failing {
          t := Upsert(t, discordId, s, now);
        }
      }
    }
    assert scoreMap[..|scoreMap|] == scoreMap;
    ScoreMapDistinct(scores);
    SelectionsDistinct(scoreMap, failing);
    WritesEffect(table, discordId, IsolatedWrites(scoreMap, failing), now);
  }

  /** `updateDatabaseScores`: the same upserts inside one try, so the first
      failing upsert skips every later mode. */
  method UpdateDatabaseScores(table: ScoreTable, discordId: string, scores: UserScore, now: int, failing: set<string>)
    returns (t: ScoreTable)
    ensures t == ApplyWrites(table, discordId, AbortingWrites(ScoreMap(scores), failing), now)
    ensures forall e | e in AbortingWrites(ScoreMap(scores), failing) ::
      (discordId, e.testType) in t && t[(discordId, e.testType)] == RowFor(discordId, e, now)
    ensures forall k | k in table && !(k.0 == discordId && k.1 in TypesOf(AbortingWrites(ScoreMap(scores), failing))) ::
      k in t && t[k] == table[k]
    ensures t.Keys == table.Keys + KeysFor(discordId, AbortingWrites(ScoreMap(scores), failing))
  {
    var scoreMap := ScoreMap(scores);
    t := table;
    var i := 0;
    while i < |scoreMap|
      invariant 0 <= i <= |scoreMap|
      invariant !HitsFailure(scoreMap[..i], failing)
      invariant t == ApplyWrites(table, discordId, AbortingWrites(scoreMap[..i], failing), now)
    {
      var s := scoreMap[i];
      if s.wpm.Some? {
        if s.testType in failing {
          // the upsert throws and the catch ends the whole loop
          AbortingStops(scoreMap, i, failing);
          break;
        }
        AbortingStep(table, discordId, scoreMap, i, failing, now);
        t := Upsert(t, discordId, s, now);
      } else {
        AbortingStep(table, discordId, scoreMap, i, failing, now);
      }
      NoFailureExtend(scoreMap, i, failing);
      i := i + 1;
    }
    if i == |scoreMap| {
      assert scoreMap[..i] == scoreMap;
    }
    ScoreMapDistinct(scores);
    SelectionsDistinct(scoreMap, failing);
    WritesEffect(table, discordId, AbortingWrites(scoreMap, failing), now);
  }

  /** At the first failing writable mode the single-try loop is over:
      nothing from there on is written. */
  lemma AbortingStops(entries: seq<ModeEntry>, i: nat, failing: set<string>)
    requires i < |entries| && !HitsFailure(entries[..i], failing)
    requires Writable(entries[i]) && entries[i].testType in failing
    ensures AbortingWrites(entries, failing) == AbortingWrites(entries[..i], failing)
  {
    var p := entries[..i + 1];
    assert p[..|p| - 1] == entries[..i] && p[|p| - 1] == entries[i];
    assert AbortingWrites(p, failing) == AbortingWrites(entries[..i], failing);
    assert HitsFailure(p, failing) by { assert p[i] == entries[i]; }
    AbortingRest(entries, i + 1, failing);
  }

  /** Once a prefix hits a failing mode, later modes add nothing. */
  lemma {:induction false} AbortingRest(entries: seq<ModeEntry>, n: nat, failing: set<string>)
    requires 1 <= n <= |entries| && HitsFailure(entries[..n], failing)
    ensures HitsFailure(entries, failing)
    ensures AbortingWrites(entries, failing) == AbortingWrites(entries[..n], failing)
    decreases |entries| - n
  {
    if n < |entries| {
      var m := |entries| - 1;
      assert entries[..m][..n] == entries[..n];
      AbortingRest(entries[..m], n, failing);
    } else {
      assert entries[..n] == entries;
    }
  }
}
