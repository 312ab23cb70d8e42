/** The profile API of the third-party typing site as the cache sees it:
    the shape of its responses, the extraction of personal bests, the
    retrying fetch and the development/production fallback
    (src/lib/monkeytypeCache.ts:254-364). Network calls are replaced by an
    oracle giving the response of each attempt. */
module ProfileApi {
  import opened Wrappers
  import opened Text
  import opened Scores

  /** The first element of a `personalBests[mode][duration]` array; `null`
      fields and missing fields are both `None`. */
  datatype PbEntry = PbEntry(wpm: Option<real>, raw: Option<real>, acc: Option<real>)

  /** The value found at `modeData[duration]`: an array (whose elements may
      be null) or something that is not an array. */
  datatype DurationSlot = NotArray | Entries(items: seq<Option<PbEntry>>)

  type ModeData = map<nat, DurationSlot>
  type PersonalBests = map<string, ModeData>

  /** `data.details`, as far as the bio check reads it. */
  datatype Details = Details(bio: Option<string>)

  /** The `data` object of a profile response. */
  datatype ProfileData = ProfileData(personalBests: Option<PersonalBests>, details: Option<Details>)

  /** A thrown JavaScript error: its `name` (`"Error"` for `new Error(...)`,
      `"TypeError"` for a failed fetch, `"TimeoutError"` for the 8 s abort,
      `"SyntaxError"` for a body that does not parse) and its `message`. */
  datatype JsError = JsError(name: string, message: string)

  /** `new Error(message)`. */
  function PlainError(message: string): JsError {
    JsError("Error", message)
  }

  /** `Error.prototype.toString`, which a template literal such as
      `${apiError}` applies: the name alone when the message is empty, the
      message alone when the name is empty, otherwise `name: message`. */
  function ErrorText(e: JsError): (t: string)
    ensures e.name == "" ==> t == e.message
    ensures e.name != "" && e.message == "" ==> t == e.name
    ensures e.name != "" && e.message != "" ==> t == e.name + ": " + e.message
  {
    if e.name == "" then e.message
    else if e.message == "" then e.name
    else e.name + ": " + e.message
  }

  /** What `response.json()` yields: a parsed body, or the error it throws. */
  datatype Json = Parsed(data: Option<ProfileData>) | Unparsable(error: JsError)

  /** One call of `fetch`: a response, or a thrown error (network failure,
      the 8 s abort). */
  datatype ApiResponse =
    | Http(status: int, statusText: string, json: Json)
    | Thrown(error: JsError)

  /** `response.ok`. */
  predicate IsOk(status: int) {
    200 <= status <= 299
  }

  /** `x || null` on a number: missing values and 0 become null. */
  function OrNull(x: Option<real>): (r: Option<real>)
    ensures r.Some? <==> x.Some? && x.value != 0.0
    ensures r.Some? ==> r == x
  {
    if x.Some? && x.value != 0.0 then x else None
  }

  /** `personalBests[mode][duration][0]` when each step exists and the slot is an array. */
  function FirstEntry(bests: PersonalBests, mode: string, duration: nat): Option<PbEntry> {
    if mode !in bests || duration !in bests[mode] then None
    else match bests[mode][duration]
      case NotArray => None
      case Entries(items) => if |items| == 0 then None else items[0]
  }

  /** `getScoreForMode`: a missing mode, duration or first entry gives the
      all-null triple; otherwise each falsy field (missing or 0) is null. */
  function GetScoreForMode(bests: PersonalBests, mode: string, duration: nat): (t: ModeScore)
    ensures FirstEntry(bests, mode, duration).None? ==> t == NullMode
    ensures FirstEntry(bests, mode, duration).Some? ==>
      var e := FirstEntry(bests, mode, duration).value;
      t == ModeScore(OrNull(e.wpm), OrNull(e.raw), OrNull(e.acc))
    ensures t.wpm != Some(0.0) && t.raw != Some(0.0) && t.acc != Some(0.0)
  {
    match FirstEntry(bests, mode, duration)
    case None => NullMode
    case Some(e) => ModeScore(OrNull(e.wpm), OrNull(e.raw), OrNull(e.acc))
  }

  /** The nine fields read from `personalBests.time`. */
  function ScoresFromBests(bests: PersonalBests): (s: UserScore)
    ensures ModeOf(s, "15") == GetScoreForMode(bests, "time", 15)
    ensures ModeOf(s, "30") == GetScoreForMode(bests, "time", 30)
    ensures ModeOf(s, "60") == GetScoreForMode(bests, "time", 60)
    ensures forall i :: 0 <= i < |Fields(s)| ==> Fields(s)[i] != Some(0.0)
  {
    FromModes(GetScoreForMode(bests, "time", 15),
              GetScoreForMode(bests, "time", 30),
              GetScoreForMode(bests, "time", 60))
  }

  const MaxRetries: nat := 3
  const RateLimitedMessage := "Rate limited after 3 attempts"
  const NoPersonalBestsMessage := "No personal bests data found in API response"
  /** What the development path prepends to the API's error. */
  const DevelopmentPrefix := DevelopmentHead + DevelopmentTail
  const DevelopmentHead := "API failed and scraping disabled "
  const DevelopmentTail := "in development: "
  const UnreachableMessage := "Failed to fetch data after 3 attempts"

  /** What one attempt of the retry loop amounts to: a 429, the error the
      attempt threw, or the extracted scores. */
  datatype Attempt = Status429 | Failed(error: JsError) | Fetched(scores: UserScore)

  /** The error thrown after the third 429. */
  const RateLimitError := PlainError(RateLimitedMessage)

  /** One pass through the body of the loop in `fetchScoresViaAPI`, before
      any retry decision: 429, a thrown error (including a non-ok status, a
      body that does not parse and a body without `data.personalBests`), or
      the extracted scores. */
  function ClassifyAttempt(r: ApiResponse): (a: Attempt)
    ensures a.Status429? <==> r.Http? && r.status == 429
    ensures a.Fetched? <==>
      (r.Http? && IsOk(r.status) && r.json.Parsed? &&
       r.json.data.Some? && r.json.data.value.personalBests.Some?)
    ensures a.Fetched? ==> a.scores == ScoresFromBests(r.json.data.value.personalBests.value)
    ensures r.Thrown? ==> a == Failed(r.error)
    ensures r.Http? && r.status != 429 && !IsOk(r.status) ==>
      a == Failed(PlainError("Monkeytype API error: " + IntToString(r.status) + " " + r.statusText))
    ensures r.Http? && IsOk(r.status) && r.json.Unparsable? ==> a == Failed(r.json.error)
    ensures r.Http? && IsOk(r.status) && r.json.Parsed? && !a.Fetched? ==>
      a == Failed(PlainError(NoPersonalBestsMessage))
  {
    match r
    case Thrown(e) => Failed(e)
    case Http(status, text, json) =>
      if status == 429 then Status429
      else if !IsOk(status) then Failed(PlainError("Monkeytype API error: " + IntToString(status) + " " + text))
      else match json
        case Unparsable(e) => Failed(e)
        case Parsed(data) =>
          if data.None? || data.value.personalBests.None? then Failed(PlainError(NoPersonalBestsMessage))
          else Fetched(ScoresFromBests(data.value.personalBests.value))
  }

  function Pow2(k: nat): (p: nat)
    ensures p >= 1
  {
    if k == 0 then 1 else 2 * Pow2(k - 1)
  }

  /** The pause before the retry that follows attempt k (k = 0, 1): the
      429 branch waits 2^k s, the error branch increments first and waits
      2^(k+1) s. */
  function BackoffAfter(a: Attempt, k: nat): nat {
    if a.Status429? then Pow2(k) * 1000 else Pow2(k + 1) * 1000
  }

  /** The result of the whole retry loop. `attempts` counts the calls made,
      `waits` the pauses taken (in ms), and `rateLimited` says whether
      `lastRateLimitTime` was set. A rejection carries the thrown error as
      `String(error)` renders it, the only form in which `fetchUserScores`
      uses it. */
  datatype ApiOutcome = ApiOutcome(result: Result<UserScore>, attempts: nat, waits: seq<nat>, rateLimited: bool)

  /** Reference definition of the retry loop from attempt k on, given what
      each attempt amounts to and the pauses taken so far. */
  function ApiFrom(attempt: nat -> Attempt, k: nat, waits: seq<nat>): (o: ApiOutcome)
    requires k < MaxRetries
    ensures k < o.attempts <= MaxRetries
    ensures |o.waits| == |waits| + o.attempts - 1 - k
    decreases MaxRetries - k
  {
    match attempt(k)
    case Fetched(s) => ApiOutcome(Ok(s), k + 1, waits, false)
    case Status429 =>
      if k == MaxRetries - 1 then ApiOutcome(Err(ErrorText(RateLimitError)), k + 1, waits, true)
      else ApiFrom(attempt, k + 1, waits + [Pow2(k) * 1000])
    case Failed(e) =>
      if k == MaxRetries - 1 then ApiOutcome(Err(ErrorText(e)), k + 1, waits, false)
      else ApiFrom(attempt, k + 1, waits + [Pow2(k + 1) * 1000])
  }

  /** The loop stops at the first attempt that fetched, or after the third:
      every earlier attempt failed, the result is the last attempt's scores
      when it fetched, an error only after three attempts, and the rate limit
      is recorded exactly when the third attempt was a 429. The error is the
      third attempt's own: the rate-limit error after a 429, otherwise what
      that attempt threw. */
  lemma {:induction false} ApiFromResult(attempt: nat -> Attempt, k: nat, waits: seq<nat>)
    requires k < MaxRetries
    ensures var o := ApiFrom(attempt, k, waits);
      && (forall i :: k <= i < o.attempts - 1 ==> !attempt(i).Fetched?)
      && (o.result.Ok? <==> attempt(o.attempts - 1).Fetched?)
      && (o.result.Ok? ==> o.result.value == attempt(o.attempts - 1).scores)
      && (o.result.Err? ==> o.attempts == MaxRetries)
      && (o.rateLimited <==> o.attempts == MaxRetries && attempt(MaxRetries - 1).Status429?)
      && (o.result.Err? && attempt(MaxRetries - 1).Status429? ==> o.result.error == ErrorText(RateLimitError))
      && (o.result.Err? && attempt(MaxRetries - 1).Failed? ==>
            o.result.error == ErrorText(attempt(MaxRetries - 1).error))
    decreases MaxRetries - k
  {
    match attempt(k)
    case Fetched(s) =>
    case Status429 =>
      if k < MaxRetries - 1 { ApiFromResult(attempt, k + 1, waits + [Pow2(k) * 1000]); }
    case Failed(e) =>
      if k < MaxRetries - 1 { ApiFromResult(attempt, k + 1, waits + [Pow2(k + 1) * 1000]); }
  }

  /** Each pause taken after attempt i is BackoffAfter of that attempt. */
  lemma {:induction false} ApiFromWaits(attempt: nat -> Attempt, k: nat, waits: seq<nat>)
    requires k < MaxRetries
    ensures var o := ApiFrom(attempt, k, waits);
      && o.waits[..|waits|] == waits
      && forall i :: k <= i < o.attempts - 1 ==> o.waits[|waits| + i - k] == BackoffAfter(attempt(i), i)
    decreases MaxRetries - k
  {
    if k < MaxRetries - 1 && !attempt(k).Fetched? {
      var w := waits + [BackoffAfter(attempt(k), k)];
      assert ApiFrom(attempt, k, waits) == ApiFrom(attempt, k + 1, w);
      ApiFromWaits(attempt, k + 1, w);
      var o := ApiFrom(attempt, k + 1, w);
      assert o.waits[..|waits|] == o.waits[..|w|][..|waits|];
      assert o.waits[|waits|] == w[|waits|];
    }
  }

  /** The attempts of a sequence of responses. */
  function Attempts(respond: nat -> ApiResponse): nat -> Attempt {
    (k: nat) => ClassifyAttempt(respond(k))
  }

  /** `fetchScoresViaAPI` as a function of the attempt responses. */
  function ApiFetch(respond: nat -> ApiResponse): (o: ApiOutcome)
    ensures 1 <= o.attempts <= MaxRetries && |o.waits| == o.attempts - 1
  {
    ApiFrom(Attempts(respond), 0, [])
  }

  /** The pauses after a 429 on the first and second attempt are 1 s and 2 s;
      after another error they are 2 s and 4 s. */
  lemma BackoffValues(a: Attempt)
    ensures a.Status429? ==> BackoffAfter(a, 0) == 1000 && BackoffAfter(a, 1) == 2000
    ensures !a.Status429? ==> BackoffAfter(a, 0) == 2000 && BackoffAfter(a, 1) == 4000
  {
    assert Pow2(2) == 4;
  }

  /** Three 429 responses in a row end in the rate-limit error. */
  lemma ThreeRateLimitsFail(respond: nat -> ApiResponse)
    requires forall i :: 0 <= i < MaxRetries ==> Attempts(respond)(i).Status429?
    ensures ApiFetch(respond) == ApiOutcome(Err(ErrorText(RateLimitError)), 3, [1000, 2000], true)
  {
    assert Pow2(1) == 2;
  }

  /** The retrying loop of `fetchScoresViaAPI`. */
  method FetchScoresViaApi(respond: nat -> ApiResponse) returns (o: ApiOutcome)
    ensures o == ApiFetch(respond)
  {
    var retryCount: nat := 0;
    var waits: seq<nat> := [];
    while retryCount < MaxRetries
      invariant retryCount < MaxRetries
      invariant ApiFrom(Attempts(respond), retryCount, waits) == ApiFrom(Attempts(respond), 0, [])
      decreases MaxRetries - retryCount
    {
      var attempt := ClassifyAttempt(respond(retryCount));
      assert attempt == Attempts(respond)(retryCount);
      match attempt {
        case Status429 =>
          var waitTime := Pow2(retryCount) * 1000;
          if retryCount == MaxRetries - 1 {
            return ApiOutcome(Err(ErrorText(RateLimitError)), retryCount + 1, waits, true);
          }
          waits := waits + [waitTime];
          retryCount := retryCount + 1;
        case Failed(e) =>
          if retryCount == MaxRetries - 1 {
            return ApiOutcome(Err(ErrorText(e)), retryCount + 1, waits, false);
          }
          retryCount := retryCount + 1;
          waits := waits + [Pow2(retryCount) * 1000];
        case Fetched(s) =>
          return ApiOutcome(Ok(s), retryCount + 1, waits, false);
      }
    }
    // The invariant shows this point is never reached (source line 363).
    o := ApiOutcome(Err(ErrorText(PlainError(UnreachableMessage))), retryCount, waits, false);
  }

  /** What the cache learns from one user's fetch: the scores or the error
      message, and whether the API path set `lastRateLimitTime`. */
  datatype FetchResult = FetchResult(result: Result<UserScore>, rateLimited: bool)

  /** `fetchUserScores`: the API first; on failure, in development an error
      that wraps the API error, otherwise the scraping oracle's outcome. */
  function UserFetch(respond: nat -> ApiResponse, development: bool, scrape: Result<UserScore>): (f: FetchResult)
    ensures f.rateLimited == ApiFetch(respond).rateLimited
    ensures ApiFetch(respond).result.Ok? ==> f.result == ApiFetch(respond).result
    ensures ApiFetch(respond).result.Err? && !development ==> f.result == scrape
    ensures ApiFetch(respond).result.Err? && development ==>
      f.result == Err(DevelopmentPrefix + ApiFetch(respond).result.error)
  {
    var api := ApiFetch(respond);
    if api.result.Ok? then FetchResult(api.result, api.rateLimited)
    else if development then
      FetchResult(Err(DevelopmentPrefix + api.result.error), api.rateLimited)
    else FetchResult(scrape, api.rateLimited)
  }

  /** `fetchUserScores` as the cache calls it. */
  method FetchUserScores(respond: nat -> ApiResponse, development: bool, scrape: Result<UserScore>)
    returns (f: FetchResult)
    ensures f == UserFetch(respond, development, scrape)
  {
    var api := FetchScoresViaApi(respond);
    if api.result.Ok? {
      return FetchResult(api.result, api.rateLimited);
    }
    if development {
      return FetchResult(Err(DevelopmentPrefix + api.result.error), api.rateLimited);
    }
    return FetchResult(scrape, api.rateLimited);
  }

  /** The exhausted-429 message does not contain "429", so the batch-level
      test `message.includes('429')` cannot see it. */
  lemma RateLimitMessageLacks429()
    ensures !Contains(RateLimitedMessage, "429")
  {
    assert '4' !in RateLimitedMessage;
    NoCharNoContains(RateLimitedMessage, "429", '4');
  }

  /** The text the development path puts before the rendered error. */
  lemma DevelopmentPrefixText()
    ensures DevelopmentPrefix == "API failed and scraping disabled in development: "
  {
  }

  lemma PrefixWithoutFour()
    ensures '4' !in DevelopmentPrefix
  {
    assert '4' !in DevelopmentHead;
    assert '4' !in DevelopmentTail;
    NoCharInConcat(DevelopmentHead, DevelopmentTail, '4');
  }

  /** The rate-limit error renders as `Error: Rate limited after 3 attempts`. */
  lemma RateLimitErrorText()
    ensures ErrorText(RateLimitError) == "Error: " + RateLimitedMessage
    ensures '4' !in ErrorText(RateLimitError)
  {
    assert '4' !in "Error: ";
    assert '4' !in RateLimitedMessage;
    NoCharInConcat("Error: ", RateLimitedMessage, '4');
  }

  /** Nor does the development wrapping of it. */
  lemma WrappedRateLimitMessageLacks429()
    ensures !Contains(DevelopmentPrefix + ErrorText(RateLimitError), "429")
  {
    PrefixWithoutFour();
    RateLimitErrorText();
    NoCharInConcat(DevelopmentPrefix, ErrorText(RateLimitError), '4');
    NoCharNoContains(DevelopmentPrefix + ErrorText(RateLimitError), "429", '4');
  }

  /** In development, a fetch that keeps failing with a network error leaves
      the error's own name in the wrapped text: `${apiError}` renders the
      rethrown `TypeError` of the third attempt. */
  lemma DevelopmentKeepsErrorName(respond: nat -> ApiResponse, scrape: Result<UserScore>)
    requires forall k :: respond(k) == Thrown(JsError("TypeError", "fetch failed"))
    ensures UserFetch(respond, true, scrape).result ==
      Err(DevelopmentPrefix + "TypeError: fetch failed")
  {
    var e := JsError("TypeError", "fetch failed");
    assert ErrorText(e) == "TypeError: fetch failed";
    var a := Attempts(respond);
    assert a(2) == Failed(e);
    ApiFromResult(a, 0, []);
  }
}
