/** POST /api/verify-monkeytype (src/app/api/verify-monkeytype/route.ts:66-152):
    a user claims a Monkeytype account by putting the tag `[VIT]` in its
    bio. The bio is read from the profile API, or, outside development,
    scraped from the profile page when the API fails. The API response and
    the scraper's result are parameters. */
module MonkeytypeVerification {
  import opened Wrappers
  import opened Text
  import opened ProfileApi
  import opened Users

  const Tag := "[VIT]"
  const UsernameRequiredText := "Username is required"
  const DevelopmentFailureText := "API verification failed and scraping disabled in development. Please try again later."
  const TagMissingText := "Verification tag '[VIT]' not found in bio."
  const MonkeytypeVerifiedText := "Monkeytype verified successfully"
  const VerificationFailedText := "Failed to verify Monkeytype profile."
  const NoUserDataMessage := "No user data found in API response"

  /** `fetchBioViaAPI`: a non-ok status, a thrown fetch, a body that does not
      parse and a body without `data` all throw; otherwise
      `data.details?.bio || null`, so a missing or empty bio is null. */
  function FetchBioViaApi(response: ApiResponse): (r: Result<Option<string>>)
    ensures r.Ok? <==>
      response.Http? && IsOk(response.status) && response.json.Parsed? && response.json.data.Some?
    ensures response.Http? && !IsOk(response.status) ==>
      r == Err("Monkeytype API error: " + IntToString(response.status) + " " + response.statusText)
    ensures r.Ok? ==>
      var d := response.json.data.value;
      && (r.value.Some? <==> d.details.Some? && d.details.value.bio.Some? && d.details.value.bio.value != "")
      && (r.value.Some? ==> r.value == d.details.value.bio)
  {
    match response
    case Thrown(e) => Err(e.message)
    case Http(status, text, json) =>
      if !IsOk(status) then Err("Monkeytype API error: " + IntToString(status) + " " + text)
      else match json
        case Unparsable(e) => Err(e.message)
        case Parsed(data) =>
          if data.None? then Err(NoUserDataMessage)
          else match data.value.details
            case None => Ok(None)
            case Some(details) =>
              if details.bio.None? || details.bio.value == "" then Ok(None) else Ok(details.bio)
  }

  /** `!bioText || !bioText.includes("[VIT]")` is false. */
  predicate BioVerifies(bio: Option<string>)
    ensures BioVerifies(bio) <==> bio.Some? && Contains(bio.value, Tag)
  {
    bio.Some? && bio.value != "" && Contains(bio.value, Tag)
  }

  /** Where the bio comes from. */
  datatype BioOutcome = DevelopmentApiFailure | BioUnavailable | Bio(text: Option<string>)

  /** The API's bio when the API succeeds; otherwise, in development, no
      fallback at all, and in production the scraper's bio or its error. */
  function ObtainBio(api: ApiResponse, development: bool, scrape: Result<Option<string>>): (o: BioOutcome)
    ensures FetchBioViaApi(api).Ok? ==> o == Bio(FetchBioViaApi(api).value)
    ensures FetchBioViaApi(api).Err? && development ==> o == DevelopmentApiFailure
    ensures FetchBioViaApi(api).Err? && !development ==> (o.Bio? <==> scrape.Ok?)
    ensures FetchBioViaApi(api).Err? && o.Bio? ==> o.text == scrape.value
  {
    match FetchBioViaApi(api)
    case Ok(bio) => Bio(bio)
    case Err(_) =>
      if development then DevelopmentApiFailure
      else if scrape.Ok? then Bio(scrape.value) else BioUnavailable
  }

  /** The route's handler. `username` is the body's property when it is a
      string (`None` for a missing or null one); a missing row makes either
      update throw into the outer catch. */
  method VerifyMonkeytype(users: UserTable, session: Session, username: Option<string>,
                          api: ApiResponse, development: bool, scrape: Result<Option<string>>)
    returns (reply: Reply, users': UserTable)
    ensures session.None? ==> reply == Unauthorized && users' == users
    ensures session.Some? && (username.None? || username.value == "") ==>
      reply == Reply(400, UsernameRequiredText) && users' == users
    ensures session.Some? && username.Some? && username.value != "" ==>
      var id := session.value;
      match ObtainBio(api, development, scrape)
      case DevelopmentApiFailure =>
        reply == Reply(500, DevelopmentFailureText) && users' == users
      case BioUnavailable =>
        reply == Reply(500, VerificationFailedText) && users' == users
      case Bio(bio) =>
        if id !in users then reply == Reply(500, VerificationFailedText) && users' == users
        else if BioVerifies(bio) then
          reply == Reply(200, MonkeytypeVerifiedText) &&
          users' == users[id := users[id].(mtUrl := username, mtVerified := true)]
        else
          reply == Reply(400, TagMissingText) &&
          users' == users[id := users[id].(mtUrl := None, mtVerified := false)]
    ensures users'.Keys == users.Keys
    ensures (forall k | k in users :: LinkConsistent(users[k])) ==>
      forall k | k in users' :: LinkConsistent(users'[k])
  {
    if session.None? {
      return Unauthorized, users;
    }
    if username.None? || username.value == "" {
      return Reply(400, UsernameRequiredText), users;
    }
    var id := session.value;
    var bioText: Option<string> := None;
    var fromApi := FetchBioViaApi(api);
    if fromApi.Ok? {
      bioText := fromApi.value;
    } else {
      if development {
        return Reply(500, DevelopmentFailureText), users;
      }
      if scrape.Err? {
        return Reply(500, VerificationFailedText), users;
      }
      bioText := scrape.value;
    }
    if id !in users {
      return Reply(500, VerificationFailedText), users;
    }
    if bioText.None? || bioText.value == "" || !Contains(bioText.value, Tag) {
      users' := users[id := users[id].(mtUrl := None, mtVerified := false)];
      return Reply(400, TagMissingText), users';
    }
    users' := users[id := users[id].(mtUrl := username, mtVerified := true)];
    reply := Reply(200, MonkeytypeVerifiedText);
  }

  /** A profile without `details` yields a null bio, which does not verify,
      whatever the environment and the scraper would say. */
  lemma ProfileWithoutDetailsRejected(api: ApiResponse, development: bool, scrape: Result<Option<string>>)
    requires api.Http? && IsOk(api.status) && api.json.Parsed? && api.json.data.Some?
    requires api.json.data.value.details.None?
    ensures ObtainBio(api, development, scrape) == Bio(None)
    ensures !BioVerifies(ObtainBio(api, development, scrape).text)
  {
  }

  /** A bio that is exactly the tag verifies. */
  lemma TagAloneVerifies()
    ensures BioVerifies(Some(Tag))
  {
    assert OccursAt(Tag, Tag, 0);
  }
}
