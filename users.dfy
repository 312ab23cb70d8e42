/** The user table the API routes read and write, the signed-in session,
    and the shapes of request bodies. The table is a map from Discord id to
    the `User` row; `prisma.user.update` on a missing id throws. */
module Users {
  import opened Wrappers

  /** A row of the user table, with the columns the routes touch. Every
      text column is nullable. */
  datatype UserRecord = UserRecord(
    discordId: string,
    username: Option<string>,
    displayname: Option<string>,
    avatarUrl: Option<string>,
    collegeEmail: Option<string>,
    collegeCode: Option<string>,
    collegeVerified: bool,
    mtUrl: Option<string>,
    mtVerified: bool,
    linkedinUrl: Option<string>,
    instagramUrl: Option<string>,
    XUrl: Option<string>,
    githubUrl: Option<string>)

  type UserTable = map<string, UserRecord>

  /** A verified Monkeytype link names an account. */
  predicate LinkConsistent(r: UserRecord) {
    r.mtVerified ==> r.mtUrl.Some? && r.mtUrl.value != ""
  }

  /** `getServerSession`: no session, or the Discord id of the signed-in user. */
  type Session = Option<string>

  /** One property of a parsed JSON request body: absent (`undefined`),
      `null`, a string, or any other value (number, boolean, object). */
  datatype JsonValue = Undefined | Null | Str(s: string) | Other

  /** A reply whose body is a single `message` or `error` text. */
  datatype Reply = Reply(status: int, text: string)

  const UnauthorizedText := "Unauthorized"
  const Unauthorized := Reply(401, UnauthorizedText)

  /** Strict `a !== b` between a stored nullable column (`undefined` when
      the row itself is missing) and a body property. A stored column is
      never `Other`, and an `Other` body value never equals a string or null. */
  predicate StrictEquals(stored: JsonValue, submitted: JsonValue) {
    !submitted.Other? && stored == submitted
  }

  /** The JSON value of a nullable string column. */
  function ColumnValue(c: Option<string>): (v: JsonValue)
    ensures c.None? <==> v == Null
    ensures forall s :: c == Some(s) <==> v == Str(s)
  {
    match c
    case None => Null
    case Some(s) => Str(s)
  }
}
