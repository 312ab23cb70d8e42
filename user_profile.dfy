/** GET and PATCH /api/user (src/app/api/user/route.ts): the signed-in
    user's profile as a projection of ten columns, and an update restricted
    to eight whitelisted columns. */
module UserProfile {
  import opened Wrappers
  import opened Users

  const UpdatedText := "User updated successfully"
  const UpdateFailedText := "Update failed"

  /** The `select` of the GET route: ten columns, without `collegeCode`,
      `avatarUrl` or `discordId`. */
  datatype UserView = UserView(
    collegeEmail: Option<string>,
    collegeVerified: bool,
    mtUrl: Option<string>,
    mtVerified: bool,
    displayname: Option<string>,
    username: Option<string>,
    linkedinUrl: Option<string>,
    instagramUrl: Option<string>,
    XUrl: Option<string>,
    githubUrl: Option<string>)

  function Project(r: UserRecord): UserView {
    UserView(r.collegeEmail, r.collegeVerified, r.mtUrl, r.mtVerified, r.displayname,
             r.username, r.linkedinUrl, r.instagramUrl, r.XUrl, r.githubUrl)
  }

  /** The view does not depend on the pending code, the avatar or the id:
      rows that differ only there look the same. */
  lemma ProjectionHidesCode(r: UserRecord, code: Option<string>, avatar: Option<string>, id: string)
    ensures Project(r.(collegeCode := code, avatarUrl := avatar, discordId := id)) == Project(r)
  {
  }

  /** Two rows with the same view agree on every column but those three. */
  lemma ProjectionKeepsTheRest(r1: UserRecord, r2: UserRecord)
    requires Project(r1) == Project(r2)
    ensures r1.(collegeCode := r2.collegeCode, avatarUrl := r2.avatarUrl, discordId := r2.discordId) == r2
  {
  }

  datatype GetReply = GetUnauthorized | UserJson(user: Option<UserView>)

  /** GET /api/user: `findUnique` with the select; a missing row is `null`. */
  function GetUser(users: UserTable, session: Session): (r: GetReply)
    ensures session.None? <==> r == GetUnauthorized
    ensures session.Some? ==> r.UserJson? && (r.user.Some? <==> session.value in users)
    ensures session.Some? && session.value in users ==> r.user == Some(Project(users[session.value]))
  {
    match session
    case None => GetUnauthorized
    case Some(id) => UserJson(if id in users then Some(Project(users[id])) else None)
  }

  /** The eight whitelisted properties of the PATCH body; every other
      property of the body is ignored. */
  datatype PatchBody = PatchBody(
    collegeEmail: JsonValue,
    mtUrl: JsonValue,
    displayname: JsonValue,
    username: JsonValue,
    linkedinUrl: JsonValue,
    instagramUrl: JsonValue,
    XUrl: JsonValue,
    githubUrl: JsonValue)

  /** Prisma accepts only strings, null and undefined for a text column. */
  predicate WellTyped(b: PatchBody) {
    && !b.collegeEmail.Other? && !b.mtUrl.Other? && !b.displayname.Other? && !b.username.Other?
    && !b.linkedinUrl.Other? && !b.instagramUrl.Other? && !b.XUrl.Other? && !b.githubUrl.Other?
  }

  /** One column of `data`: undefined leaves it, null clears it, a string sets it. */
  function ApplyField(current: Option<string>, v: JsonValue): (c: Option<string>)
    requires !v.Other?
    ensures v.Undefined? ==> c == current
    ensures v.Null? ==> c.None?
    ensures v.Str? ==> c == Some(v.s)
  {
    match v
    case Undefined => current
    case Null => None
    case Str(s) => Some(s)
  }

  /** The row after the update. */
  function Patched(r: UserRecord, b: PatchBody): (r': UserRecord)
    requires WellTyped(b)
    ensures r'.discordId == r.discordId && r'.avatarUrl == r.avatarUrl
    ensures r'.mtVerified == r.mtVerified && r'.collegeVerified == r.collegeVerified
    ensures r'.collegeCode == r.collegeCode
  {
    r.(collegeEmail := ApplyField(r.collegeEmail, b.collegeEmail),
       mtUrl := ApplyField(r.mtUrl, b.mtUrl),
       displayname := ApplyField(r.displayname, b.displayname),
       username := ApplyField(r.username, b.username),
       linkedinUrl := ApplyField(r.linkedinUrl, b.linkedinUrl),
       instagramUrl := ApplyField(r.instagramUrl, b.instagramUrl),
       XUrl := ApplyField(r.XUrl, b.XUrl),
       githubUrl := ApplyField(r.githubUrl, b.githubUrl))
  }

  const EmptyPatch := PatchBody(Undefined, Undefined, Undefined, Undefined, Undefined, Undefined, Undefined, Undefined)

  /** Sending the same body twice has the effect of sending it once, and
      an empty body changes nothing. */
  lemma PatchIdempotent(r: UserRecord, b: PatchBody)
    requires WellTyped(b)
    ensures Patched(Patched(r, b), b) == Patched(r, b)
    ensures Patched(r, EmptyPatch) == r
  {
  }

  /** What GET shows after a PATCH: each sent string, null for each sent
      null, the previous value where the property was absent. */
  lemma GetAfterPatch(users: UserTable, id: string, b: PatchBody)
    requires id in users && WellTyped(b)
    ensures var v := GetUser(users[id := Patched(users[id], b)], Some(id)).user.value;
      var before := Project(users[id]);
      && v.collegeVerified == before.collegeVerified && v.mtVerified == before.mtVerified
      && v.mtUrl == ApplyField(before.mtUrl, b.mtUrl)
      && v.collegeEmail == ApplyField(before.collegeEmail, b.collegeEmail)
      && v.displayname == ApplyField(before.displayname, b.displayname)
      && v.username == ApplyField(before.username, b.username)
      && v.linkedinUrl == ApplyField(before.linkedinUrl, b.linkedinUrl)
      && v.instagramUrl == ApplyField(before.instagramUrl, b.instagramUrl)
      && v.XUrl == ApplyField(before.XUrl, b.XUrl)
      && v.githubUrl == ApplyField(before.githubUrl, b.githubUrl)
  {
  }

  /** `mtUrl` is on the whitelist while `mtVerified` is not: a verified row
      can be pointed at any other account, or unlinked, and stays verified. */
  lemma VerifiedLinkRetargeted(r: UserRecord, b: PatchBody)
    requires WellTyped(b) && r.mtVerified
    ensures Patched(r, b).mtVerified
    ensures b.mtUrl.Str? ==> Patched(r, b).mtUrl == Some(b.mtUrl.s)
    ensures b.mtUrl == Null ==> !LinkConsistent(Patched(r, b))
  {
  }

  datatype PatchReply = PatchUnauthorized | Updated(message: string, user: UserRecord) | UpdateFailed(message: string)

  /** PATCH /api/user, as written: the reply carries the whole updated row. */
  method PatchUser(users: UserTable, session: Session, body: PatchBody)
    returns (reply: PatchReply, users': UserTable)
    ensures session.None? ==> reply == PatchUnauthorized && users' == users
    ensures session.Some? && (session.value !in users || !WellTyped(body)) ==>
      reply == UpdateFailed(UpdateFailedText) && users' == users
    ensures session.Some? && session.value in users && WellTyped(body) ==>
      && users' == users[session.value := Patched(users[session.value], body)]
      && reply == Updated(UpdatedText, users'[session.value])
  {
    if session.None? {
      return PatchUnauthorized, users;
    }
    var id := session.value;
    if id !in users || !WellTyped(body) {
      return UpdateFailed(UpdateFailedText), users;
    }
    var user := Patched(users[id], body);
    users' := users[id := user];
    reply := Updated(UpdatedText, user);
  }

  /** As written, a PATCH reply repeats the pending verification code that
      GET withholds: the body `{}` echoes the row, `collegeCode` included. */
  lemma PatchEchoesPendingCode(users: UserTable, id: string, code: string)
    requires id in users && users[id].collegeCode == Some(code)
    ensures var r := Patched(users[id], EmptyPatch);
      r == users[id] && r.collegeCode == Some(code)
    ensures GetUser(users, Some(id)) == UserJson(Some(Project(users[id])))
  {
  }

  datatype ViewPatchReply = ViewPatchUnauthorized | UpdatedView(message: string, user: UserView) | ViewUpdateFailed(message: string)

  /** PATCH /api/user replying with the same projection GET uses: the
      update is the same, and the reply is exactly what a following GET
      returns, so it never carries `collegeCode`. */
  method PatchUserProjected(users: UserTable, session: Session, body: PatchBody)
    returns (reply: ViewPatchReply, users': UserTable)
    ensures session.None? ==> reply == ViewPatchUnauthorized && users' == users
    ensures session.Some? && (session.value !in users || !WellTyped(body)) ==>
      reply == ViewUpdateFailed(UpdateFailedText) && users' == users
    ensures session.Some? && session.value in users && WellTyped(body) ==>
      && users' == users[session.value := Patched(users[session.value], body)]
      && reply.UpdatedView? && reply.message == UpdatedText
      && GetUser(users', session) == UserJson(Some(reply.user))
  {
    if session.None? {
      return ViewPatchUnauthorized, users;
    }
    var id := session.value;
    if id !in users || !WellTyped(body) {
      return ViewUpdateFailed(UpdateFailedText), users;
    }
    var user := Patched(users[id], body);
    users' := users[id := user];
    reply := UpdatedView(UpdatedText, Project(user));
  }

  /** With the projected reply a pending code cannot be read back: two rows
      that differ only in their code give the same reply. */
  lemma ProjectedReplyHidesCode(r: UserRecord, b: PatchBody, code: Option<string>)
    requires WellTyped(b)
    ensures Project(Patched(r.(collegeCode := code), b)) == Project(Patched(r, b))
  {
  }
}
