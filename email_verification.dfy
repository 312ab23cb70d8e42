/** College-email verification, a two-step exchange over the columns
    `collegeEmail`, `collegeCode` and `collegeVerified`:
    POST /api/verify-email stores the address and a fresh six-digit code and
    mails the code (src/app/api/verify-email/route.ts), and
    POST /api/verify-email/confirm compares a submitted code with the stored
    one (src/app/api/verify-email/confirm/route.ts). The random draw and the
    mail delivery are parameters. */
module EmailVerification {
  import opened Wrappers
  import opened Text
  import opened Users

  const CollegeDomain := "@vitstudent.ac.in"
  const WrongDomainText := "Please use your VIT student email."
  const CodeSentText := "Verification code sent"
  const InvalidCodeText := "Invalid verification code"
  const VerifiedText := "Email verified successfully"
  /** The reply the framework sends when a route handler throws. */
  const InternalErrorText := "Internal Server Error"
  const MailSubject := "Your Email Verification Code"
  const MailPrefix := "Your verification code is: "

  datatype Mail = Mail(to: string, subject: string, text: string)

  /** `Math.floor(100000 + Math.random() * 900000).toString()`, where `draw`
      stands for `Math.floor(Math.random() * 900000)`. */
  function CodeFor(draw: nat): (code: string)
    requires draw < 900000
    ensures |code| == 6 && AllDigits(code)
    ensures 100000 <= DigitsValue(code) <= 999999 && DigitsValue(code) == 100000 + draw
  {
    assert Pow10(5) == 100000 && Pow10(6) == 1000000;
    NatToStringLength(100000 + draw, 6);
    NatToStringRoundTrip(100000 + draw);
    NatToString(100000 + draw)
  }

  /** Different draws give different codes. */
  lemma CodeForInjective(d1: nat, d2: nat)
    requires d1 < 900000 && d2 < 900000 && d1 != d2
    ensures CodeFor(d1) != CodeFor(d2)
  {
  }

  /** The body of the verification mail. */
  function MailText(code: string): string {
    MailPrefix + code
  }

  /** The mail sent carries exactly the code, right after the fixed prefix. */
  lemma MailCarriesCode(code: string)
    ensures OccursAt(MailText(code), code, |MailPrefix|) && Contains(MailText(code), code)
    ensures EndsWith(MailText(code), code)
  {
    var t := MailText(code);
    assert t[|MailPrefix|..|MailPrefix| + |code|] == code;
    assert OccursAt(t, code, |MailPrefix|);
    EndsWithConcat(MailPrefix, code);
  }

  /** The row after the first step: address and code stored, nothing else touched. */
  function WithPendingCode(r: UserRecord, email: string, code: string): (r': UserRecord)
    ensures r'.collegeEmail == Some(email) && r'.collegeCode == Some(code)
    ensures r'.(collegeEmail := r.collegeEmail, collegeCode := r.collegeCode) == r
  {
    r.(collegeEmail := Some(email), collegeCode := Some(code))
  }

  /** POST /api/verify-email. A body `email` that is not a string makes
      `email.endsWith` throw; a missing row makes the update throw; a failed
      delivery throws after the row was written. */
  method RequestCode(users: UserTable, session: Session, email: JsonValue, draw: nat, delivered: bool)
    returns (reply: Reply, users': UserTable, mail: Option<Mail>)
    requires draw < 900000
    ensures session.None? ==> reply == Unauthorized && users' == users && mail.None?
    ensures session.Some? && !email.Str? ==>
      reply == Reply(500, InternalErrorText) && users' == users && mail.None?
    ensures session.Some? && email.Str? && !EndsWith(email.s, CollegeDomain) ==>
      reply == Reply(400, WrongDomainText) && users' == users && mail.None?
    ensures session.Some? && email.Str? && EndsWith(email.s, CollegeDomain) && session.value !in users ==>
      reply == Reply(500, InternalErrorText) && users' == users && mail.None?
    ensures session.Some? && email.Str? && EndsWith(email.s, CollegeDomain) && session.value in users ==>
      var id := session.value;
      && users' == users[id := WithPendingCode(users[id], email.s, CodeFor(draw))]
      && mail == Some(Mail(email.s, MailSubject, MailText(CodeFor(draw))))
      && reply == (if delivered then Reply(200, CodeSentText) else Reply(500, InternalErrorText))
  {
    if session.None? {
      return Unauthorized, users, None;
    }
    var id := session.value;
    if !email.Str? {
      return Reply(500, InternalErrorText), users, None;
    }
    if !EndsWith(email.s, CollegeDomain) {
      return Reply(400, WrongDomainText), users, None;
    }
    var code := NatToString(100000 + draw);
    if id !in users {
      return Reply(500, InternalErrorText), users, None;
    }
    users' := users[id := users[id].(collegeEmail := Some(email.s), collegeCode := Some(code))];
    mail := Some(Mail(email.s, MailSubject, MailPrefix + code));
    reply := if delivered then Reply(200, CodeSentText) else Reply(500, InternalErrorText);
  }

  /** `user?.collegeCode`: `undefined` for a missing row, else the column. */
  function StoredCode(users: UserTable, id: string): (v: JsonValue)
    ensures v == Undefined <==> id !in users
    ensures id in users ==> v == ColumnValue(users[id].collegeCode)
  {
    if id in users then ColumnValue(users[id].collegeCode) else Undefined
  }

  /** The confirm route lets the request through when
      `user?.collegeCode !== code` is false. */
  predicate CodeAccepted(users: UserTable, id: string, code: JsonValue)
    ensures id !in users ==> (CodeAccepted(users, id, code) <==> code == Undefined)
    ensures id in users && users[id].collegeCode.None? ==> (CodeAccepted(users, id, code) <==> code == Null)
    ensures id in users && users[id].collegeCode.Some? ==>
      (CodeAccepted(users, id, code) <==> code == Str(users[id].collegeCode.value))
  {
    StrictEquals(StoredCode(users, id), code)
  }

  /** The row after a successful confirmation. */
  function Confirmed(r: UserRecord): (r': UserRecord)
    ensures r'.collegeVerified && r'.collegeCode.None?
    ensures r'.(collegeVerified := r.collegeVerified, collegeCode := r.collegeCode) == r
  {
    r.(collegeVerified := true, collegeCode := None)
  }

  /** POST /api/verify-email/confirm, as written. Only `code` is read from
      the body. When both sides are `undefined` (no row, no code) the update
      on the missing row throws. */
  method ConfirmCode(users: UserTable, session: Session, code: JsonValue)
    returns (reply: Reply, users': UserTable)
    ensures session.None? ==> reply == Unauthorized && users' == users
    ensures session.Some? && !CodeAccepted(users, session.value, code) ==>
      reply == Reply(400, InvalidCodeText) && users' == users
    ensures session.Some? && CodeAccepted(users, session.value, code) && session.value !in users ==>
      reply == Reply(500, InternalErrorText) && users' == users
    ensures session.Some? && CodeAccepted(users, session.value, code) && session.value in users ==>
      reply == Reply(200, VerifiedText) && users' == users[session.value := Confirmed(users[session.value])]
  {
    if session.None? {
      return Unauthorized, users;
    }
    var id := session.value;
    var stored := if id in users then ColumnValue(users[id].collegeCode) else Undefined;
    if code.Other? || stored != code {
      return Reply(400, InvalidCodeText), users;
    }
    if id !in users {
      return Reply(500, InternalErrorText), users;
    }
    users' := users[id := users[id].(collegeVerified := true, collegeCode := None)];
    reply := Reply(200, VerifiedText);
  }

  /** The two steps compose: the code mailed by the first step is the one
      code the second step accepts. */
  lemma MailedCodeAccepted(users: UserTable, id: string, email: string, draw: nat, code: JsonValue)
    requires id in users && draw < 900000
    ensures var u := users[id := WithPendingCode(users[id], email, CodeFor(draw))];
      CodeAccepted(u, id, code) <==> code == Str(CodeFor(draw))
  {
  }

  /** A confirmed row has no code left, so no string is accepted again. */
  lemma ResubmitRejected(users: UserTable, id: string, c: string)
    requires id in users
    ensures !CodeAccepted(users[id := Confirmed(users[id])], id, Str(c))
  {
  }

  /** A second code request replaces the first: the earlier code is refused. */
  lemma NewCodeReplacesOld(users: UserTable, id: string, email: string, d1: nat, d2: nat)
    requires id in users && d1 < 900000 && d2 < 900000 && d1 != d2
    ensures var u1 := users[id := WithPendingCode(users[id], email, CodeFor(d1))];
      var u2 := u1[id := WithPendingCode(u1[id], email, CodeFor(d2))];
      !CodeAccepted(u2, id, Str(CodeFor(d1)))
  {
    CodeForInjective(d1, d2);
  }

  /** As written, a row with no pending code (one that never requested a
      code, or one already confirmed) accepts the body `{"code": null}`:
      `null !== null` is false, so the route marks the row verified without
      any code having been mailed. */
  lemma NullCodeAccepted(users: UserTable, id: string)
    requires id in users && users[id].collegeCode.None?
    ensures CodeAccepted(users, id, Null)
  {
  }

  /** The intended test: a code is pending and the body carries that same string. */
  predicate PendingCodeMatches(users: UserTable, id: string, code: JsonValue) {
    id in users && users[id].collegeCode.Some? && code == Str(users[id].collegeCode.value)
  }

  /** The intended test is the written one restricted to string codes. */
  lemma PendingCodeMatchesIff(users: UserTable, id: string, code: JsonValue)
    ensures PendingCodeMatches(users, id, code) <==> CodeAccepted(users, id, code) && code.Str?
  {
  }

  /** POST /api/verify-email/confirm with the intended test: a row is only
      ever marked verified when it held a pending code equal to the body's. */
  method ConfirmPendingCode(users: UserTable, session: Session, code: JsonValue)
    returns (reply: Reply, users': UserTable)
    ensures session.None? ==> reply == Unauthorized && users' == users
    ensures session.Some? && !PendingCodeMatches(users, session.value, code) ==>
      reply == Reply(400, InvalidCodeText) && users' == users
    ensures session.Some? && PendingCodeMatches(users, session.value, code) ==>
      reply == Reply(200, VerifiedText) && users' == users[session.value := Confirmed(users[session.value])]
    ensures forall k | k in users' && users'[k].collegeVerified && !(k in users && users[k].collegeVerified) ::
      session == Some(k) && users[k].collegeCode.Some? && code == Str(users[k].collegeCode.value)
  {
    if session.None? {
      return Unauthorized, users;
    }
    var id := session.value;
    if id !in users || users[id].collegeCode.None? || code != Str(users[id].collegeCode.value) {
      return Reply(400, InvalidCodeText), users;
    }
    users' := users[id := users[id].(collegeVerified := true, collegeCode := None)];
    reply := Reply(200, VerifiedText);
  }
}
