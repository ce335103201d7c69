/** The session cookie: `createSession` writes the URI-encoded JSON of
    `{ user, createdAt }`; `getSession` (and `getSessionUser`, which repeats it)
    reads it back and answers null on anything it cannot read. The user is
    whatever JSON value the cookie's `user` member holds, so the result is a
    `Json` value. */
module Session {
  import opened Wrappers
  import opened JsonCodec
  import UriComponent

  /** The `SessionUser` record stored in the cookie. */
  datatype SessionUser = SessionUser(id: string, name: string, email: string, role: string)

  /** A `SessionUser` as a JSON object, members in declaration order. */
  function UserJson(u: SessionUser): Json {
    JObj([Field("id", JStr(u.id)), Field("name", JStr(u.name)),
          Field("email", JStr(u.email)), Field("role", JStr(u.role))])
  }

  /** The object `createSession` serialises; `now` is `Date.now()`. */
  function Payload(u: SessionUser, now: nat): Json {
    JObj([Field("user", UserJson(u)), Field("createdAt", JNum(IntLexeme(now)))])
  }

  /** `createSession(user)`: the cookie decodes to JSON text that parses to exactly
      `{ user, createdAt: now }`. */
  function CreateSession(u: SessionUser, now: nat): (cookie: string)
    ensures UriComponent.Decode(cookie) == Some(Serialize(Payload(u, now)))
    ensures Parse(Serialize(Payload(u, now))) == Some(Payload(u, now))
  {
    PayloadWellFormed(u, now);
    CookieText(Payload(u, now));
    UriComponent.Encode(Serialize(Payload(u, now)))
  }

  lemma PayloadWellFormed(u: SessionUser, now: nat)
    ensures WellFormed(Payload(u, now))
  {
    UserWellFormed(u);
    IntLexemeIsNumber(now);
    LexemeWellFormed(IntLexeme(now));
    PairWellFormed(UserJson(u), JNum(IntLexeme(now)));
  }

  lemma PairWellFormed(user: Json, createdAt: Json)
    requires WellFormed(user) && WellFormed(createdAt)
    ensures WellFormed(JObj([Field("user", user), Field("createdAt", createdAt)]))
  {
    var fields := [Field("user", user), Field("createdAt", createdAt)];
    assert fields[0].value == user && fields[1].value == createdAt;
  }

  lemma LexemeWellFormed(lexeme: string)
    requires IsNumberLexeme(lexeme)
    ensures WellFormed(JNum(lexeme))
  {
  }

  lemma UserWellFormed(u: SessionUser)
    ensures WellFormed(UserJson(u))
  {
    var user := UserJson(u);
    assert forall i :: 0 <= i < |user.fields| ==> user.fields[i].value.JStr?;
  }

  /** The cookie text of a well-formed value decodes and parses back to it. */
  lemma CookieText(p: Json)
    requires WellFormed(p)
    ensures UriComponent.Decode(UriComponent.Encode(Serialize(p))) == Some(Serialize(p))
    ensures Parse(Serialize(p)) == Some(p)
  {
    UriComponent.DecodeEncode(Serialize(p));
    ParseSerialize(p);
  }

  /** `getSession`: None when there is no cookie, when `decodeURIComponent` or
      `JSON.parse` throws, when the payload is `null` (reading its member throws),
      and when the `user` member is missing or falsy. */
  function GetSession(cookie: Option<string>): (r: Option<Json>)
    ensures cookie.None? ==> r.None?
    ensures r.Some? ==> Truthy(r.value)
    ensures r.Some? ==> cookie.Some? && UriComponent.Decode(cookie.value).Some?
                        && Parse(UriComponent.Decode(cookie.value).value).Some?
                        && var session := Parse(UriComponent.Decode(cookie.value).value).value;
                           !session.JNull? && Member(session, "user") == r
  {
    match cookie
    case None => None
    case Some(value) =>
      match UriComponent.Decode(value)
      case None => None
      case Some(text) =>
        match Parse(text)
        case None => None
        case Some(session) =>
          if session.JNull? then None
          else
            match Member(session, "user")
            case None => None
            case Some(user) => if Truthy(user) then Some(user) else None
  }

  /** `clearSession`. */
  function ClearSession(): (cookie: string)
    ensures GetSession(Some(cookie)).None?
  {
    assert Parse("").None?;
    ""
  }

  /** `session.role === 'admin'` on whatever `getSession` returned. */
  predicate IsAdmin(user: Json)
    ensures IsAdmin(user) ==> Truthy(user)
    ensures IsAdmin(user) ==> user.JObj? && exists i :: 0 <= i < |user.fields| && user.fields[i] == Field("role", JStr("admin"))
  {
    if user.JObj? then GetSpec(user.fields, "role"); Member(user, "role") == Some(JStr("admin")) else false
  }

  /** Reading back a cookie written for u gives u, without `createdAt`. */
  lemma SessionRoundTrip(u: SessionUser, now: nat)
    ensures GetSession(Some(CreateSession(u, now))) == Some(UserJson(u))
  {
    var p := Payload(u, now);
    assert Get(p.fields, "user") == Some(UserJson(u));
  }

  /** The role check on a stored user reads the role that was stored. */
  lemma AdminOfUser(u: SessionUser)
    ensures IsAdmin(UserJson(u)) <==> u.role == "admin"
  {
    assert Get(UserJson(u).fields, "role") == Some(JStr(u.role));
  }

  /** A cookie whose payload parses to a value with a truthy `user` reads as that user,
      whoever wrote the cookie. */
  lemma TruthyUserSession(value: string, session: Json)
    requires UriComponent.Decode(value).Some?
    requires Parse(UriComponent.Decode(value).value) == Some(session)
    requires Member(session, "user").Some? && Truthy(Member(session, "user").value)
    ensures GetSession(Some(value)) == Member(session, "user")
  {
  }

  /** The cookie is not signed: any well-formed payload with a truthy `user`, encoded
      as `createSession` encodes, reads as that user. */
  lemma {:induction false} AnyPayloadReads(p: Json)
    requires WellFormed(p)
    requires Member(p, "user").Some? && Truthy(Member(p, "user").value)
    ensures GetSession(Some(UriComponent.Encode(Serialize(p)))) == Member(p, "user")
  {
    CookieText(p);
    TruthyUserSession(UriComponent.Encode(Serialize(p)), p);
  }

  /** A cookie whose payload parses but has no truthy `user` reads as no session. */
  lemma NoUserNoSession(value: string, session: Json)
    requires UriComponent.Decode(value).Some?
    requires Parse(UriComponent.Decode(value).value) == Some(session)
    requires session.JNull? || Member(session, "user").None? || !Truthy(Member(session, "user").value)
    ensures GetSession(Some(value)).None?
  {
  }
}
