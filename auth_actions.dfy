/** The server actions of app/actions/auth.ts: `loginAction` checks the
    credentials and sets the `session` cookie, `registerAction` validates,
    refuses a known email, hashes the password and creates an administrator,
    `logoutAction` deletes the cookie and `getSessionUser` reads it back. A
    failure of the database or of bcrypt, which the model does not see, is the
    `fault` parameter. */
module AuthActions {
  import opened Wrappers
  import opened JsString
  import opened JsNumber
  import opened JsonCodec
  import opened Session
  import opened Validations
  import opened ModelErrors
  import opened Bcrypt
  import opened UserModel
  import Middleware
  import UriComponent

  /** A cookie and the attributes it was set with. */
  datatype Cookie = Cookie(
    value: string, httpOnly: bool, secure: bool, sameSite: string, maxAge: int, path: string)

  /** Seven days, in seconds. */
  const SessionMaxAge := 60 * 60 * 24 * 7

  /** The options both login paths set the session cookie with. */
  function SessionCookie(value: string, production: bool): (c: Cookie)
    ensures c.value == value && c.httpOnly && c.sameSite == "lax" && c.path == "/"
    ensures c.maxAge == 604800 && (c.secure <==> production)
  {
    Cookie(value, true, production, "lax", SessionMaxAge, "/")
  }

  /** The `sessionUser` built from a stored user: its id as text, name, email and
      role, and nothing else (in particular not the password digest). */
  function SessionUserOf(u: User): (s: SessionUser)
    ensures s.id == NatToString(u.id) && s.name == u.name && s.email == u.email
    ensures s.role == "admin" <==> u.role == AdminRole
  {
    SessionUser(NatToString(u.id), u.name, u.email, RoleName(u.role))
  }

  /** The request's cookie store. */
  class CookieJar {
    var cookies: map<string, Cookie>

    constructor()
      ensures cookies == map[]
    {
      cookies := map[];
    }

    /** `cookies().set('session', value, options)`. */
    method SetSession(value: string, production: bool)
      modifies this
      ensures cookies == old(cookies)["session" := SessionCookie(value, production)]
      ensures SessionValue(this) == Some(value)
    {
      cookies := cookies["session" := SessionCookie(value, production)];
    }

    /** `createSession(sessionUser)` at time `now`: the cookie written reads back as
        the user. */
    method StartSession(u: SessionUser, now: nat, production: bool)
      modifies this
      ensures cookies == old(cookies)["session" := SessionCookie(CreateSession(u, now), production)]
      ensures GetSession(SessionValue(this)) == Some(UserJson(u))
    {
      SetSession(CreateSession(u, now), production);
      SessionRoundTrip(u, now);
    }
  }

  /** The value of the `session` cookie, if there is one. */
  function SessionValue(jar: CookieJar): Option<string>
    reads jar
  {
    if "session" in jar.cookies then Some(jar.cookies["session"].value) else None
  }

  /** What an action resolves to: `{ success: true }` or `{ error }`. */
  datatype Reply = Ok | Error(message: string)

  /** An action either resolves to a reply or rejects with an exception of its own. */
  datatype Outcome = Replied(reply: Reply) | Crashed

  const InvalidCredentials := "Invalid credentials"
  const SomethingWrong := "Something went wrong"
  const UserExists := "User already exists"

  /** The user a login signs in: the one stored under the normalised email, when the
      password matches its digest. */
  function LoginUser(users: seq<User>, email: string, password: string): (r: Option<User>)
    ensures r.Some? ==> r.value in users && r.value.email == NormalizeEmail(email)
                        && Compare(password, r.value.password)
    ensures FindEmail(users, NormalizeEmail(email)).None? ==> r.None?
  {
    match FindEmail(users, NormalizeEmail(email))
    case None => None
    case Some(u) => if Compare(password, u.password) then Some(u) else None
  }

  /** A login succeeds exactly when some stored user has that email and accepts the
      password: the lookup cannot pick another user, because emails are unique. */
  lemma LoginUserExact(users: seq<User>, nextId: nat, email: string, password: string)
    requires UsersInvariant(users, nextId)
    ensures LoginUser(users, email, password).Some? <==>
      exists u :: u in users && u.email == NormalizeEmail(email) && Compare(password, u.password)
    ensures LoginUser(users, email, password).Some? ==>
      LoginUser(users, email, password).value in users
  {
    if u :| u in users && u.email == NormalizeEmail(email) && Compare(password, u.password) {
      FindEmailUnique(users, nextId, u);
    }
  }

  /** `loginAction(email, password)`. */
  method LoginAction(db: UserCollection, jar: CookieJar, email: string, password: string,
                     now: nat, production: bool, fault: bool) returns (r: Reply)
    modifies jar
    ensures fault ==> r == Error(SomethingWrong) && jar.cookies == old(jar.cookies)
    ensures !fault && LoginUser(db.users, email, password).None? ==>
      r == Error(InvalidCredentials) && jar.cookies == old(jar.cookies)
    ensures !fault && LoginUser(db.users, email, password).Some? ==>
      var u := LoginUser(db.users, email, password).value;
      && r == Ok
      && jar.cookies == old(jar.cookies)["session" := SessionCookie(CreateSession(SessionUserOf(u), now), production)]
      && GetSession(SessionValue(jar)) == Some(UserJson(SessionUserOf(u)))
  {
    if fault {
      return Error(SomethingWrong);
    }
    var found := db.FindOne(email);
    if found.None? {
      return Error(InvalidCredentials);
    }
    var user := found.value;
    if !Compare(password, user.password) {
      return Error(InvalidCredentials);
    }
    jar.StartSession(SessionUserOf(user), now, production);
    return Ok;
  }

  /** What the catch block of `registerAction` is handed. */
  datatype Thrown =
    | ZodThrown(issues: seq<Issue>)           // `registerSchema.parse`: `errors` is the issues array
    | ValidationThrown(errors: seq<PathError>) // `User.create`: `errors` is an object keyed by path
    | OtherThrown                             // anything without `errors`

  /** The catch block as written: `error.errors[0].message`. On a Mongoose
      ValidationError `errors[0]` is undefined, so reading `message` throws out of
      the catch block and the action rejects. */
  function CatchAsWritten(e: Thrown): (r: Outcome)
    ensures r == Crashed <==> e.ValidationThrown? || (e.ZodThrown? && e.issues == [])
    ensures e.ZodThrown? && e.issues != [] ==> r == Replied(Error(e.issues[0].message))
    ensures e.OtherThrown? ==> r == Replied(Error(SomethingWrong))
  {
    match e
    case ZodThrown(issues) => if issues == [] then Crashed else Replied(Error(issues[0].message))
    case ValidationThrown(_) => Crashed
    case OtherThrown => Replied(Error(SomethingWrong))
  }

  /** The catch block as intended: the first message of whichever error it is. */
  function Catch(e: Thrown): (r: Outcome)
    ensures e.ZodThrown? && e.issues != [] ==> r == Replied(Error(e.issues[0].message))
    ensures e.ValidationThrown? && e.errors != [] ==> r == Replied(Error(e.errors[0].message))
    ensures e.OtherThrown? ==> r == Replied(Error(SomethingWrong))
    ensures r == CatchAsWritten(e) <==> !(e.ValidationThrown? && e.errors != [])
  {
    match e
    case ZodThrown(issues) => if issues == [] then Crashed else Replied(Error(issues[0].message))
    case ValidationThrown(errors) => if errors == [] then Crashed else Replied(Error(errors[0].message))
    case OtherThrown => Replied(Error(SomethingWrong))
  }

  /** The document `registerAction` asks `User.create` for: an administrator with
      the cost-10 digest of the password. */
  function AdminDraft(v: RegisterInput, salt: nat): (d: UserDraft)
    ensures d.role == Some("admin") && d.password == Hash(v.password, Rounds, salt)
    ensures Compare(v.password, d.password)
  {
    UserDraft(v.name, v.email, Hash(v.password, Rounds, salt), Some("admin"))
  }

  /** For a validated email, the draft fails only on a name of white space, and then
      only on `name`. */
  lemma AdminDraftErrors(v: RegisterInput, salt: nat)
    requires IsEmail(v.email)
    ensures UserErrors(AdminDraft(v, salt)) == [] <==> Trim(v.name) != ""
    ensures Trim(v.name) == "" ==>
      UserErrors(AdminDraft(v, salt)) == [PathError("name", "Name is required")]
  {
    EmailIsTrimmed(v.email);
    TrimOfTrimmed(v.email);
    assert NormalizeEmail(v.email) != "" by {
      assert |ToLower(Trim(v.email))| == |v.email|;
    }
    AdminErrors(AdminDraft(v, salt));
  }

  /** A draft with an address and the admin role fails only on its name. */
  lemma AdminErrors(d: UserDraft)
    requires NormalizeEmail(d.email) != "" && d.role == Some("admin")
    ensures UserErrors(d) == [] <==> Trim(d.name) != ""
    ensures Trim(d.name) == "" ==> UserErrors(d) == [PathError("name", "Name is required")]
  {
    assert RoleText(d) == "admin";
    var first := Validator(Trim(d.name) != "", "name", "Name is required");
    var email := Validator(NormalizeEmail(d.email) != "", "email", "Email is required");
    var role := Validator(ParseRole(RoleText(d)).Some?, "role",
                         "`" + RoleText(d) + "` is not a valid enum value for path `role`.");
    assert email == [] && role == [];
    assert UserErrors(d) == first + email + role;
    assert first + email + role == first;
  }

  /** The exception `User.create` raises for a draft, if any. */
  function CreateThrown(users: seq<User>, d: UserDraft): Option<Thrown> {
    if UserErrors(d) != [] then Some(ValidationThrown(UserErrors(d)))
    else if FindEmail(users, NormalizeEmail(d.email)).Some? then Some(OtherThrown)
    else None
  }

  /** A name of two spaces is long enough for `registerSchema`. */
  lemma BlankNameParses(email: string, password: string)
    requires IsEmail(email) && Utf16Length(password) >= 6
    ensures ParseRegister(RegisterBody("  ", email, password, password))
            == Success(RegisterInput("  ", email, password, password))
  {
    RegisterBodyMembers("  ", email, password, password);
    assert Utf16Length("  ") == 2;
    assert RegisterValid(RegisterBody("  ", email, password, password));
  }

  /** The finding: a name of two spaces passes `registerSchema` (it is two
      characters long), the `trim` setter turns it into the empty string,
      `required` refuses it, and the catch block as written throws instead of
      answering. The intended catch block answers `Name is required`. */
  lemma BlankNameCrashes(users: seq<User>, email: string, password: string, salt: nat)
    requires IsEmail(email) && Utf16Length(password) >= 6
    ensures ParseRegister(RegisterBody("  ", email, password, password))
            == Success(RegisterInput("  ", email, password, password))
    ensures CreateThrown(users, AdminDraft(RegisterInput("  ", email, password, password), salt))
            == Some(ValidationThrown([PathError("name", "Name is required")]))
    ensures CatchAsWritten(ValidationThrown([PathError("name", "Name is required")])) == Crashed
    ensures Catch(ValidationThrown([PathError("name", "Name is required")]))
            == Replied(Error("Name is required"))
  {
    BlankNameParses(email, password);
    BlankNameRefused(users, RegisterInput("  ", email, password, password), salt);
  }

  /** `User.create` refuses the draft of a name of two spaces on `name` alone. */
  lemma BlankNameRefused(users: seq<User>, v: RegisterInput, salt: nat)
    requires IsEmail(v.email) && v.name == "  "
    ensures CreateThrown(users, AdminDraft(v, salt))
            == Some(ValidationThrown([PathError("name", "Name is required")]))
  {
    assert Trim(v.name) == "" by {
      assert IsSpace(v.name[0]) && IsSpace(v.name[1]);
    }
    AdminDraftErrors(v, salt);
  }

  /** The user a successful registration stores. */
  function NewAdmin(v: RegisterInput, salt: nat, id: nat, now: int): (u: User)
    requires IsEmail(v.email) && Trim(v.name) != ""
    ensures u.role == AdminRole && u.password == Hash(v.password, Rounds, salt)
    ensures u.email == NormalizeEmail(v.email) && u.name == Trim(v.name) && u.id == id
  {
    AdminDraftErrors(v, salt);
    Stored(AdminDraft(v, salt), id, now)
  }

  /** `registerAction(formData)`, with the catch block as intended. */
  method RegisterAction(db: UserCollection, body: Json, salt: nat, now: int, fault: bool)
    returns (r: Outcome)
    requires db.Valid()
    modifies db
    ensures db.Valid()
    ensures r != Replied(Ok) ==> db.users == old(db.users)
    ensures ParseRegister(body).Failure? ==> r == Replied(Error(ParseRegister(body).error.message))
    ensures ParseRegister(body).Success? && fault ==> r == Replied(Error(SomethingWrong))
    ensures ParseRegister(body).Success? && !fault ==>
      var v := ParseRegister(body).value;
      && IsEmail(v.email)
      && (FindEmail(old(db.users), NormalizeEmail(v.email)).Some? ==> r == Replied(Error(UserExists)))
      && (FindEmail(old(db.users), NormalizeEmail(v.email)).None? && Trim(v.name) == "" ==>
            r == Replied(Error("Name is required")))
      && (FindEmail(old(db.users), NormalizeEmail(v.email)).None? && Trim(v.name) != "" ==>
            r == Replied(Ok) && db.users == old(db.users) + [NewAdmin(v, salt, old(db.nextId), now)])
  {
    var parsed := ParseRegister(body);
    if parsed.Failure? {
      return Catch(ZodThrown([parsed.error]));
    }
    var v := parsed.value;
    assert IsEmail(v.email) by {
      assert RegisterValid(body);
    }
    if fault {
      return Catch(OtherThrown);
    }
    var existing := db.FindOne(v.email);
    if existing.Some? {
      return Replied(Error(UserExists));
    }
    var d := AdminDraft(v, salt);
    AdminDraftErrors(v, salt);
    var created := db.Create(d, now);
    match created {
      case Success(_) => return Replied(Ok);
      case Failure(Invalid(errors)) => return Catch(ValidationThrown(errors));
      // the unique index only fires when the lookup above raced with another insert
      case Failure(DuplicateKey) => return Catch(OtherThrown);
    }
  }

  /** `logoutAction`: the `session` cookie is deleted and no session is read back. */
  method LogoutAction(jar: CookieJar)
    modifies jar
    ensures jar.cookies == old(jar.cookies) - {"session"}
    ensures GetSession(SessionValue(jar)).None?
  {
    jar.cookies := jar.cookies - {"session"};
  }

  /** `getSessionUser`: the same reading of the cookie as `getSession`. */
  function GetSessionUser(jar: CookieJar): (r: Option<Json>)
    reads jar
    ensures "session" !in jar.cookies ==> r.None?
    ensures r.Some? ==> Truthy(r.value)
    ensures r.Some? ==>
      && "session" in jar.cookies
      && UriComponent.Decode(jar.cookies["session"].value).Some?
      && Parse(UriComponent.Decode(jar.cookies["session"].value).value).Some?
      && Member(Parse(UriComponent.Decode(jar.cookies["session"].value).value).value, "user") == r
  {
    GetSession(SessionValue(jar))
  }

  /** A registered administrator signs in with the password it registered with, and
      its session opens the dashboard. */
  lemma RegisterThenLogin(users: seq<User>, nextId: nat, v: RegisterInput, salt: nat, now: int, at: nat)
    requires UsersInvariant(users, nextId) && IsEmail(v.email) && Trim(v.name) != ""
    requires FindEmail(users, NormalizeEmail(v.email)).None?
    ensures var u := NewAdmin(v, salt, nextId, now);
      && LoginUser(users + [u], v.email, v.password) == Some(u)
      && Middleware.Middleware(Some(CreateSession(SessionUserOf(u), at)), "/dashboard") == Middleware.Next
  {
    var u := NewAdmin(v, salt, nextId, now);
    FindEmailAppend(users, u);
    Middleware.AdminCookieOpensDashboard(SessionUserOf(u), at);
  }

  /** An unknown email and a wrong password are answered alike. */
  lemma SameAnswerForUnknownAndWrong(users: seq<User>, unknown: string, known: string, p: string, q: string)
    requires FindEmail(users, NormalizeEmail(unknown)).None?
    requires FindEmail(users, NormalizeEmail(known)).Some?
    requires !Compare(q, FindEmail(users, NormalizeEmail(known)).value.password)
    ensures LoginUser(users, unknown, p) == LoginUser(users, known, q) == None
  {
  }
}
