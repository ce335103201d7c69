/** The two POST handlers under app/api/auth: the login route answers with a
    status and a JSON body and sets the `session` cookie on success; the register
    route creates an administrator and answers 201. A request body that is not
    JSON is `None`; a failure of the database or of bcrypt is `fault`. */
module AuthRoutes {
  import opened Wrappers
  import opened JsString
  import opened JsonCodec
  import opened Session
  import opened Validations
  import opened ModelErrors
  import opened Bcrypt
  import opened UserModel
  import opened AuthActions

  /** A `NextResponse.json(body, { status })`, with the cookie it sets, if any. */
  datatype Response = Response(status: int, body: Json, cookie: Option<Cookie>)

  function ErrorResponse(status: int, message: string): Response {
    Response(status, JObj([Field("error", JStr(message))]), None)
  }

  const CredentialsRequired := "Email and password are required"
  const InternalError := "Internal server error"

  /** A destructured member: absent for anything but an object. */
  function Destructure(body: Json, key: string): (r: Option<Json>)
    ensures !body.JObj? ==> r.None?
  {
    if body.JObj? then Get(body.fields, key) else None
  }

  /** A destructured member is absent exactly when the body is not an object or has no
      member with that key, and otherwise is the value of such a member. */
  lemma DestructureSpec(body: Json, key: string)
    ensures Destructure(body, key).None? <==>
      !body.JObj? || forall i :: 0 <= i < |body.fields| ==> body.fields[i].key != key
    ensures Destructure(body, key).Some? ==>
      exists i :: 0 <= i < |body.fields| && body.fields[i] == Field(key, Destructure(body, key).value)
  {
    if body.JObj? {
      GetSpec(body.fields, key);
    }
  }

  /** `!value` for a destructured member. */
  predicate Missing(v: Option<Json>)
    ensures v.None? ==> Missing(v)
    ensures v.Some? && v.value.JStr? ==> (Missing(v) <==> v.value.text == "")
    ensures v.Some? && (v.value.JObj? || v.value.JArr?) ==> !Missing(v)
    ensures v == Some(JNull) ==> Missing(v)
  {
    v.None? || !Truthy(v.value)
  }

  /** The login handler. `request.json()` throwing and destructuring `null` both end
      in the catch block (500); a non-string email is treated the same way. */
  function LoginRoute(users: seq<User>, body: Option<Json>, now: nat, production: bool, fault: bool)
    : (r: Response)
    ensures r.status in {200, 400, 401, 500}
    ensures r.cookie.Some? <==> r.status == 200
    ensures r.status == 400 <==>
      body.Some? && !body.value.JNull?
      && (Missing(Destructure(body.value, "email")) || Missing(Destructure(body.value, "password")))
  {
    match body
    case None => ErrorResponse(500, InternalError)
    case Some(b) =>
      if b.JNull? then ErrorResponse(500, InternalError)
      else
        var email, password := Destructure(b, "email"), Destructure(b, "password");
        if Missing(email) || Missing(password) then ErrorResponse(400, CredentialsRequired)
        else if fault || !email.value.JStr? then ErrorResponse(500, InternalError)
        else
          match FindEmail(users, NormalizeEmail(email.value.text))
          case None => ErrorResponse(401, InvalidCredentials)
          case Some(u) =>
            if !password.value.JStr? then ErrorResponse(500, InternalError)
            else if !Compare(password.value.text, u.password) then ErrorResponse(401, InvalidCredentials)
            else
              var sessionUser := SessionUserOf(u);
              Response(200, JObj([Field("success", JBool(true)), Field("user", UserJson(sessionUser))]),
                       Some(SessionCookie(CreateSession(sessionUser, now), production)))
  }

  /** The login body a client sends. */
  function Credentials(email: string, password: string): Json {
    JObj([Field("email", JStr(email)), Field("password", JStr(password))])
  }

  lemma CredentialsMembers(email: string, password: string)
    ensures Destructure(Credentials(email, password), "email") == Some(JStr(email))
    ensures Destructure(Credentials(email, password), "password") == Some(JStr(password))
  {
    var fs := Credentials(email, password).fields;
    assert fs[1].key == "password" && fs[0].key == "email";
    assert Get(fs[..1], "email") == Some(JStr(email));
  }

  /** For non-empty string credentials the route and `loginAction` decide alike: 200
      with the user and its session cookie when the action signs in, 401 with the
      same message when it refuses, and 500 on a fault. */
  lemma LoginRouteAgreesWithAction(users: seq<User>, email: string, password: string,
                                   now: nat, production: bool, fault: bool)
    requires email != "" && password != ""
    ensures var r := LoginRoute(users, Some(Credentials(email, password)), now, production, fault);
      && (fault ==> r == ErrorResponse(500, InternalError))
      && (!fault && LoginUser(users, email, password).None? ==> r == ErrorResponse(401, InvalidCredentials))
      && (!fault && LoginUser(users, email, password).Some? ==>
            var u := SessionUserOf(LoginUser(users, email, password).value);
            && r.status == 200
            && Member(r.body, "user") == Some(UserJson(u))
            && r.cookie == Some(SessionCookie(CreateSession(u, now), production)))
  {
    if fault {
      RouteFault(users, email, password, now, production);
    } else if LoginUser(users, email, password).None? {
      RouteRefused(users, email, password, now, production);
    } else {
      RouteSignsIn(users, email, password, now, production);
    }
  }

  lemma RouteFault(users: seq<User>, email: string, password: string, now: nat, production: bool)
    requires email != "" && password != ""
    ensures LoginRoute(users, Some(Credentials(email, password)), now, production, true)
         == ErrorResponse(500, InternalError)
  {
    CredentialsMembers(email, password);
  }

  lemma RouteRefused(users: seq<User>, email: string, password: string, now: nat, production: bool)
    requires email != "" && password != "" && LoginUser(users, email, password).None?
    ensures LoginRoute(users, Some(Credentials(email, password)), now, production, false)
         == ErrorResponse(401, InvalidCredentials)
  {
    CredentialsMembers(email, password);
  }

  lemma RouteSignsIn(users: seq<User>, email: string, password: string, now: nat, production: bool)
    requires email != "" && password != "" && LoginUser(users, email, password).Some?
    ensures var r := LoginRoute(users, Some(Credentials(email, password)), now, production, false);
      var u := SessionUserOf(LoginUser(users, email, password).value);
      && r.status == 200
      && Member(r.body, "user") == Some(UserJson(u))
      && r.cookie == Some(SessionCookie(CreateSession(u, now), production))
  {
    var found := LoginUser(users, email, password).value;
    assert FindEmail(users, NormalizeEmail(email)) == Some(found) && Compare(password, found.password);
    RouteFound(users, email, password, now, production, found);
    var b := JObj([Field("success", JBool(true)), Field("user", UserJson(SessionUserOf(found)))]);
    assert Get(b.fields, "user") == Some(UserJson(SessionUserOf(found)));
  }

  /** The route's answer once the stored user is found and accepts the password. */
  lemma RouteFound(users: seq<User>, email: string, password: string, now: nat, production: bool,
                   found: User)
    requires email != "" && password != ""
    requires FindEmail(users, NormalizeEmail(email)) == Some(found) && Compare(password, found.password)
    ensures LoginRoute(users, Some(Credentials(email, password)), now, production, false)
         == Response(200, JObj([Field("success", JBool(true)), Field("user", UserJson(SessionUserOf(found)))]),
                     Some(SessionCookie(CreateSession(SessionUserOf(found), now), production)))
  {
    CredentialsMembers(email, password);
  }

  /** A missing or empty field is answered 400 before the database is consulted:
      the answer does not depend on the users or on a fault. */
  lemma MissingFieldsBeforeLookup(users: seq<User>, others: seq<User>, email: string, now: nat, production: bool)
    ensures LoginRoute(users, Some(Credentials(email, "")), now, production, false)
         == LoginRoute(others, Some(Credentials(email, "")), now, production, true)
         == ErrorResponse(400, CredentialsRequired)
  {
    CredentialsMembers(email, "");
  }

  /** The catch block of the register route as written: on a Mongoose
      ValidationError `error.errors[0]` is undefined and reading `message` throws
      out of the handler (None: no JSON answer). */
  function RegisterCatchAsWritten(e: Thrown): (r: Option<Response>)
    ensures r.None? <==> e.ValidationThrown? || (e.ZodThrown? && e.issues == [])
    ensures r.Some? ==> r.value.status in {400, 500} && r.value.cookie.None?
  {
    match e
    case ZodThrown(issues) => if issues == [] then None else Some(ErrorResponse(400, issues[0].message))
    case ValidationThrown(_) => None
    case OtherThrown => Some(ErrorResponse(500, InternalError))
  }

  /** The catch block as intended: 400 with the first message of a validation error
      of either library, 500 otherwise. */
  function RegisterCatch(e: Thrown): (r: Response)
    requires e.ZodThrown? ==> e.issues != []
    requires e.ValidationThrown? ==> e.errors != []
    ensures e.ValidationThrown? ==> r == ErrorResponse(400, e.errors[0].message)
    ensures e.ZodThrown? ==> r == ErrorResponse(400, e.issues[0].message)
    ensures e.OtherThrown? ==> r == ErrorResponse(500, InternalError)
    ensures RegisterCatchAsWritten(e) == Some(r) <==> !e.ValidationThrown?
  {
    match e
    case ZodThrown(issues) => ErrorResponse(400, issues[0].message)
    case ValidationThrown(errors) => ErrorResponse(400, errors[0].message)
    case OtherThrown => ErrorResponse(500, InternalError)
  }

  /** The 201 body: the new user's id, name, email and role. */
  function CreatedResponse(u: User): (r: Response)
    ensures r.status == 201 && r.cookie.None?
    ensures Member(r.body, "user") == Some(UserJson(SessionUserOf(u)))
    ensures Member(UserJson(SessionUserOf(u)), "password").None?
  {
    GetSpec(UserJson(SessionUserOf(u)).fields, "password");
    Response(201, JObj([Field("success", JBool(true)),
                        Field("message", JStr("Account created successfully")),
                        Field("user", UserJson(SessionUserOf(u)))]), None)
  }

  /** The register handler, with the catch block as intended. */
  method RegisterRoute(db: UserCollection, body: Option<Json>, salt: nat, now: int, fault: bool)
    returns (r: Response)
    requires db.Valid()
    modifies db
    ensures db.Valid()
    ensures r.status != 201 ==> db.users == old(db.users)
    ensures body.None? ==> r == ErrorResponse(500, InternalError)
    ensures body.Some? && ParseRegister(body.value).Failure? ==>
      r == ErrorResponse(400, ParseRegister(body.value).error.message)
    ensures body.Some? && ParseRegister(body.value).Success? && fault ==>
      r == ErrorResponse(500, InternalError)
    ensures body.Some? && ParseRegister(body.value).Success? && !fault ==>
      var v := ParseRegister(body.value).value;
      && IsEmail(v.email)
      && (FindEmail(old(db.users), NormalizeEmail(v.email)).Some? ==> r == ErrorResponse(400, UserExists))
      && (FindEmail(old(db.users), NormalizeEmail(v.email)).None? && Trim(v.name) == "" ==>
            r == ErrorResponse(400, "Name is required"))
      && (FindEmail(old(db.users), NormalizeEmail(v.email)).None? && Trim(v.name) != "" ==>
            var u := NewAdmin(v, salt, old(db.nextId), now);
            && r == CreatedResponse(u) && u.role == AdminRole
            && db.users == old(db.users) + [u])
  {
    if body.None? {
      return RegisterCatch(OtherThrown);
    }
    var parsed := ParseRegister(body.value);
    if parsed.Failure? {
      return RegisterCatch(ZodThrown([parsed.error]));
    }
    var v := parsed.value;
    assert IsEmail(v.email) by {
      assert RegisterValid(body.value);
    }
    if fault {
      return RegisterCatch(OtherThrown);
    }
    var existing := db.FindOne(v.email);
    if existing.Some? {
      return ErrorResponse(400, UserExists);
    }
    AdminDraftErrors(v, salt);
    var created := db.Create(AdminDraft(v, salt), now);
    match created {
      case Success(u) => return CreatedResponse(u);
      case Failure(Invalid(errors)) => return RegisterCatch(ValidationThrown(errors));
      // the unique index only fires when the lookup above raced with another insert
      case Failure(DuplicateKey) => return ErrorResponse(500, InternalError);
    }
  }

  /** The register route's answer to a blank name, as written and as intended. */
  lemma BlankNameRouteCrashes(users: seq<User>, email: string, password: string, salt: nat)
    requires IsEmail(email) && Utf16Length(password) >= 6
    ensures var e := CreateThrown(users, AdminDraft(RegisterInput("  ", email, password, password), salt));
      && e.Some?
      && RegisterCatchAsWritten(e.value).None?
      && RegisterCatch(e.value) == ErrorResponse(400, "Name is required")
  {
    BlankNameCrashes(users, email, password, salt);
  }
}
