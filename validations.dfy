/** The zod schemas of lib/validations.ts and what `safeParse` reports for them.
    zod checks the members of an object in shape order and collects every
    issue: a member of the wrong type (or missing) aborts the object, so its
    `refine` is not run, while a failing `min`, `email` or `url` check only
    marks the result dirty, so the `refine` still runs and its issue comes
    last. The callers report the first issue's message. */
module Validations {
  import opened Wrappers
  import opened JsString
  import opened JsonCodec
  import opened GameModel

  // ---------- formats ----------

  predicate IsAsciiLetter(c: char) {
    ('a' <= c <= 'z') || ('A' <= c <= 'Z')
  }

  predicate IsAsciiAlnum(c: char) {
    IsAsciiLetter(c) || ('0' <= c <= '9')
  }

  /** `[A-Z0-9_'+\-\.]`, case-insensitively. */
  predicate IsLocalChar(c: char) {
    IsAsciiAlnum(c) || c == '_' || c == '\'' || c == '+' || c == '-' || c == '.'
  }

  /** The part before `@`: not starting with a dot, no two dots in a row, and ending
      in `[A-Z0-9_+-]`. */
  predicate IsLocalPart(l: string) {
    |l| >= 1 && l[0] != '.'
    && (forall i :: 0 <= i < |l| ==> IsLocalChar(l[i]))
    && (forall i :: 0 <= i < |l| - 1 ==> !(l[i] == '.' && l[i + 1] == '.'))
    && (IsAsciiAlnum(l[|l| - 1]) || l[|l| - 1] == '_' || l[|l| - 1] == '+' || l[|l| - 1] == '-')
  }

  /** `([A-Z0-9][A-Z0-9\-]*\.)+` without its last dot: labels that start with a letter
      or digit, separated by single dots. */
  predicate IsHostLabels(h: string) {
    |h| >= 1 && IsAsciiAlnum(h[0])
    && forall i :: 0 <= i < |h| ==>
         IsAsciiAlnum(h[i]) || h[i] == '-' || (h[i] == '.' && i + 1 < |h| && IsAsciiAlnum(h[i + 1]))
  }

  /** `[A-Z]{2,}`. */
  predicate IsTopLabel(t: string) {
    |t| >= 2 && forall i :: 0 <= i < |t| ==> IsAsciiLetter(t[i])
  }

  predicate IsDomain(d: string) {
    exists j :: 0 < j < |d| && d[j] == '.' && IsHostLabels(d[..j]) && IsTopLabel(d[j + 1..])
  }

  /** zod's `email()` pattern
      `^(?!\.)(?!.*\.\.)([A-Z0-9_'+\-\.]*)[A-Z0-9_+-]@([A-Z0-9][A-Z0-9\-]*\.)+[A-Z]{2,}$` with flag `i`. */
  predicate IsEmail(s: string) {
    exists k :: 0 < k < |s| && s[k] == '@' && IsLocalPart(s[..k]) && IsDomain(s[k + 1..])
  }

  /** An address zod accepts has no white space at its ends and is not empty. */
  lemma EmailIsTrimmed(s: string)
    requires IsEmail(s)
    ensures s != [] && IsTrimmed(s)
  {
    var k :| 0 < k < |s| && s[k] == '@' && IsLocalPart(s[..k]) && IsDomain(s[k + 1..]);
    EmailEnds(s[..k], s[k + 1..], s);
  }

  /** The first character of an address is the local part's, the last the domain's. */
  lemma EmailEnds(l: string, d: string, s: string)
    requires IsLocalPart(l) && IsDomain(d) && |s| == |l| + 1 + |d|
    requires s[..|l|] == l && s[|l| + 1..] == d
    ensures !IsSpace(s[0]) && !IsSpace(s[|s| - 1])
  {
    assert s[0] == l[0];
    LocalCharNotSpace(l[0]);
    DomainEndsInLetter(d);
    assert s[|s| - 1] == d[|d| - 1];
    LocalCharNotSpace(d[|d| - 1]);
  }

  lemma DomainEndsInLetter(d: string)
    requires IsDomain(d)
    ensures d != [] && IsAsciiLetter(d[|d| - 1])
  {
    var j :| 0 < j < |d| && d[j] == '.' && IsHostLabels(d[..j]) && IsTopLabel(d[j + 1..]);
    var t := d[j + 1..];
    assert d[|d| - 1] == t[|t| - 1];
  }

  lemma LocalCharNotSpace(c: char)
    requires IsLocalChar(c)
    ensures !IsSpace(c)
  {
  }

  /** C0 controls and space, which the URL parser strips from both ends. */
  predicate IsC0OrSpace(c: char) {
    c <= ' '
  }

  function StripC0(s: string): (r: string)
    ensures |r| <= |s|
    decreases |s|
  {
    if s != [] && IsC0OrSpace(s[0]) then StripC0(s[1..])
    else if s != [] && IsC0OrSpace(s[|s| - 1]) then StripC0(s[..|s| - 1])
    else s
  }

  predicate IsSchemeChar(c: char) {
    IsAsciiAlnum(c) || c == '+' || c == '-' || c == '.'
  }

  const SpecialSchemes: seq<string> := ["ftp", "http", "https", "ws", "wss"]

  /** What follows the slashes after a special scheme, up to the path, query or fragment. */
  function HostPart(s: string): (r: string)
    ensures |r| <= |s|
  {
    if s == [] then []
    else if s[0] == '/' || s[0] == '\\' then HostPart(s[1..])
    else HostUpTo(s)
  }

  function HostUpTo(s: string): (r: string)
    ensures |r| <= |s|
  {
    if s == [] || s[0] == '/' || s[0] == '\\' || s[0] == '?' || s[0] == '#' then []
    else [s[0]] + HostUpTo(s[1..])
  }

  /** zod's `url()`, which accepts what `new URL(s)` parses: a scheme (a letter, then
      letters, digits, `+`, `-` or `.`) and a colon, and for the special schemes other
      than `file` a non-empty host. */
  predicate IsUrl(s: string) {
    var t := StripC0(s);
    exists k :: 0 < k < |t| && t[k] == ':' && IsAsciiLetter(t[0])
      && (forall i :: 0 <= i < k ==> IsSchemeChar(t[i]))
      && (ToLower(t[..k]) in SpecialSchemes ==> HostPart(t[k + 1..]) != [])
  }

  // ---------- issues ----------

  datatype PathItem = Key(name: string) | Index(i: nat)

  /** A zod issue: where it is and its message. */
  datatype Issue = Issue(path: seq<PathItem>, message: string)

  /** The outcome of checking one member: its issues, and whether it aborted the object
      (a type mismatch) or only made it dirty. */
  datatype Check = Check(issues: seq<Issue>, aborted: bool)

  const Pass := Check([], false)

  /** Two members checked one after the other. */
  function Merge(a: Check, b: Check): Check {
    Check(a.issues + b.issues, a.aborted || b.aborted)
  }

  /** The name zod gives the type of a JSON value in `Expected …, received …`. */
  function TypeName(j: Json): string {
    match j
    case JNull => "null"
    case JBool(_) => "boolean"
    case JNum(_) => "number"
    case JStr(_) => "string"
    case JArr(_) => "array"
    case JObj(_) => "object"
  }

  /** The refinement on a string schema. */
  datatype StringRule = AnyString | MinLength(n: nat, message: string) | EmailRule(message: string) | UrlRule(message: string)

  predicate Holds(rule: StringRule, s: string) {
    match rule
    case AnyString => true
    case MinLength(n, _) => Utf16Length(s) >= n
    case EmailRule(_) => IsEmail(s)
    case UrlRule(_) => IsUrl(s)
  }

  function RuleMessage(rule: StringRule): string {
    match rule
    case AnyString => ""
    case MinLength(_, m) => m
    case EmailRule(m) => m
    case UrlRule(m) => m
  }

  /** A `z.string()` member with its rule: `Required` when the member is missing,
      `Expected string` for another type, the rule's message when the rule fails. */
  function StringCheck(path: seq<PathItem>, v: Option<Json>, rule: StringRule): (c: Check)
    ensures !c.aborted <==> v.Some? && v.value.JStr?
    ensures c.issues == [] <==> v.Some? && v.value.JStr? && Holds(rule, v.value.text)
    ensures |c.issues| <= 1
  {
    match v
    case None => Check([Issue(path, "Required")], true)
    case Some(JStr(s)) => if Holds(rule, s) then Pass else Check([Issue(path, RuleMessage(rule))], false)
    case Some(j) => Check([Issue(path, "Expected string, received " + TypeName(j))], true)
  }

  /** A `z.number().min(m, message)` member that is always a number. */
  function MinCheck(key: string, x: real, min: real, message: string): (c: Check)
    ensures !c.aborted
    ensures c.issues == [] <==> x >= min
  {
    if x >= min then Pass else Check([Issue([Key(key)], message)], false)
  }

  /** The value a form field gives zod: its text, or null when the field is absent. */
  function FormValue(v: Option<string>): Json {
    match v
    case None => JNull
    case Some(s) => JStr(s)
  }

  // ---------- loginSchema ----------

  const InvalidEmail := "Invalid email address"
  const ShortPassword := "Password must be at least 6 characters"
  const ShortName := "Name must be at least 2 characters"
  const PasswordsDiffer := "Passwords don't match"

  datatype LoginInput = LoginInput(email: string, password: string)

  function LoginChecks(fs: seq<Field>): Check {
    Merge(StringCheck([Key("email")], Get(fs, "email"), EmailRule(InvalidEmail)),
          StringCheck([Key("password")], Get(fs, "password"), MinLength(6, ShortPassword)))
  }

  /** The conditions `loginSchema` accepts, stated directly. */
  predicate LoginValid(body: Json) {
    body.JObj?
    && Get(body.fields, "email").Some? && Get(body.fields, "email").value.JStr?
    && Get(body.fields, "password").Some? && Get(body.fields, "password").value.JStr?
    && IsEmail(Get(body.fields, "email").value.text)
    && Utf16Length(Get(body.fields, "password").value.text) >= 6
  }

  /** `loginSchema.safeParse(body)`, reduced to its output or its first issue. */
  function ParseLogin(body: Json): (r: Result<LoginInput, Issue>)
    ensures r.Success? <==> LoginValid(body)
    ensures r.Success? ==> Get(body.fields, "email") == Some(JStr(r.value.email))
                           && Get(body.fields, "password") == Some(JStr(r.value.password))
  {
    match body
    case JObj(fs) =>
      var c := LoginChecks(fs);
      if c.issues != [] then Failure(c.issues[0])
      else Success(LoginInput(Get(fs, "email").value.text, Get(fs, "password").value.text))
    case _ => Failure(Issue([], "Expected object, received " + TypeName(body)))
  }

  /** A bad address is reported before a short password. */
  lemma LoginEmailFirst(email: string, password: string)
    requires !IsEmail(email)
    ensures ParseLogin(JObj([Field("email", JStr(email)), Field("password", JStr(password))]))
            == Failure(Issue([Key("email")], InvalidEmail))
  {
    var fs := [Field("email", JStr(email)), Field("password", JStr(password))];
    assert Get(fs, "email") == Some(JStr(email));
  }

  // ---------- registerSchema ----------

  datatype RegisterInput = RegisterInput(name: string, email: string, password: string, confirmPassword: string)

  function RegisterChecks(fs: seq<Field>): (c: Check)
    ensures !c.aborted ==>
      && Get(fs, "name").Some? && Get(fs, "name").value.JStr?
      && Get(fs, "email").Some? && Get(fs, "email").value.JStr?
      && Get(fs, "password").Some? && Get(fs, "password").value.JStr?
      && Get(fs, "confirmPassword").Some? && Get(fs, "confirmPassword").value.JStr?
  {
    Merge(StringCheck([Key("name")], Get(fs, "name"), MinLength(2, ShortName)),
      Merge(StringCheck([Key("email")], Get(fs, "email"), EmailRule(InvalidEmail)),
        Merge(StringCheck([Key("password")], Get(fs, "password"), MinLength(6, ShortPassword)),
              StringCheck([Key("confirmPassword")], Get(fs, "confirmPassword"), AnyString))))
  }

  /** Every issue `registerSchema` reports, in order: the members' issues, then the
      refinement's when no member aborted. */
  function RegisterIssues(body: Json): seq<Issue> {
    match body
    case JObj(fs) =>
      var c := RegisterChecks(fs);
      if c.aborted then c.issues
      else if Get(fs, "password").value.text != Get(fs, "confirmPassword").value.text
      then c.issues + [Issue([Key("confirmPassword")], PasswordsDiffer)]
      else c.issues
    case _ => [Issue([], "Expected object, received " + TypeName(body))]
  }

  /** A string member, read directly. */
  predicate IsTextMember(fs: seq<Field>, key: string) {
    Get(fs, key).Some? && Get(fs, key).value.JStr?
  }

  /** The conditions `registerSchema` accepts, stated directly. */
  predicate RegisterValid(body: Json) {
    body.JObj?
    && IsTextMember(body.fields, "name") && IsTextMember(body.fields, "email")
    && IsTextMember(body.fields, "password") && IsTextMember(body.fields, "confirmPassword")
    && Utf16Length(Get(body.fields, "name").value.text) >= 2
    && IsEmail(Get(body.fields, "email").value.text)
    && Utf16Length(Get(body.fields, "password").value.text) >= 6
    && Get(body.fields, "password").value.text == Get(body.fields, "confirmPassword").value.text
  }

  /** `registerSchema.safeParse(body)` (and `parse`, which throws the same first issue). */
  function ParseRegister(body: Json): (r: Result<RegisterInput, Issue>)
    ensures r.Success? <==> RegisterValid(body)
    ensures r.Success? ==>
      && Get(body.fields, "name") == Some(JStr(r.value.name))
      && Get(body.fields, "email") == Some(JStr(r.value.email))
      && Get(body.fields, "password") == Some(JStr(r.value.password))
      && r.value.password == r.value.confirmPassword
  {
    var issues := RegisterIssues(body);
    if issues != [] then Failure(issues[0])
    else
      var fs := body.fields;
      Success(RegisterInput(Get(fs, "name").value.text, Get(fs, "email").value.text,
                            Get(fs, "password").value.text, Get(fs, "confirmPassword").value.text))
  }

  /** The members in the order a form sends them. */
  function RegisterBody(name: string, email: string, password: string, confirm: string): Json {
    JObj([Field("name", JStr(name)), Field("email", JStr(email)),
          Field("password", JStr(password)), Field("confirmPassword", JStr(confirm))])
  }

  lemma RegisterBodyMembers(name: string, email: string, password: string, confirm: string)
    ensures var fs := RegisterBody(name, email, password, confirm).fields;
      && Get(fs, "name") == Some(JStr(name)) && Get(fs, "email") == Some(JStr(email))
      && Get(fs, "password") == Some(JStr(password)) && Get(fs, "confirmPassword") == Some(JStr(confirm))
  {
    var fs := RegisterBody(name, email, password, confirm).fields;
    var a, b, c := Field("name", JStr(name)), Field("email", JStr(email)), Field("password", JStr(password));
    assert fs[..3] == [a, b, c] && [a, b, c][..2] == [a, b] && [a, b][..1] == [a];
    assert Get(fs, "password") == Get([a, b, c], "password");
    assert Get(fs, "email") == Get([a, b, c], "email") == Get([a, b], "email");
    assert Get(fs, "name") == Get([a, b, c], "name") == Get([a, b], "name") == Get([a], "name");
  }

  /** Good members with a mismatched confirmation: the one issue is the refinement's,
      on `confirmPassword`. */
  lemma PasswordsMustMatch(name: string, email: string, password: string, confirm: string)
    requires Utf16Length(name) >= 2 && IsEmail(email) && Utf16Length(password) >= 6
    requires password != confirm
    ensures RegisterIssues(RegisterBody(name, email, password, confirm))
            == [Issue([Key("confirmPassword")], PasswordsDiffer)]
  {
    RegisterBodyMembers(name, email, password, confirm);
  }

  /** The refinement is not reached when a member has the wrong type: a missing name is
      the first issue and nothing about the passwords is reported. */
  lemma MissingNameAborts(email: string, password: string, confirm: string)
    ensures var body := JObj([Field("email", JStr(email)), Field("password", JStr(password)),
                              Field("confirmPassword", JStr(confirm))]);
      && ParseRegister(body) == Failure(Issue([Key("name")], "Required"))
      && (forall i :: 0 <= i < |RegisterIssues(body)| ==> RegisterIssues(body)[i].message != PasswordsDiffer)
  {
    var fs := [Field("email", JStr(email)), Field("password", JStr(password)),
               Field("confirmPassword", JStr(confirm))];
    var a, b := Field("email", JStr(email)), Field("password", JStr(password));
    assert fs[..2] == [a, b] && [a, b][..1] == [a];
    assert Get(fs, "name") == Get([a, b], "name") == Get([a], "name") == Get([], "name");
  }

  /** The member checks of a form body whose only bad member is a short name. */
  lemma ShortNameChecks(name: string, email: string, password: string, confirm: string)
    requires Utf16Length(name) < 2 && IsEmail(email) && Utf16Length(password) >= 6
    ensures var c := RegisterChecks(RegisterBody(name, email, password, confirm).fields);
      c.issues == [Issue([Key("name")], ShortName)] && !c.aborted
  {
    var fs := RegisterBody(name, email, password, confirm).fields;
    RegisterBodyMembers(name, email, password, confirm);
    var n := StringCheck([Key("name")], Get(fs, "name"), MinLength(2, ShortName));
    var e := StringCheck([Key("email")], Get(fs, "email"), EmailRule(InvalidEmail));
    var p := StringCheck([Key("password")], Get(fs, "password"), MinLength(6, ShortPassword));
    var k := StringCheck([Key("confirmPassword")], Get(fs, "confirmPassword"), AnyString);
    assert n == Check([Issue([Key("name")], ShortName)], false);
    assert e == Pass && p == Pass && k == Pass;
    assert RegisterChecks(fs) == Merge(n, Merge(e, Merge(p, k)));
  }

  /** A short name and a mismatch: the name's issue comes first and the refinement's
      is still reported after it. */
  lemma ShortNameThenMismatch(name: string, email: string, password: string, confirm: string)
    requires Utf16Length(name) < 2 && IsEmail(email) && Utf16Length(password) >= 6
    requires password != confirm
    ensures RegisterIssues(RegisterBody(name, email, password, confirm))
            == [Issue([Key("name")], ShortName), Issue([Key("confirmPassword")], PasswordsDiffer)]
  {
    RegisterBodyMembers(name, email, password, confirm);
    ShortNameChecks(name, email, password, confirm);
  }

  // ---------- gameSchema ----------

  /** What `extractGameData` hands to the schema: text fields may be null (None),
      numbers are already numbers, and the arrays and `isActive` are always present. The
      location and question fields are not in the schema, which strips them. */
  datatype GameData = GameData(
    title: Option<string>, description: Option<string>, difficulty: Option<string>,
    duration: real, price: real, maxPlayers: real, minPlayers: real,
    thumbnail: Option<string>, images: seq<string>, isActive: bool, tags: seq<string>,
    lat: real, lng: real, place: Option<string>, distance: Option<string>, questions: seq<Json>)

  const EnumExpected := "Expected 'Easy' | 'Medium' | 'Hard' | 'Expert'"

  /** `z.enum([...])`: a non-string aborts with the expected values; a string outside
      them aborts with `Invalid enum value`. */
  function EnumCheck(v: Option<string>): (c: Check)
    ensures c.issues == [] <==> v.Some? && ParseDifficulty(v.value).Some?
    ensures c.issues == [] <==> !c.aborted
  {
    match v
    case None => Check([Issue([Key("difficulty")], EnumExpected + ", received null")], true)
    case Some(s) =>
      if ParseDifficulty(s).Some? then Pass
      else Check([Issue([Key("difficulty")], "Invalid enum value. " + EnumExpected + ", received '" + s + "'")], true)
  }

  /** `z.array(z.string().url())`: one `Invalid url` issue per element that is not a URL,
      at its index. */
  function ImageChecks(images: seq<string>, from: nat): (c: Check)
    ensures !c.aborted
    ensures c.issues == [] <==> forall i :: 0 <= i < |images| ==> IsUrl(images[i])
    decreases |images|
  {
    if images == [] then Pass
    else
      var head := if IsUrl(images[0]) then Pass else Check([Issue([Key("images"), Index(from)], "Invalid url")], false);
      var rest := ImageChecks(images[1..], from + 1);
      assert forall i :: 1 <= i < |images| ==> images[i] == images[1..][i - 1];
      Merge(head, rest)
  }

  const ShortTitle := "Title must be at least 3 characters"
  const ShortDescription := "Description must be at least 10 characters"
  const ShortDuration := "Duration must be at least 15 minutes"
  const NegativePrice := "Price cannot be negative"
  const NoMaxPlayers := "Must allow at least 1 player"
  const NoMinPlayers := "Must require at least 1 player"
  const BadThumbnail := "Invalid thumbnail URL"
  const PlayersCrossed := "Min players cannot exceed max players"

  /** The members of `gameSchema`, in shape order. `isActive` and `tags` always pass. */
  function GameChecks(d: GameData): (c: Check)
    ensures !c.aborted <==> d.title.Some? && d.description.Some? && d.thumbnail.Some?
                            && d.difficulty.Some? && ParseDifficulty(d.difficulty.value).Some?
  {
    Merge(StringCheck([Key("title")], Some(FormValue(d.title)), MinLength(3, ShortTitle)),
    Merge(StringCheck([Key("description")], Some(FormValue(d.description)), MinLength(10, ShortDescription)),
    Merge(EnumCheck(d.difficulty),
    Merge(MinCheck("duration", d.duration, 15.0, ShortDuration),
    Merge(MinCheck("price", d.price, 0.0, NegativePrice),
    Merge(MinCheck("maxPlayers", d.maxPlayers, 1.0, NoMaxPlayers),
    Merge(MinCheck("minPlayers", d.minPlayers, 1.0, NoMinPlayers),
    Merge(StringCheck([Key("thumbnail")], Some(FormValue(d.thumbnail)), UrlRule(BadThumbnail)),
          ImageChecks(d.images, 0)))))))))
  }

  /** Every issue `gameSchema` reports, in order. */
  function GameIssues(d: GameData): seq<Issue> {
    var c := GameChecks(d);
    if c.aborted then c.issues
    else if d.minPlayers > d.maxPlayers then c.issues + [Issue([Key("maxPlayers")], PlayersCrossed)]
    else c.issues
  }

  /** The conditions `gameSchema` accepts, stated directly. */
  predicate GameValid(d: GameData) {
    d.title.Some? && Utf16Length(d.title.value) >= 3
    && d.description.Some? && Utf16Length(d.description.value) >= 10
    && d.difficulty.Some? && d.difficulty.value in DifficultyNames
    && d.duration >= 15.0 && d.price >= 0.0 && d.maxPlayers >= 1.0 && d.minPlayers >= 1.0
    && d.thumbnail.Some? && IsUrl(d.thumbnail.value)
    && (forall i :: 0 <= i < |d.images| ==> IsUrl(d.images[i]))
    && d.minPlayers <= d.maxPlayers
  }

  /** `gameSchema.safeParse(d)`, reduced to its output or its first issue. The output
      carries the schema's members only. */
  function ParseGame(d: GameData): (r: Result<GameInput, Issue>)
    ensures r.Success? <==> GameValid(d)
    ensures r.Success? ==>
      && Some(r.value.title) == d.title && Some(r.value.description) == d.description
      && Some(DifficultyName(r.value.difficulty)) == d.difficulty
      && r.value.duration == d.duration && r.value.price == d.price
      && r.value.maxPlayers == d.maxPlayers && r.value.minPlayers == d.minPlayers
      && Some(r.value.thumbnail) == d.thumbnail
      && r.value.images == Some(d.images) && r.value.isActive == Some(d.isActive)
      && r.value.tags == Some(d.tags)
  {
    var issues := GameIssues(d);
    if issues != [] then Failure(issues[0])
    else
      Success(GameInput(d.title.value, d.description.value, ParseDifficulty(d.difficulty.value).value,
                        d.duration, d.price, d.maxPlayers, d.minPlayers, d.thumbnail.value,
                        Some(d.images), Some(d.isActive), Some(d.tags)))
  }

  /** A member's issue always comes before the cross-field refinement, which is the
      first issue exactly when every member passed and more players are required than
      allowed. */
  lemma PlayersCrossedIsLast(d: GameData)
    ensures GameChecks(d).issues != [] ==> ParseGame(d) == Failure(GameChecks(d).issues[0])
    ensures GameChecks(d).issues == [] ==>
      (ParseGame(d).Failure? <==> d.minPlayers > d.maxPlayers)
      && (ParseGame(d).Failure? ==> ParseGame(d).error == Issue([Key("maxPlayers")], PlayersCrossed))
  {
  }

  /** A short title is the first issue, whatever else is wrong. */
  lemma ShortTitleFirst(d: GameData)
    requires d.title.Some? && Utf16Length(d.title.value) < 3
    ensures ParseGame(d) == Failure(Issue([Key("title")], ShortTitle))
  {
  }

  /** With a good title, a missing description aborts and is the first issue. */
  lemma NullDescriptionFirst(d: GameData)
    requires d.title.Some? && Utf16Length(d.title.value) >= 3 && d.description.None?
    ensures ParseGame(d) == Failure(Issue([Key("description")], "Expected string, received null"))
  {
    var title := StringCheck([Key("title")], Some(FormValue(d.title)), MinLength(3, ShortTitle));
    var description := StringCheck([Key("description")], Some(FormValue(d.description)), MinLength(10, ShortDescription));
    assert title.issues == [];
    assert FormValue(d.description) == JNull;
    assert "Expected string, received " + TypeName(JNull) == "Expected string, received null";
    assert description.issues == [Issue([Key("description")], "Expected string, received null")];
  }
}
