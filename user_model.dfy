/** The User document of models/User.ts: the name and email setters (`trim`,
    `lowercase`), the role enum with its default, the validators and the
    collection with its unique email index, as used through `findOne` and
    `create`. */
module UserModel {
  import opened Wrappers
  import opened JsString
  import opened ModelErrors
  import opened Bcrypt

  datatype Role = AdminRole | UserRole

  function RoleName(r: Role): (s: string)
    ensures s == "admin" || s == "user"
  {
    match r
    case AdminRole => "admin"
    case UserRole => "user"
  }

  /** Membership in the enum `['admin', 'user']`. */
  function ParseRole(s: string): (r: Option<Role>)
    ensures r.Some? <==> s == "admin" || s == "user"
    ensures r.Some? ==> RoleName(r.value) == s
  {
    if s == "admin" then Some(AdminRole) else if s == "user" then Some(UserRole) else None
  }

  lemma RoleRoundTrip(r: Role)
    ensures ParseRole(RoleName(r)) == Some(r)
  {
  }

  const DefaultRole := "user"

  /** Case folding leaves white space alone, so a trimmed string stays trimmed. */
  lemma LowerKeepsTrimmed(t: string)
    requires IsTrimmed(t)
    ensures IsTrimmed(ToLower(t))
  {
    if t != [] {
      var l := ToLower(t);
      assert l[0] == LowerChar(t[0]) && l[|l| - 1] == LowerChar(t[|t| - 1]);
    }
  }

  /** The email setters, `trim` and then `lowercase`. */
  function NormalizeEmail(email: string): (r: string)
    ensures |r| <= |email|
    ensures IsTrimmed(r)
    ensures forall i :: 0 <= i < |r| ==> !('A' <= r[i] <= 'Z')
  {
    LowerKeepsTrimmed(Trim(email));
    ToLower(Trim(email))
  }

  lemma LowerOfLower(s: string)
    requires forall i :: 0 <= i < |s| ==> !('A' <= s[i] <= 'Z')
    ensures ToLower(s) == s
  {
  }

  /** Normalising twice changes nothing more: a stored email is its own lookup key. */
  lemma NormalizeEmailIdempotent(email: string)
    ensures NormalizeEmail(NormalizeEmail(email)) == NormalizeEmail(email)
  {
    var r := NormalizeEmail(email);
    TrimOfTrimmed(r);
    LowerOfLower(r);
  }

  /** What `User.create` is given; an absent role takes the default. */
  datatype UserDraft = UserDraft(name: string, email: string, password: Digest, role: Option<string>)

  /** A stored user. */
  datatype User = User(
    id: nat, name: string, email: string, password: Digest, role: Role,
    createdAt: int, updatedAt: int)

  function RoleText(d: UserDraft): string {
    if d.role.Some? then d.role.value else DefaultRole
  }

  /** The validators' failures in schema order, on the values after the setters. The
      password path holds a digest, which is never empty and always longer than six
      characters, so its validators pass. */
  function UserErrors(d: UserDraft): (r: seq<PathError>)
    ensures r == [] <==>
      Trim(d.name) != "" && NormalizeEmail(d.email) != "" && ParseRole(RoleText(d)).Some?
    ensures Trim(d.name) == "" ==> r[0] == PathError("name", "Name is required")
  {
    var role := RoleText(d);
    Validator(Trim(d.name) != "", "name", "Name is required")
    + Validator(NormalizeEmail(d.email) != "", "email", "Email is required")
    + Validator(ParseRole(role).Some?, "role",
               "`" + role + "` is not a valid enum value for path `role`.")
  }

  /** The document `create` stores for a draft that validates. */
  function Stored(d: UserDraft, id: nat, now: int): (u: User)
    requires UserErrors(d) == []
    ensures u.name == Trim(d.name) && u.name != "" && IsTrimmed(u.name)
    ensures u.email == NormalizeEmail(d.email) && u.email != ""
    ensures RoleName(u.role) == RoleText(d)
    ensures d.role.None? ==> u.role == UserRole
    ensures u.password == d.password && u.id == id
    ensures u.createdAt == now && u.updatedAt == now
  {
    User(id, Trim(d.name), NormalizeEmail(d.email), d.password, ParseRole(RoleText(d)).value, now, now)
  }

  lemma StoredIsStored(d: UserDraft, id: nat, now: int)
    requires UserErrors(d) == []
    ensures IsStoredUser(Stored(d, id, now))
  {
    NormalizeEmailIdempotent(d.email);
  }

  /** `findOne({ email })` after the setters have cast the filter value. */
  function FindEmail(users: seq<User>, email: string): (r: Option<User>)
    ensures r.None? <==> forall i :: 0 <= i < |users| ==> users[i].email != email
    ensures r.Some? ==> r.value in users && r.value.email == email
  {
    if users == [] then None
    else if users[0].email == email then Some(users[0])
    else FindEmail(users[1..], email)
  }

  /** A user added after an unsuccessful lookup is what the same lookup finds next. */
  lemma {:induction false} FindEmailAppend(users: seq<User>, u: User)
    requires FindEmail(users, u.email).None?
    ensures FindEmail(users + [u], u.email) == Some(u)
  {
    if users != [] {
      assert (users + [u])[1..] == users[1..] + [u];
      FindEmailAppend(users[1..], u);
    }
  }

  /** With distinct emails, looking up a stored user's email finds that user. */
  lemma FindEmailUnique(users: seq<User>, nextId: nat, u: User)
    requires UsersInvariant(users, nextId) && u in users
    ensures FindEmail(users, u.email) == Some(u)
  {
    var w := FindEmail(users, u.email).value;
    var i :| 0 <= i < |users| && users[i] == w;
    var j :| 0 <= j < |users| && users[j] == u;
    if i < j {
      assert users[i].email != users[j].email;
    } else if j < i {
      assert users[j].email != users[i].email;
    }
  }

  /** What holds of the stored users: ids below the next one and distinct, emails
      distinct (the unique index) and in their normal form, names trimmed and present. */
  ghost predicate UsersInvariant(users: seq<User>, nextId: nat) {
    && (forall i :: 0 <= i < |users| ==> users[i].id < nextId)
    && (forall i, j :: 0 <= i < j < |users| ==> users[i].id != users[j].id)
    && (forall i, j :: 0 <= i < j < |users| ==> users[i].email != users[j].email)
    && (forall i :: 0 <= i < |users| ==> IsStoredUser(users[i]))
  }

  /** A document as the setters and validators leave it. */
  predicate IsStoredUser(u: User) {
    u.name != "" && IsTrimmed(u.name) && u.email != "" && NormalizeEmail(u.email) == u.email
  }

  lemma InsertKeepsIds(users: seq<User>, nextId: nat, u: User)
    requires forall i :: 0 <= i < |users| ==> users[i].id < nextId
    requires forall i, j :: 0 <= i < j < |users| ==> users[i].id != users[j].id
    requires u.id == nextId
    ensures forall i :: 0 <= i < |users + [u]| ==> (users + [u])[i].id < nextId + 1
    ensures forall i, j :: 0 <= i < j < |users + [u]| ==> (users + [u])[i].id != (users + [u])[j].id
  {
  }

  lemma InsertKeepsEmails(users: seq<User>, u: User)
    requires forall i, j :: 0 <= i < j < |users| ==> users[i].email != users[j].email
    requires forall i :: 0 <= i < |users| ==> users[i].email != u.email
    ensures forall i, j :: 0 <= i < j < |users + [u]| ==> (users + [u])[i].email != (users + [u])[j].email
  {
  }

  lemma InsertKeepsStored(users: seq<User>, u: User)
    requires forall i :: 0 <= i < |users| ==> IsStoredUser(users[i])
    requires IsStoredUser(u)
    ensures forall i :: 0 <= i < |users + [u]| ==> IsStoredUser((users + [u])[i])
  {
  }

  lemma InsertKeepsInvariant(users: seq<User>, nextId: nat, u: User)
    requires UsersInvariant(users, nextId)
    requires u.id == nextId && IsStoredUser(u)
    requires FindEmail(users, u.email).None?
    ensures UsersInvariant(users + [u], nextId + 1)
  {
    InsertKeepsIds(users, nextId, u);
    InsertKeepsEmails(users, u);
    InsertKeepsStored(users, u);
  }

  /** Why `create` refuses a draft: its validators, or the unique email index. */
  datatype CreateError = Invalid(errors: seq<PathError>) | DuplicateKey

  /** The users collection. */
  class UserCollection {
    var users: seq<User>
    var nextId: nat

    ghost predicate Valid()
      reads this
    {
      UsersInvariant(users, nextId)
    }

    constructor()
      ensures Valid() && users == []
    {
      users := [];
      nextId := 0;
    }

    /** `User.findOne({ email })`: the filter goes through the email setters. */
    function FindOne(email: string): (r: Option<User>)
      reads this
      ensures r.Some? ==> r.value in users && r.value.email == NormalizeEmail(email)
      ensures r.None? <==> forall u :: u in users ==> u.email != NormalizeEmail(email)
    {
      FindEmail(users, NormalizeEmail(email))
    }

    /** Storing a document that the validators and the unique index accept. */
    method Insert(u: User)
      requires Valid() && u.id == nextId && IsStoredUser(u) && FindEmail(users, u.email).None?
      modifies this
      ensures Valid()
      ensures users == old(users) + [u] && nextId == old(nextId) + 1
    {
      InsertKeepsInvariant(users, nextId, u);
      users, nextId := users + [u], nextId + 1;
    }

    /** `User.create(draft)`: validation first, then the unique index, then the insert
        with both timestamps set to now. */
    method Create(d: UserDraft, now: int) returns (r: Result<User, CreateError>)
      requires Valid()
      modifies this
      ensures Valid()
      ensures UserErrors(d) != [] ==>
        r == Failure(Invalid(UserErrors(d))) && users == old(users) && nextId == old(nextId)
      ensures UserErrors(d) == [] && FindEmail(old(users), NormalizeEmail(d.email)).Some? ==>
        r == Failure(DuplicateKey) && users == old(users) && nextId == old(nextId)
      ensures UserErrors(d) == [] && FindEmail(old(users), NormalizeEmail(d.email)).None? ==>
        && r == Success(Stored(d, old(nextId), now))
        && users == old(users) + [r.value] && nextId == old(nextId) + 1
    {
      var errors := UserErrors(d);
      if errors != [] {
        return Failure(Invalid(errors));
      }
      var u := Stored(d, nextId, now);
      if FindEmail(users, u.email).Some? {
        return Failure(DuplicateKey);
      }
      StoredIsStored(d, nextId, now);
      Insert(u);
      return Success(u);
    }
  }
}
