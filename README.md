# Escape-room admin dashboard, modelled in Dafny

This project models the core of a Next.js admin dashboard for escape-room games.

- **Session cookie and middleware.** The session cookie is the URI-encoded JSON of the signed-in user. The middleware uses it to redirect visitors between the login pages, the dashboard and the unauthorised page.
- **Validation.** The zod schemas check logins, registrations and games.
- **Stored models.** The Mongoose models store games and users, with their setters, defaults and validators.
- **Game server actions.** These list, fetch, create, update, delete and toggle games.
- **Authentication.** Sign-in and registration come in two forms: the authentication server actions and the login and register API routes.
- **Client state.** The client state covers:
  - the game form (its question list, the confirm-before-close flags, and the FormData it submits);
  - the comma-separated list inputs of the media section;
  - the search and difficulty filter of the games list;
  - the pager;
  - the statistics on the dashboard page.

## Modules and files

Each source file has its own module:

- `middleware.dfy`, `session.dfy`, `validations.dfy`
- `game_model.dfy`, `user_model.dfy`
- `game_actions.dfy`, `auth_actions.dfy`, `auth_routes.dfy`
- `game_form.dfy`, `media_info.dfy`, `games_list.dfy`, `pagination.dfy`, `dashboard.dfy`

These modules rest on small models of the JavaScript behaviour the code relies on:

- `js_string.dfy`: `trim`, `split`, `join`, `toLowerCase`, `includes`, and UTF-16 length.
- `js_number.dfy`: `Number(text)` and `String(number)`.
- `json.dfy`: `JSON.stringify` and `JSON.parse`, with a proved round trip.
- `uri.dfy`: `encodeURIComponent` and `decodeURIComponent` over UTF-8, with a proved round trip.
- `bcrypt.dfy`: hashing as bcryptjs does it. The key is the password's UTF-8 bytes and one NUL byte, repeated cyclically and cut at 72 bytes.
- `model_errors.dfy`: the validation messages of Mongoose.

## How effects are modelled

Classes model the parts of the source that change state in place:

- the games collection and the users collection;
- the cookie store of a request;
- the state of the form hook and of the games list.

Their methods state the whole new state in terms of specification functions. Lemmas prove what those functions promise.

Some effects are parameters instead:

- The clock is `now`.
- The salt bcrypt draws is `salt`.
- `NODE_ENV === 'production'` is `production`.
- A failure of the database or of bcrypt is `fault`.

## Model

| member | source | states |
|---|---|---|
| JsString.Trim | app/actions/games.ts:42 | the result is trimmed and no longer than the input |
| JsString.TrimInfix | app/actions/games.ts:42 | the trimmed text is a contiguous piece of the input, starting where the leading white space ends |
| JsString.TrimEmpty | app/actions/games.ts:42 | trimming gives the empty text exactly when the input is all white space |
| JsString.SplitJoin | app/actions/games.ts:42 | splitting on a separator that no part contains gives back the parts that were joined with it |
| JsString.CommaList | app/actions/games.ts:42 | split on commas, trim, drop empties: every item is non-empty, trimmed and free of commas |
| JsString.Utf16Length | lib/validations.ts:5 | the length zod's `min` measures lies between the number of code points and twice that |
| JsNumber.NumberToStringRoundTrip | app/actions/games.ts:14-17 | `Number(String(n))` gives back any integer `n` |
| JsNumber.ToNumberDigits | app/actions/games.ts:14 | `Number` of a string of decimal digits is the value of those digits |
| JsNumber.NegativeLiteral | app/actions/games.ts:14-17 | `Number` of a minus sign followed by decimal digits is the negated value of the digits |
| JsonCodec.ParseSerialize | lib/session.ts:19-32 | `JSON.parse(JSON.stringify(j))` gives back every well-formed value |
| JsonCodec.GetSpec | lib/session.ts:20 | a member lookup finds nothing exactly when no member has that key, and otherwise finds the value of the last such member |
| JsonCodec.IntLexemeIsNumber | lib/session.ts:29 | the decimal text of an integer, such as the `createdAt` timestamp, is a JSON number |
| UriComponent.DecodeEncode | lib/session.ts:19-32 | `decodeURIComponent(encodeURIComponent(s))` gives back `s` |
| Bcrypt.Hash | app/actions/auth.ts:77 | a digest keeps the cost and salt it was made with and accepts the password it was made from |
| Bcrypt.Key | app/actions/auth.ts:22 | the key bcrypt reads is always 72 bytes long; KeyPrefix and KeyEnd state its contents |
| Bcrypt.KeyPrefix | app/actions/auth.ts:22 | a password of under 72 bytes starts its key with its own bytes and the NUL; a longer one gives its first 72 bytes |
| Bcrypt.KeyEnd | app/actions/auth.ts:22 | for a password without U+0000 that fits in 72 bytes, the key's first zero byte marks where the password's bytes end |
| Bcrypt.ShortPasswordsExact | app/actions/auth.ts:22 | up to 72 UTF-8 bytes and without U+0000, a digest accepts exactly its own password |
| Bcrypt.NulRepeatCollides | app/actions/auth.ts:22 | a password, U+0000 and the same password again, such as `abcdef\u0000abcdef`, is accepted by a digest of the password alone |
| Bcrypt.LongPasswordsTruncated | app/actions/auth.ts:22 | past 72 bytes, any password that shares the first 72 bytes is accepted |
| Session.CreateSession | lib/session.ts:26-33 | the cookie decodes to the JSON of `{ user, createdAt }`, and that JSON parses back to the same object |
| Session.PayloadWellFormed | lib/session.ts:27-30 | the `{ user, createdAt }` object is a well-formed JSON value |
| Session.CookieText | lib/session.ts:19-32 | the cookie text of a well-formed value decodes back to its JSON, which parses back to the value |
| Session.GetSession | lib/session.ts:11-24 | no cookie means no session; a session that is found is truthy and is the `user` member of a non-null payload that the cookie decodes and parses to |
| Session.TruthyUserSession | lib/session.ts:18-20 | a cookie that decodes and parses to a payload with a truthy `user` reads as exactly that `user` |
| Session.AnyPayloadReads | lib/session.ts:11-24 | the cookie is not signed: any well-formed payload with a truthy `user`, encoded as `createSession` encodes it, reads as that `user` |
| Session.ClearSession | lib/session.ts:35-37 | the cleared cookie reads back as no session |
| Session.SessionRoundTrip | lib/session.ts:11-33 | reading a created cookie gives back exactly the user that was stored |
| Session.NoUserNoSession | lib/session.ts:19-20 | a readable cookie whose `user` is missing or falsy gives no session |
| Session.AdminOfUser | middleware.ts:24-28 | a stored user passes the admin check exactly when its role is `admin` |
| Session.IsAdmin | middleware.ts:24-25 | `session.role === 'admin'`: only an object whose `role` member is the text `admin` passes, and such a session is truthy |
| Middleware.Guard | middleware.ts:5-30 | each of the three redirects happens exactly under its own condition; the only targets are `/dashboard`, `/login` and `/unauthorized` |
| Middleware.Middleware | middleware.ts:33-35 | a path the matcher excludes is passed through |
| Middleware.SessionOnPublicRoute | middleware.ts:14-16 | anyone signed in who opens `/login` or `/register` is sent to `/dashboard` |
| Middleware.NoSessionPassesPublicAndRoot | middleware.ts:19-21 | without a session, public pages and `/` are passed through |
| Middleware.PrefixIsPublic | middleware.ts:11 | the public test is a prefix test, so `/login-help` and `/registered` are public too |
| Middleware.AdminPassesDashboard | middleware.ts:24-28 | an administrator reaches every `/dashboard` page |
| Middleware.RedirectsSettle | middleware.ts:14-30 | following redirects with the same session reaches a page that passes after at most two redirects (a non-admin goes from a public page to `/dashboard`, then to `/unauthorized`) |
| Middleware.NoRedirectLoops | middleware.ts:14-30 | `/login` without a session, `/unauthorized` for a non-admin, and `/dashboard` for an admin are all passed through |
| Middleware.ExcludedPaths | middleware.ts:33-35 | with any cookie or none, `/api…`, `/_next/static…`, `/_next/image…` and `/favicon.ico…` paths are passed through |
| Middleware.AdminCookieOpensDashboard | middleware.ts:5-30 | the cookie created for an administrator opens `/dashboard` |
| Middleware.ForgedAdminCookie | middleware.ts:5-28 | any cookie written like a session whose `user` has the role `admin` opens `/dashboard`, whether or not sign-in wrote it |
| Validations.StringCheck | lib/validations.ts:4-5 | a string member aborts the object exactly when it is absent or not a string, and reports at most one issue, none exactly when its rule holds |
| Validations.MinCheck | lib/validations.ts:22-25 | a number check never aborts, and reports an issue exactly when the value is below its minimum |
| Validations.ParseLogin | lib/validations.ts:3-6 | the login schema accepts exactly a valid email and a password of at least 6 UTF-16 units; the email it returns is the body's |
| Validations.LoginEmailFirst | lib/validations.ts:3-6 | a bad email is the first issue reported |
| Validations.RegisterChecks | lib/validations.ts:8-12 | when no member aborts, all four members are present as strings |
| Validations.ParseRegister | lib/validations.ts:8-16 | the register schema accepts exactly a name of at least 2 units, a valid email, a password of at least 6 units and a matching confirmation, and returns those members |
| Validations.PasswordsMustMatch | lib/validations.ts:13-16 | with good members, a different confirmation is the only issue, and it is on `confirmPassword` |
| Validations.MissingNameAborts | lib/validations.ts:8-16 | a missing name gives `Required`, and the password refinement is not run |
| Validations.ShortNameChecks | lib/validations.ts:9 | a short name is the only member issue and does not abort |
| Validations.ShortNameThenMismatch | lib/validations.ts:8-16 | the name's issue is reported first and the refinement's issue after it |
| Validations.EnumCheck | lib/validations.ts:21 | the difficulty passes exactly when it is one of the four names; otherwise the object aborts |
| Validations.ImageChecks | lib/validations.ts:27 | the image issues are empty exactly when every image is a URL |
| Validations.GameChecks | lib/validations.ts:18-29 | the game object aborts exactly when the title, description or thumbnail is missing or the difficulty is not in the enum |
| Validations.ParseGame | lib/validations.ts:18-33 | the game schema accepts exactly the stated bounds, URLs and `minPlayers <= maxPlayers`, and returns the input's values |
| Validations.PlayersCrossedIsLast | lib/validations.ts:30-33 | a member issue always comes before the refinement; with clean members, the refinement fails exactly when min exceeds max, and it fails on `maxPlayers` |
| Validations.ShortTitleFirst | lib/validations.ts:19 | a short title is the first issue, whatever else is wrong |
| Validations.NullDescriptionFirst | lib/validations.ts:20 | with a good title, a missing description is the first issue |
| GameModel.DifficultyName | models/Game.ts:31-35 | every difficulty has one of the four enum names |
| GameModel.ParseDifficulty | models/Game.ts:31-35 | a text is a difficulty exactly when it is one of the four names, and then it names that difficulty |
| GameModel.DifficultyRoundTrip | models/Game.ts:31-35 | name and parse are inverse |
| GameModel.Cast | models/Game.ts:20-76 | the stored title is the trimmed title; `images` and `tags` default to empty and `isActive` to true; every other field is copied |
| GameModel.ValidationErrors | models/Game.ts:22-55 | there are no errors exactly when every required field is present and every minimum holds |
| GameModel.BlankTitleRefused | models/Game.ts:22-26 | a title of white space is trimmed to nothing, and `Game title is required` is the first error |
| GameModel.NoCrossFieldCheck | models/Game.ts:46-55 | the model itself accepts more minimum players than maximum players |
| GameActions.ParseArrayInput | app/actions/games.ts:36-44 | an empty input gives `[]`; a JSON array gives its items as text; other JSON gives `[]`; text that is not JSON gives the comma list |
| GameActions.ParseArrayOfStrings | app/actions/games.ts:36-44 | the JSON of a string array is read back as the same strings |
| GameActions.ParseQuestions | app/actions/games.ts:46-54 | an input that parses to a JSON array gives its elements; any other input gives `[]` |
| GameActions.ExtractGameData | app/actions/games.ts:9-28 | each field is the form's value; numbers are `Number(x) \|\| 0`; arrays go through `parseArrayInput`; `isActive` is true exactly for the text `true` |
| GameActions.MissingNumberIsZero | app/actions/games.ts:14-17 | an absent or non-numeric number field becomes 0 |
| GameActions.Validated | app/actions/games.ts:109-152 | a schema failure gives its first message; otherwise the cast document is checked by the model, and a success satisfies the model schema |
| GameActions.OnlyTitleCanFailModel | app/actions/games.ts:109-152 | after the schema accepts, the only model check that can fail is the trimmed title |
| GameActions.BlankTitleMessage | app/actions/games.ts:109-152 | a title of white space that passes zod is refused with the model's `Game title is required` message |
| GameActions.StoredTitleCanBeShort | app/actions/games.ts:112 | zod measures the title before trimming, so a stored title can be shorter than 3 |
| GameActions.QueryFor | app/actions/games.ts:60-71 | the search filter is set exactly for a non-empty search; the difficulty filter is set exactly for a non-empty value other than `all` |
| GameActions.Select | app/actions/games.ts:74-75 | the selection holds exactly the games that match the query |
| GameActions.SelectAppend | app/actions/games.ts:75 | selection keeps the order of the collection |
| GameActions.InsertByAgeSorted | app/actions/games.ts:76 | inserting into a newest-first list keeps it newest first |
| GameActions.SortNewestFirst | app/actions/games.ts:76 | sorting keeps the length |
| GameActions.SortNewestFirstCorrect | app/actions/games.ts:76 | the sort is newest first and is a permutation of its input |
| GameActions.SortNewestFirstOrdered | app/actions/games.ts:76 | the sorted list is newest first |
| GameActions.SortNewestFirstPermutes | app/actions/games.ts:76 | the sorted list has the same games, each as often, as its input |
| GameActions.LimitSize | app/actions/games.ts:78 | a limit of 0 means no limit, and a negative limit acts as its absolute value |
| GameActions.Window | app/actions/games.ts:77-78 | skip then limit: the contiguous slice from `skip` whose length is what `limit` lets through of the rest; empty past the end |
| GameActions.TotalPages | app/actions/games.ts:88 | `Math.ceil(total / limit)`: the least page count that covers the total; Infinity or NaN for a limit of 0 |
| GameActions.PagePastEnd | app/actions/games.ts:73-78 | a page past the last one is empty |
| GameActions.DefaultPage | app/actions/games.ts:57 | the default page holds the first six games |
| GameActions.FindIndex | app/actions/games.ts:100 | finds the position of the game with the id, or reports that there is none |
| GameActions.Toggled | app/actions/games.ts:173-174 | the flag flips; the id and creation time stay; the update time is now |
| GameActions.ToggleTwice | app/actions/games.ts:173-174 | toggling twice restores the fields |
| GameActions.ToggleKeepsSchema | app/actions/games.ts:173-174 | toggling keeps a valid document valid |
| GameActions.AppendKeepsInvariant | app/actions/games.ts:119 | creating a document keeps ids unique, below the next id, and every document valid |
| GameActions.ReplaceKeepsInvariant | app/actions/games.ts:139-142 | replacing a document with one of the same id keeps the store invariant |
| GameActions.RemoveKeepsInvariant | app/actions/games.ts:157 | deleting a document keeps the store invariant |
| GameActions.GameStore.GetGames | app/actions/games.ts:57-95 | a negative skip fails; otherwise the result is the total of matches and the newest-first window of them, with the page, the limit and the page count |
| GameActions.GameStore.GetGameById | app/actions/games.ts:97-107 | `Game not found` exactly when no game has the id; otherwise a stored game with that id |
| GameActions.GameStore.Insert | app/actions/games.ts:119 | a valid document is appended under the next id with both timestamps now, and the store invariant holds |
| GameActions.GameStore.CreateGame | app/actions/games.ts:109-127 | a refused form changes nothing and returns its message; an accepted one appends the cast document under a fresh id |
| GameActions.GameStore.UpdateGame | app/actions/games.ts:129-152 | a refused form changes nothing; an unknown id gives `Game not found`; otherwise the game's fields are replaced in place and its id and creation time are kept |
| GameActions.GameStore.FindByIdAndUpdate | app/actions/games.ts:139-144 | an unknown id changes nothing; otherwise only that game changes |
| GameActions.GameStore.DeleteGame | app/actions/games.ts:154-165 | an unknown id changes nothing; otherwise exactly that game is removed |
| GameActions.GameStore.ToggleGameStatus | app/actions/games.ts:167-181 | an unknown id changes nothing; otherwise only that game's flag flips |
| UserModel.RoleName | models/User.ts:32-36 | a role is named `admin` or `user` |
| UserModel.ParseRole | models/User.ts:32-36 | a text is a role exactly when it is `admin` or `user` |
| UserModel.RoleRoundTrip | models/User.ts:32-36 | name and parse are inverse |
| UserModel.NormalizeEmail | models/User.ts:20-26 | the stored email is trimmed, has no capital ASCII letters, and is no longer than the input |
| UserModel.NormalizeEmailIdempotent | models/User.ts:20-26 | normalising twice is normalising once |
| UserModel.UserErrors | models/User.ts:15-36 | there are no errors exactly when the trimmed name and email are non-empty and the role is valid; a blank name is the first error |
| UserModel.Stored | models/User.ts:15-40 | the stored user has the trimmed name, the normalised email, the role (default `user`), the digest, and both timestamps set to now |
| UserModel.StoredIsStored | models/User.ts:15-26 | what the setters store meets the stored-user invariant |
| UserModel.FindEmail | models/User.ts:20-26 | finds a user with that email, or reports that there is none |
| UserModel.FindEmailAppend | models/User.ts:23 | a new email appended is then found |
| UserModel.FindEmailUnique | models/User.ts:23 | under the unique index, the email of a stored user finds that user |
| UserModel.InsertKeepsInvariant | models/User.ts:20-26 | inserting a fresh, well-formed user keeps ids and emails unique |
| UserModel.UserCollection.FindOne | app/actions/auth.ts:15 | the filter goes through the email setters: found exactly when some stored email equals the normalised input |
| UserModel.UserCollection.Insert | models/User.ts:23 | appends the user and advances the next id |
| UserModel.UserCollection.Create | models/User.ts:15-40 | invalid: refused with the validation errors; duplicate email: refused by the index; otherwise the stored user is appended |
| AuthActions.SessionCookie | app/actions/auth.ts:42-48 | http-only, `lax`, path `/`, seven days, secure exactly in production |
| AuthActions.CookieJar.SetSession | app/actions/auth.ts:42-48 | only the `session` cookie is set, with the session options, and it then reads back as the value |
| AuthActions.CookieJar.StartSession | app/actions/auth.ts:36-48 | the cookie set holds the created session, which reads back as the user's JSON |
| AuthActions.SessionUserOf | app/actions/auth.ts:29-34 | the session user carries the id as text, the name, the email and the role, and never the digest |
| AuthActions.LoginUser | app/actions/auth.ts:15-26 | a signed-in user is stored, has the normalised email and accepts the password; an unknown email signs in no one (LoginUserExact gives the converse) |
| AuthActions.LoginUserExact | app/actions/auth.ts:15-26 | a login succeeds exactly when a stored user has the normalised email and accepts the password |
| AuthActions.LoginAction | app/actions/auth.ts:10-55 | a fault gives `Something went wrong`; bad credentials give `Invalid credentials`; both leave the cookies unchanged; success sets the session cookie, which reads back as the user |
| AuthActions.CatchAsWritten | app/actions/auth.ts:88-96 | the catch block as written: it throws exactly on a Mongoose validation error or an empty issue list, and otherwise answers the first zod issue or `Something went wrong` |
| AuthActions.Catch | app/actions/auth.ts:88-96 | the first message of a zod or Mongoose validation error, otherwise `Something went wrong` |
| AuthActions.AdminDraft | app/actions/auth.ts:77-85 | the draft is an administrator whose digest accepts the password |
| AuthActions.AdminDraftErrors | app/actions/auth.ts:80-85 | for a valid email, the draft is refused exactly when the name is blank, and then only on `name` |
| AuthActions.BlankNameParses | app/actions/auth.ts:65 | a name of two spaces passes the register schema |
| AuthActions.BlankNameRefused | app/actions/auth.ts:80-85 | `User.create` refuses that draft with `Name is required` |
| AuthActions.BlankNameCrashes | app/actions/auth.ts:91-93 | that refusal makes the catch block as written throw, while the corrected catch block answers `Name is required` |
| AuthActions.NewAdmin | app/actions/auth.ts:77-85 | the stored administrator has the normalised email, the trimmed name and the digest of the password |
| AuthActions.RegisterAction | app/actions/auth.ts:57-97 | schema failure gives the first issue; a fault gives `Something went wrong`; a known email gives `User already exists`; a blank name gives `Name is required`; otherwise one administrator is appended; only success changes the users |
| AuthActions.LogoutAction | app/actions/auth.ts:99-102 | removes the session cookie, and no session is read afterwards |
| AuthActions.GetSessionUser | app/actions/auth.ts:104-118 | no cookie gives null; a user found is truthy and is the `user` member of what the `session` cookie decodes and parses to |
| AuthActions.RegisterThenLogin | app/actions/auth.ts:10-97 | a registered administrator can sign in with its password, and its session opens `/dashboard` |
| AuthActions.SameAnswerForUnknownAndWrong | app/actions/auth.ts:17-26 | an unknown email and a wrong password get the same answer |
| AuthRoutes.Destructure | app/api/auth/login/route.ts:9 | destructuring anything but an object gives no member; DestructureSpec states the rest |
| AuthRoutes.DestructureSpec | app/api/auth/login/route.ts:9 | a destructured member is absent exactly when the body is not an object or has no member with that key, and otherwise is the value of such a member |
| AuthRoutes.Missing | app/api/auth/login/route.ts:11 | `!value`: an absent member, `null` and the empty text are missing; a non-empty text, an object or an array is not |
| AuthRoutes.LoginRoute | app/api/auth/login/route.ts:7-73 | the status is 200, 400, 401 or 500; a cookie is set exactly on 200; 400 exactly when the body is an object missing email or password |
| AuthRoutes.RouteFound | app/api/auth/login/route.ts:20-64 | once the stored user with the normalised email is found and accepts the password, the route answers 200 with `success` and the session user and sets that user's session cookie |
| AuthRoutes.LoginRouteAgreesWithAction | app/api/auth/login/route.ts:20-63 | for string credentials the route decides as `loginAction` does, with the same user and cookie |
| AuthRoutes.MissingFieldsBeforeLookup | app/api/auth/login/route.ts:11-16 | a missing password is answered 400 whatever the database holds or does |
| AuthRoutes.RegisterCatchAsWritten | app/api/auth/register/route.ts:50-64 | the route's catch block as written: it gives no answer (throws) exactly on a Mongoose validation error or an empty issue list, and otherwise answers 400 or 500 without a cookie |
| AuthRoutes.RegisterCatch | app/api/auth/register/route.ts:50-64 | 400 with the first validation message of either library, 500 otherwise |
| AuthRoutes.CreatedResponse | app/api/auth/register/route.ts:37-49 | status 201, no cookie, and a `user` member holding the id, name, email and role, with no `password` member |
| AuthRoutes.RegisterRoute | app/api/auth/register/route.ts:7-65 | an unreadable body gives 500; schema failure gives 400 with the issue; a known email gives 400; success gives 201 with the new administrator appended; any other answer leaves the users unchanged |
| AuthRoutes.BlankNameRouteCrashes | app/api/auth/register/route.ts:53-58 | on a blank name the catch block as written throws, while the corrected one answers 400 `Name is required` |
| GameForm.SetMember | components/games/game-form/useGameForm.ts:119 | after the spread with an override, the key holds the value and every other key is unchanged |
| GameForm.WithGet | components/games/game-form/useGameForm.ts:89-107 | after a member is added, looking up its key finds the new value and every other key finds what it found before |
| GameForm.NewQuestion | components/games/game-form/useGameForm.ts:89-107 | the new question is an object; its members are stated by NewQuestionIndex and NewQuestionShape |
| GameForm.NewQuestionIndex | components/games/game-form/useGameForm.ts:95 | a new question's index is the old length |
| GameForm.NewQuestionShape | components/games/game-form/useGameForm.ts:89-107 | it is named `Objective #n+1`, of type `textChoices`, with empty options, hints and images |
| GameForm.AppendIndexed | components/games/game-form/useGameForm.ts:108 | appending a question whose index is the length keeps every index equal to its position |
| GameForm.AddKeepsIndexed | components/games/game-form/useGameForm.ts:89-110 | adding a question keeps indices equal to positions |
| GameForm.Without | components/games/game-form/useGameForm.ts:113 | removes exactly the question at the index, keeps the others in order, and changes nothing when the index is out of range |
| GameForm.Renumber | components/games/game-form/useGameForm.ts:113 | keeps the number of questions; RenumberIndexed states what it does to each |
| GameForm.RenumberIndexed | components/games/game-form/useGameForm.ts:113 | renumbering sets every index to its position and changes no other member |
| GameForm.RemoveQuestionSpec | components/games/game-form/useGameForm.ts:112-115 | removal drops one question, renumbers the rest, and keeps their other members |
| GameForm.Updated | components/games/game-form/useGameForm.ts:117-122 | only the question at the index changes, and only in the one field |
| GameForm.UpdateKeepsIndexed | components/games/game-form/useGameForm.ts:117-122 | an update of any field other than `index` keeps indices equal to positions |
| GameForm.Then | components/games/game-form/useGameForm.ts:131-137 | each `fd.set` overrides the key with the encoded value |
| GameForm.EncodeValue | components/games/game-form/useGameForm.ts:132-136 | text is sent as it is, a flag as `true` or `false`, a number as `String(n)`, and an array as JSON that `parseArrayInput` reads back as the same items |
| GameForm.NumberSurvives | components/games/game-form/useGameForm.ts:135 | the server reads back a sent integer unchanged |
| GameForm.EncodedEntries | components/games/game-form/useGameForm.ts:130-137 | the FormData holds each of the eleven values, encoded as the source encodes them |
| GameForm.EncodedSchema | components/games/game-form/useGameForm.ts:131-137 | setting the eleven entries in order gives the FormData that maps each key to its encoded value |
| GameForm.SchemaFormGet | components/games/game-form/useGameForm.ts:131-137 | in that FormData, each of the eleven keys reads back the text set for it |
| GameForm.EntriesForm | components/games/game-form/useGameForm.ts:131-137 | the form's values are sent as their text, numbers through `String`, lists through `JSON.stringify`, the flag as `true` or `false` |
| GameForm.QuestionsLast | components/games/game-form/useGameForm.ts:138 | setting `questions` last leaves the other eleven entries as they were |
| GameForm.NumbersRead | app/actions/games.ts:14-17 | the four sent integers are read back by `Number(x) \|\| 0` unchanged |
| GameForm.ListsRead | app/actions/games.ts:19-26 | the sent images, tags and questions are read back by `parseArrayInput` and `JSON.parse` unchanged |
| GameForm.ExtractSent | app/actions/games.ts:9-28 | from a FormData holding the sent texts, `extractGameData` recovers every value the form held |
| GameForm.SubmissionRoundTrip | components/games/game-form/useGameForm.ts:130-138 | what `extractGameData` reads back from the submitted FormData equals what the form held, questions included |
| GameForm.EncodeSubmission | components/games/game-form/useGameForm.ts:130-138 | the loop builds the FormData of the entries in turn and then sets `questions` |
| GameForm.FormState.constructor | components/games/game-form/useGameForm.ts:19-24 | initial state: the game's questions, not dirty, no confirmation, not loading, no error |
| GameForm.FormState.Open | components/games/game-form/useGameForm.ts:50-73 | opening reloads the questions and clears the dirty flag |
| GameForm.FormState.HandleAttemptClose | components/games/game-form/useGameForm.ts:75-81 | closes exactly when neither dirty flag is set; otherwise asks for confirmation |
| GameForm.FormState.HandleConfirmDiscard | components/games/game-form/useGameForm.ts:83-87 | clears the dirty flag and the confirmation |
| GameForm.FormState.AddQuestion | components/games/game-form/useGameForm.ts:89-110 | appends the new question, keeps indices equal to positions, and marks the form dirty |
| GameForm.FormState.RemoveQuestion | components/games/game-form/useGameForm.ts:112-115 | the list becomes the renumbered list without the question; it is indexed; the form is dirty |
| GameForm.FormState.UpdateQuestion | components/games/game-form/useGameForm.ts:117-122 | the list becomes the updated list and the form is dirty |
| GameForm.FormState.BeginSubmit | components/games/game-form/useGameForm.ts:124-138 | sets loading, clears the error, and produces the FormData with the questions |
| GameForm.FormState.Settle | components/games/game-form/useGameForm.ts:140-158 | closes exactly on success; a refusal shows its message; an exception shows the fixed message; loading always ends |
| MediaInfo.Shown | components/games/form-sections/MediaInfo.tsx:29 | a list is joined with `", "`; text is shown as it is |
| MediaInfo.Typed | components/games/form-sections/MediaInfo.tsx:32 | every typed item is non-empty, trimmed and free of commas |
| MediaInfo.ShowThenType | components/games/form-sections/MediaInfo.tsx:29-32 | a list of such items, shown and typed back, is unchanged |
| MediaInfo.TypeIsStable | components/games/form-sections/MediaInfo.tsx:29-32 | showing what was typed and typing it again changes nothing |
| MediaInfo.TwoItems | components/games/form-sections/MediaInfo.tsx:29-32 | two plain items joined with `", "` type back as those two items |
| MediaInfo.ClientAgreesWithServer | components/games/form-sections/MediaInfo.tsx:52 | for text that is not JSON, the server's fallback in `parseArrayInput` reads the same list |
| MediaInfo.TwoImages | components/games/form-sections/MediaInfo.tsx:34 | the images placeholder types as its two URLs |
| GamesList.Filtered | components/games/GamesList.tsx:26-31 | the shown list is no longer than the games; FilteredMembers, FilteredAppend and FilteredIsSubsequence state which games and in what order |
| GamesList.FilteredMembers | components/games/GamesList.tsx:26-31 | a game is shown exactly when it is in the list and matches the search and difficulty |
| GamesList.FilteredAppend | components/games/GamesList.tsx:26-31 | filtering distributes over concatenation |
| GamesList.FilteredIsSubsequence | components/games/GamesList.tsx:26-31 | the filtered list is a subsequence of the games, in order |
| GamesList.InitialShowsAll | components/games/GamesList.tsx:23-24 | the initial empty search and `all` filter show every game |
| GamesList.FirstRender | components/games/GamesList.tsx:15-31 | the first render fails exactly when no `initialGames` prop is passed; otherwise it shows every game it was given |
| GamesList.GamesPageAsWritten | app/dashboard/games/page.tsx:4-14 | the page as written passes only `initialData`, so the list's first render fails for every list of games |
| GamesList.GamesPage | app/dashboard/games/page.tsx:4-14 | passing the games as `initialGames`, the first render shows exactly the games the server returned |
| GamesList.AgreesWithQuery | components/games/GamesList.tsx:26-31 | under the substring model of the server's `$regex` search, a non-empty term and a real difficulty keep the same games on the client as on the server |
| GamesList.ListState.constructor | components/games/GamesList.tsx:16-24 | initial state; the page shows every game |
| GamesList.ListState.Receive | components/games/GamesList.tsx:18-20 | the effect replaces the games and nothing else |
| GamesList.ListState.SetSearchTerm | components/games/GamesList.tsx:70 | only the search text changes |
| GamesList.ListState.SetFilterDifficulty | components/games/GamesList.tsx:78 | only the filter changes |
| GamesList.ListState.OpenForm | components/games/GamesList.tsx:53 | the form opens and keeps whatever game was selected |
| GamesList.ListState.HandleEdit | components/games/GamesList.tsx:33-36 | selects the game and opens the form |
| GamesList.ListState.HandleCloseForm | components/games/GamesList.tsx:38-41 | closes the form and clears the selection |
| Pagination.GetPageNumbers | components/ui/Pagination.tsx:16-31 | the pages are consecutive and within `[1, total]`; there are `min(5, total)` of them, none exactly when total is below 1; the first is `max(1, min(current - 2, total - 4))`; an in-range current page is shown; past the end, the window ends at the last page |
| Pagination.HandlePrev | components/ui/Pagination.tsx:33 | asks for the previous page exactly when the current page is above 1 |
| Pagination.HandleNext | components/ui/Pagination.tsx:34 | asks for the next page exactly when the current page is below the last |
| Pagination.RenderedCanMove | components/ui/Pagination.tsx:14-34 | the pager is drawn only for more than one page, and then, on a page in range, Prev or Next asks for a page |
| Pagination.ButtonsMatchHandlers | components/ui/Pagination.tsx:42-75 | when not loading, Prev and Next are disabled exactly when their handler asks for nothing, and an enabled button asks for a page in range |
| Dashboard.CountDifficulty | app/dashboard/page.tsx:16-22 | a count is at most the number of games |
| Dashboard.CountActive | app/dashboard/page.tsx:13 | a count is at most the number of games |
| Dashboard.CountSince | app/dashboard/page.tsx:25 | a count is at most the number of games |
| Dashboard.DifficultyExtremes | app/dashboard/page.tsx:16-22 | the difficulty count equals the number of games exactly when every game has that difficulty, and is 0 exactly when none has |
| Dashboard.ActiveExtremes | app/dashboard/page.tsx:13 | the active count equals the number of games exactly when every game is active, and is 0 exactly when none is |
| Dashboard.SinceExtremes | app/dashboard/page.tsx:25 | the new-game count equals the number of games exactly when every game is at least as new as the cut-off, and is 0 exactly when none is |
| Dashboard.CountsAppend | app/dashboard/page.tsx:13-25 | the counts and the total price of two lists put together are the sums of theirs |
| Dashboard.TotalValue | app/dashboard/page.tsx:14 | the sum of the prices: 0 for no games, and never negative when no price is |
| Dashboard.Percent | app/dashboard/page.tsx:15-24 | `Math.round(count / total * 100)` is the nearest integer (halves up), 0 for no games, and within `[0, 100]` for a part of the total |
| Dashboard.ComputeStats | app/dashboard/page.tsx:11-27 | the totals, the active count, the total price, the three most recent games and the new-game count; each percentage is `Percent` of its count, so the rounded share of the games; the hard share equals the difficulty rate; all percentages lie in `[0, 100]`; the average price is the total over the count; with no games, everything is 0 |
| Dashboard.DifficultiesPartition | app/dashboard/page.tsx:19-23 | the four difficulty counts add up to the number of games |
| Dashboard.AtMostSix | app/dashboard/page.tsx:5-6 | the dashboard computes over at most six games, the default first page |

## Left out

- **Floating point.**
  - JavaScript numbers are exact reals here.
  - `Infinity` and exponent forms that overflow are not modelled.
  - Float rounding inside `count / total * 100` is not modelled.
- JsNumber.NumberToString: it always writes plain decimal. `String(x)` writes exponent form for magnitudes of at least 1e21 and below 1e-6 (`1e+21`, `1e-7`). GameActions.ParseArrayInput therefore reads the JSON item `1e21` as `1000000000000000000000`, where the source reads `1e+21`.
- Dashboard.ComputeStats: `avgPrice` is the exact quotient, not the two-decimal text `toFixed(2)` produces. Float formatting is outside the model.
- **Search.** The server's `$regex` search with option `i` is modelled as a case-folded substring test. Regular-expression metacharacters in the search text are not interpreted. Only ASCII letters are folded.
- GamesList.AgreesWithQuery: the agreement holds under the substring model of `$regex`. A search text with metacharacters, such as `a.c` or `(`, can match differently on the server.
- UserModel.NormalizeEmail: `toLowerCase` folds ASCII letters only. JavaScript folds all of Unicode, so `\u212A` (Kelvin sign) becomes `k` in the source but not in the model, and `İ` becomes two code units. The same holds for the client filter of GamesList.
- JsonCodec.Parse: a `\u` escape of a lone surrogate (D800 to DFFF) is refused, because Dafny characters are Unicode scalar values. `JSON.parse` accepts it. A cookie such as `{"user":"\ud800"}` therefore reads as no session in Session.GetSession, so Middleware sends it to `/login`; the source treats it as a signed-in user who is not an administrator.
- **Sort ties.** The order of games that have equal creation times is whatever the stable insertion sort gives. MongoDB guarantees no order for ties.
- **Ids.** Game ids are natural numbers, not ObjectIds. A malformed id's cast error is not modelled.
- **Database failures.** For games, the generic `catch` in each game action is not modelled. It returns `error.message` on a database failure. For authentication, a database or bcrypt failure is the `fault` parameter.
- Validations.IsUrl: zod's URL check is approximated as a scheme, a colon and a non-empty host part. It is not the WHATWG URL parser.
- AuthRoutes.LoginRoute: a truthy email that is not a string ends in the catch block (500). The real effect of such a filter on `findOne` is not modelled.
- **Password length.** The users model's `minlength` on `password` applies to the stored digest, which is always long. It is never refused.
- **bcrypt.** The Blowfish rounds are symbolic: a digest keeps the 72 key bytes bcrypt reads. This assumes the `$2a$`/`$2b$` salts bcryptjs draws, which append the NUL byte.
- Bcrypt.ShortPasswordsExact: it does not hold for passwords containing U+0000. The appended NUL and the cyclic key let such a password collide with a different one (Bcrypt.NulRepeatCollides).
- **Response formatting.** `formatResponse` (the `JSON.parse(JSON.stringify(doc))` copy of documents and its date strings) is left out.
- **Routes and cookies.**
  - The session and logout API routes are not part of this model.
  - Cookie header parsing and concurrent requests are not part of this model.
- GameForm.FormState.UpdateQuestion: requires an index inside the list. Assigning past the end of a JavaScript array, which leaves holes, is not modelled.
- **Spread.** Spreading a question that is not an object gives no members. Spreading strings and arrays is not modelled.
- **Form library.**
  - react-hook-form's `reset` and its `isDirty` flag are a parameter of `HandleAttemptClose`. The form library is not modelled.
  - The toasts, `router.refresh()` and `onClose()` have no state in the model.
  - The `activeTab` state has no effect on the modelled behaviour.
- GameForm.SubmissionRoundTrip: the form's number fields are integers. Fractional numbers are not shown to survive `String` and `Number`.
- **Form values.** Form values are text only; `File` values are not modelled.
- GameForm.EncodeValue: a submitted value is a string, a number, a boolean or an array of strings. `String` of other objects (`[object Object]`, `null`, `undefined`) is not modelled, since the form never holds them in the eleven schema fields.
- **Game fields.** The location fields (`lat`, `lng`, `place`, `distance`) are read by `extractGameData`. The schema then strips them, so they never reach the store.
- **Source inconsistencies.**
  - The games page passes `initialData` (`{ games, pagination }`), but the list reads a prop named `initialGames`. This is the first row under "## Findings". The class GamesList.ListState is built from the games themselves, as if the page passed them as `initialGames`.
  - The list's types are loose (`any`). The model types games concretely.
  - The form's `QuestionInput` type is not part of this model: questions are arbitrary JSON objects.

## Findings

| source | as written | input that shows it | evidently intended | confidence | as-written member | corrected member |
|---|---|---|---|---|---|---|
| app/dashboard/games/page.tsx:13 | the page renders `<GamesList initialData={initialData} />`, but GamesList.tsx:15 destructures `initialGames`; `games` is `undefined`, and `games.filter` at GamesList.tsx:26 throws | any visit to `/dashboard/games`, whatever `getGames` returns | the list shows the games `getGames` returned | not executed | GamesList.GamesPageAsWritten | GamesList.GamesPage |
| app/actions/auth.ts:91-93 | the catch block reads `error.errors[0].message`; on a Mongoose ValidationError `errors` is an object keyed by path, so `errors[0]` is undefined and reading `message` throws out of the action | name `"  "` (two spaces), a valid email, a password of 6 or more characters and the same confirmation: zod accepts the name, the `trim` setter empties it, and `required` refuses it | answer with the validation message, `Name is required` | not executed | AuthActions.BlankNameCrashes | AuthActions.Catch |
| app/api/auth/register/route.ts:53-58 | the same `error.errors[0].message` in the route's catch block, so the handler throws instead of answering | the same body sent to the register route | answer 400 with `Name is required` | not executed | AuthRoutes.BlankNameRouteCrashes | AuthRoutes.RegisterCatch |
