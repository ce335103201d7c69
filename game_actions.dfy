/** The game server actions of app/actions/games.ts: decoding a submitted form
    (`extractGameData` with `parseArrayInput` and `parseQuestions`), the list
    query of `getGames`, and the store operations `getGameById`, `createGame`,
    `updateGame`, `deleteGame` and `toggleGameStatus` over an in-memory Game
    collection. */
module GameActions {
  import opened Wrappers
  import opened JsString
  import opened JsNumber
  import opened JsonCodec
  import opened ModelErrors
  import opened GameModel
  import opened Validations

  // ---------- form decoding ----------

  /** A submitted form: each field's text (`FormData.get` gives null for a missing one). */
  type FormData = map<string, string>

  function FormGet(form: FormData, key: string): Option<string> {
    if key in form then Some(form[key]) else None
  }

  /** `String(value)` for a parsed JSON value. */
  function ToText(j: Json): string {
    match j
    case JNull => "null"
    case JBool(b) => if b then "true" else "false"
    case JNum(lexeme) =>
      (match ToNumber(lexeme)
       case Some(v) => NumberToString(v)
       case None => lexeme)
    case JStr(s) => s
    case JArr(items) => JoinText(items)
    case JObj(_) => "[object Object]"
  }

  /** `Array.prototype.join(',')`, where a null element is written as nothing. */
  function JoinText(items: seq<Json>): string {
    if items == [] then ""
    else
      var head := if items[0].JNull? then "" else ToText(items[0]);
      if |items| == 1 then head else head + "," + JoinText(items[1..])
  }

  /** A list of strings as a JSON array. */
  function StringArray(xs: seq<string>): (j: Json)
    ensures WellFormed(j)
  {
    JArr(seq(|xs|, i requires 0 <= i < |xs| => JStr(xs[i])))
  }

  /** `parseArrayInput`: nothing for a missing or empty field; the items, as text, of a
      JSON array; nothing for other JSON; the comma list when the text is not JSON. */
  function ParseArrayInput(input: Option<string>): (r: seq<string>)
    ensures input.None? || input == Some("") ==> r == []
    ensures input.Some? && input.value != "" && Parse(input.value).None? ==> r == CommaList(input.value)
    ensures input.Some? && Parse(input.value).Some? && !Parse(input.value).value.JArr? ==> r == []
    ensures input.Some? && input.value != "" && Parse(input.value).Some? && Parse(input.value).value.JArr? ==>
      var items := Parse(input.value).value.items;
      |r| == |items| && forall i :: 0 <= i < |r| ==> r[i] == ToText(items[i])
  {
    if input.None? || input.value == "" then []
    else
      match Parse(input.value)
      case Some(JArr(items)) => seq(|items|, i requires 0 <= i < |items| => ToText(items[i]))
      case Some(_) => []
      case None => CommaList(input.value)
  }

  /** A list written by `JSON.stringify` is read back unchanged. */
  lemma ParseArrayOfStrings(xs: seq<string>)
    ensures ParseArrayInput(Some(Serialize(StringArray(xs)))) == xs
  {
    ParseSerialize(StringArray(xs));
    SerializeStart(StringArray(xs));
  }

  /** `parseQuestions`: the elements of a JSON array, and nothing otherwise. */
  function ParseQuestions(input: Option<string>): (r: seq<Json>)
    ensures r != [] ==> input.Some? && Parse(input.value).Some? && Parse(input.value).value == JArr(r)
    ensures input.Some? && Parse(input.value).Some? && Parse(input.value).value.JArr? ==>
      r == Parse(input.value).value.items
  {
    if input.None? || input.value == "" then []
    else
      match Parse(input.value)
      case Some(JArr(items)) => items
      case _ => []
  }

  /** `extractGameData`. Numbers are `Number(x) || 0`, `isActive` is the text `true`, and
      the array fields go through `parseArrayInput`. */
  function ExtractGameData(form: FormData): (d: GameData)
    ensures d.isActive <==> FormGet(form, "isActive") == Some("true")
    ensures d.title == FormGet(form, "title") && d.description == FormGet(form, "description")
    ensures d.difficulty == FormGet(form, "difficulty") && d.thumbnail == FormGet(form, "thumbnail")
    ensures d.duration == NumberOrZero(FormGet(form, "duration")) && d.price == NumberOrZero(FormGet(form, "price"))
    ensures d.maxPlayers == NumberOrZero(FormGet(form, "maxPlayers"))
    ensures d.minPlayers == NumberOrZero(FormGet(form, "minPlayers"))
    ensures d.images == ParseArrayInput(FormGet(form, "images")) && d.tags == ParseArrayInput(FormGet(form, "tags"))
    ensures d.questions == ParseQuestions(FormGet(form, "questions"))
  {
    GameData(
      FormGet(form, "title"), FormGet(form, "description"), FormGet(form, "difficulty"),
      NumberOrZero(FormGet(form, "duration")), NumberOrZero(FormGet(form, "price")),
      NumberOrZero(FormGet(form, "maxPlayers")), NumberOrZero(FormGet(form, "minPlayers")),
      FormGet(form, "thumbnail"), ParseArrayInput(FormGet(form, "images")),
      FormGet(form, "isActive") == Some("true"), ParseArrayInput(FormGet(form, "tags")),
      NumberOrZero(FormGet(form, "lat")), NumberOrZero(FormGet(form, "lng")),
      FormGet(form, "place"), FormGet(form, "distance"), ParseQuestions(FormGet(form, "questions")))
  }

  /** A missing or non-numeric number field becomes 0. */
  lemma MissingNumberIsZero(form: FormData, key: string)
    requires key !in form || ToNumber(form[key]).None?
    ensures NumberOrZero(FormGet(form, key)) == 0.0
  {
  }

  // ---------- what create and update store ----------

  /** The fields a create (`forUpdate` false) or an update would store, or the message
      returned: the schema's first issue, else Mongoose's ValidationError. */
  function Validated(d: GameData, forUpdate: bool): (r: Result<GameFields, string>)
    ensures ParseGame(d).Failure? ==> r == Failure(ParseGame(d).error.message)
    ensures ParseGame(d).Success? ==>
      (r.Success? <==> SatisfiesSchema(Cast(ParseGame(d).value)))
      && (r.Success? ==> r.value == Cast(ParseGame(d).value))
    ensures r.Success? ==> SatisfiesSchema(r.value)
  {
    match ParseGame(d)
    case Failure(issue) => Failure(issue.message)
    case Success(input) =>
      var fields := Cast(input);
      var errors := ValidationErrors(fields);
      if errors != [] then Failure(ValidationMessage(forUpdate, errors)) else Success(fields)
  }

  /** After the schema, only the title can fail Mongoose's validators: trimming can empty it. */
  lemma OnlyTitleCanFailModel(d: GameData)
    requires GameValid(d)
    ensures var f := Cast(ParseGame(d).value);
      ValidationErrors(f) == [] || ValidationErrors(f) == [PathError("title", "Game title is required")]
  {
    var input := ParseGame(d).value;
    assert input.description != "" by {
      assert Utf16Length(input.description) >= 10;
    }
    UrlNotEmpty(input.thumbnail);
    OnlyTitleLeft(Cast(input));
  }

  /** With every path but the title satisfied, the title's error is the only one left. */
  lemma OnlyTitleLeft(f: GameFields)
    requires f.description != "" && f.duration >= 15.0 && f.price >= 0.0
    requires f.maxPlayers >= 1.0 && f.minPlayers >= 1.0 && f.thumbnail != ""
    ensures ValidationErrors(f) == [] || ValidationErrors(f) == [PathError("title", "Game title is required")]
  {
  }

  lemma UrlNotEmpty(s: string)
    requires IsUrl(s)
    ensures s != ""
  {
  }

  /** A title of spaces passes the schema's length check and is refused by the model. */
  lemma BlankTitleMessage(d: GameData, forUpdate: bool)
    requires GameValid(d)
    requires forall i :: 0 <= i < |d.title.value| ==> IsSpace(d.title.value[i])
    ensures Validated(d, forUpdate) == Failure(ValidationMessage(forUpdate, [PathError("title", "Game title is required")]))
  {
    OnlyTitleCanFailModel(d);
    BlankTitleRefused(ParseGame(d).value);
  }

  /** The stored title is the trimmed one, which may be shorter than the three characters
      the schema counted: ` a ` is stored as `a`. */
  lemma StoredTitleCanBeShort()
    ensures Utf16Length(" a ") == 3 && Trim(" a ") == "a"
  {
    assert TrimStart(" a ") == "a ";
    assert TrimEnd("a ") == "a";
  }

  // ---------- the list query ----------

  /** The filter `getGames` builds: an optional search text and an optional difficulty. */
  datatype Query = Query(search: Option<string>, difficulty: Option<string>)

  /** The query for the given arguments: no search for a missing or empty text, no
      difficulty for a missing or empty one or for `all`. */
  function QueryFor(search: Option<string>, difficulty: Option<string>): (q: Query)
    ensures q.search.Some? <==> search.Some? && search.value != ""
    ensures q.search.Some? ==> q.search == search
    ensures q.difficulty.Some? <==> difficulty.Some? && difficulty.value != "" && difficulty.value != "all"
    ensures q.difficulty.Some? ==> q.difficulty == difficulty
  {
    Query(if search.Some? && search.value != "" then search else None,
          if difficulty.Some? && difficulty.value != "" && difficulty.value != "all" then difficulty else None)
  }

  /** Case-insensitive occurrence of a search text. */
  predicate ContainsFolded(text: string, term: string) {
    Includes(ToLower(text), ToLower(term))
  }

  /** A document the query selects: the search text in its title or its description, and
      its difficulty equal to the one asked for. */
  predicate Matches(q: Query, g: Game) {
    (q.search.None? || ContainsFolded(g.fields.title, q.search.value)
                    || ContainsFolded(g.fields.description, q.search.value))
    && (q.difficulty.None? || DifficultyName(g.fields.difficulty) == q.difficulty.value)
  }

  /** The documents the query selects, in store order. */
  function Select(gs: seq<Game>, q: Query): (r: seq<Game>)
    ensures |r| <= |gs|
    ensures forall g :: g in r ==> g in gs && Matches(q, g)
    ensures forall g :: g in gs && Matches(q, g) ==> g in r
  {
    if gs == [] then []
    else if Matches(q, gs[0]) then [gs[0]] + Select(gs[1..], q)
    else Select(gs[1..], q)
  }

  /** Selection keeps the store's order: it distributes over concatenation. */
  lemma {:induction false} SelectAppend(a: seq<Game>, b: seq<Game>, q: Query)
    ensures Select(a + b, q) == Select(a, q) + Select(b, q)
  {
    if a == [] {
      assert a + b == b;
    } else {
      assert (a + b)[1..] == a[1..] + b;
      SelectAppend(a[1..], b, q);
    }
  }

  /** Newest first: non-increasing `createdAt`. */
  predicate NewestFirstOrder(gs: seq<Game>) {
    forall i, j :: 0 <= i < j < |gs| ==> gs[i].createdAt >= gs[j].createdAt
  }

  /** g placed after every document at least as new as it. */
  function InsertByAge(sorted: seq<Game>, g: Game): (r: seq<Game>)
    ensures multiset(r) == multiset(sorted) + multiset{g}
    ensures |r| == |sorted| + 1
  {
    if sorted == [] then [g]
    else if sorted[0].createdAt >= g.createdAt then
      var rest := InsertByAge(sorted[1..], g);
      assert sorted == [sorted[0]] + sorted[1..];
      [sorted[0]] + rest
    else [g] + sorted
  }

  /** Inserting a game no newer than a bound into games no newer than it keeps them so. */
  lemma {:induction false} InsertByAgeBounded(sorted: seq<Game>, g: Game, t: int)
    requires forall i :: 0 <= i < |sorted| ==> sorted[i].createdAt <= t
    requires g.createdAt <= t
    ensures forall i :: 0 <= i < |InsertByAge(sorted, g)| ==> InsertByAge(sorted, g)[i].createdAt <= t
  {
    if sorted != [] && sorted[0].createdAt >= g.createdAt {
      InsertByAgeBounded(sorted[1..], g, t);
    }
  }

  lemma {:induction false} InsertByAgeSorted(sorted: seq<Game>, g: Game)
    requires NewestFirstOrder(sorted)
    ensures NewestFirstOrder(InsertByAge(sorted, g))
  {
    if sorted != [] && sorted[0].createdAt >= g.createdAt {
      var tail := sorted[1..];
      InsertByAgeSorted(tail, g);
      InsertByAgeBounded(tail, g, sorted[0].createdAt);
      var rest := InsertByAge(tail, g);
      var r := [sorted[0]] + rest;
      forall i, j | 0 <= i < j < |r| ensures r[i].createdAt >= r[j].createdAt {
        assert r[j] == rest[j - 1];
        if i > 0 {
          assert r[i] == rest[i - 1];
        }
      }
    }
  }

  /** `.sort({ createdAt: -1 })`: an insertion sort by age that keeps store order
      among documents of the same age. */
  function SortNewestFirst(gs: seq<Game>): (r: seq<Game>)
    ensures |r| == |gs|
  {
    if gs == [] then [] else InsertByAge(SortNewestFirst(gs[..|gs| - 1]), gs[|gs| - 1])
  }

  lemma SortNewestFirstCorrect(gs: seq<Game>)
    ensures NewestFirstOrder(SortNewestFirst(gs))
    ensures multiset(SortNewestFirst(gs)) == multiset(gs)
  {
    SortNewestFirstOrdered(gs);
    SortNewestFirstPermutes(gs);
  }

  lemma {:induction false} SortNewestFirstOrdered(gs: seq<Game>)
    ensures NewestFirstOrder(SortNewestFirst(gs))
  {
    if gs != [] {
      var init := gs[..|gs| - 1];
      SortNewestFirstOrdered(init);
      InsertByAgeSorted(SortNewestFirst(init), gs[|gs| - 1]);
    }
  }

  lemma {:induction false} SortNewestFirstPermutes(gs: seq<Game>)
    ensures multiset(SortNewestFirst(gs)) == multiset(gs)
  {
    if gs != [] {
      var init, last := gs[..|gs| - 1], gs[|gs| - 1];
      SortNewestFirstPermutes(init);
      assert gs == init + [last];
    }
  }

  function Min(a: int, b: int): int {
    if a <= b then a else b
  }

  /** How many documents `.limit(limit)` lets through: all for 0, otherwise the
      magnitude (a negative limit returns a single batch of that size). */
  function LimitSize(limit: int, available: nat): (n: nat)
    ensures n <= available
    ensures limit == 0 ==> n == available
    ensures limit != 0 ==> n == Min(if limit < 0 then -limit else limit, available)
  {
    if limit == 0 then available
    else if limit < 0 then Min(-limit, available)
    else Min(limit, available)
  }

  /** `.skip(skip).limit(limit)` on the sorted documents. */
  function Window(s: seq<Game>, skip: nat, limit: int): (r: seq<Game>)
    ensures skip >= |s| ==> r == []
    ensures limit > 0 ==> |r| <= limit
    ensures skip < |s| ==> skip + |r| <= |s| && r == s[skip..skip + |r|]
    ensures skip < |s| && limit == 0 ==> r == s[skip..]
    ensures skip < |s| ==> |r| == LimitSize(limit, |s| - skip)
  {
    if skip >= |s| then [] else s[skip..skip + LimitSize(limit, |s| - skip)]
  }

  /** `Math.ceil(total / limit)`: Infinity for a zero limit and some documents, NaN for a
      zero limit and none. */
  datatype PageCount = Pages(n: int) | Infinite | NotANumber

  function TotalPages(total: nat, limit: int): (r: PageCount)
    ensures limit == 0 ==> r == (if total > 0 then Infinite else NotANumber)
    ensures limit > 0 ==> r.Pages? && (r.n - 1) * limit < total <= r.n * limit
    ensures limit < 0 ==> r.Pages? && r.n * limit <= total < (r.n - 1) * limit
  {
    if limit == 0 then (if total > 0 then Infinite else NotANumber)
    else if limit > 0 then Pages((total + limit - 1) / limit)
    else Pages(-(total / -limit))
  }

  /** The page `getGames` returns, with the count of every selected document. */
  datatype Listing = Listing(games: seq<Game>, total: nat, page: int, limit: int, totalPages: PageCount)

  /** A page past the last one holds no documents. */
  lemma PagePastEnd(s: seq<Game>, page: int, limit: int)
    requires limit > 0 && (page - 1) * limit >= |s|
    ensures Window(s, (page - 1) * limit, limit) == []
  {
  }

  /** With the defaults (page 1, limit 6), at most the six newest selected documents. */
  lemma DefaultPage(s: seq<Game>)
    ensures Window(s, 0, 6) == s[..Min(6, |s|)]
  {
  }

  // ---------- the store ----------

  /** The position of the game with that id, if any. */
  function FindIndex(gs: seq<Game>, id: nat): (r: Option<nat>)
    ensures r.None? <==> forall i :: 0 <= i < |gs| ==> gs[i].id != id
    ensures r.Some? ==> r.value < |gs| && gs[r.value].id == id
  {
    if gs == [] then None
    else if gs[|gs| - 1].id == id then Some(|gs| - 1)
    else FindIndex(gs[..|gs| - 1], id)
  }

  /** The game after `isActive` is flipped and the document saved. */
  function Toggled(g: Game, now: int): (t: Game)
    ensures t.fields.isActive == !g.fields.isActive
    ensures t.id == g.id && t.createdAt == g.createdAt && t.updatedAt == now
  {
    g.(fields := g.fields.(isActive := !g.fields.isActive), updatedAt := now)
  }

  /** Toggling twice restores every field. */
  lemma ToggleTwice(g: Game, t1: int, t2: int)
    ensures Toggled(Toggled(g, t1), t2).fields == g.fields
  {
  }

  /** A toggled document still passes the validators `save()` runs. */
  lemma ToggleKeepsSchema(g: Game, now: int)
    requires SatisfiesSchema(g.fields)
    ensures SatisfiesSchema(Toggled(g, now).fields)
  {
  }

  /** Ids are unique and below `nextId`, and every stored document passed validation. */
  ghost predicate StoreInvariant(gs: seq<Game>, nextId: nat) {
    && (forall i :: 0 <= i < |gs| ==> gs[i].id < nextId && SatisfiesSchema(gs[i].fields))
    && (forall i, j :: 0 <= i < j < |gs| ==> gs[i].id != gs[j].id)
  }

  lemma AppendKeepsInvariant(gs: seq<Game>, nextId: nat, g: Game)
    requires StoreInvariant(gs, nextId) && g.id == nextId && SatisfiesSchema(g.fields)
    ensures StoreInvariant(gs + [g], nextId + 1)
  {
    var r := gs + [g];
    forall i | 0 <= i < |r| ensures r[i].id < nextId + 1 && SatisfiesSchema(r[i].fields) {
      if i < |gs| { assert r[i] == gs[i]; }
    }
    forall i, j | 0 <= i < j < |r| ensures r[i].id != r[j].id {
      assert r[i] == gs[i];
      if j < |gs| { assert r[j] == gs[j]; }
    }
  }

  lemma ReplaceKeepsInvariant(gs: seq<Game>, nextId: nat, i: nat, g: Game)
    requires StoreInvariant(gs, nextId) && i < |gs| && g.id == gs[i].id && SatisfiesSchema(g.fields)
    ensures StoreInvariant(gs[i := g], nextId)
  {
  }

  lemma RemoveKeepsInvariant(gs: seq<Game>, nextId: nat, i: nat)
    requires StoreInvariant(gs, nextId) && i < |gs|
    ensures StoreInvariant(gs[..i] + gs[i + 1..], nextId)
  {
    var r := gs[..i] + gs[i + 1..];
    assert forall k :: 0 <= k < |r| ==> r[k] == gs[if k < i then k else k + 1];
  }

  class GameStore {
    /** The collection, in insertion order. */
    var games: seq<Game>
    /** The id the next created game gets. */
    var nextId: nat

    ghost predicate Valid()
      reads this
    {
      StoreInvariant(games, nextId)
    }

    constructor ()
      ensures Valid() && games == [] && nextId == 0
    {
      games := [];
      nextId := 0;
    }

    /** `getGames(search, difficulty, page, limit)`. A negative skip is a database error,
        whose message is `skipError`. */
    method GetGames(search: Option<string>, difficulty: Option<string>, page: int, limit: int, skipError: string)
      returns (r: Result<Listing, string>)
      ensures r.Failure? <==> (page - 1) * limit < 0
      ensures r.Failure? ==> r.error == skipError
      ensures r.Success? ==>
        var selected := Select(games, QueryFor(search, difficulty));
        && r.value.total == |selected|
        && r.value.games == Window(SortNewestFirst(selected), (page - 1) * limit, limit)
        && r.value.page == page && r.value.limit == limit
        && r.value.totalPages == TotalPages(|selected|, limit)
    {
      var query := Query(None, None);
      if search.Some? && search.value != "" {
        query := query.(search := search);
      }
      if difficulty.Some? && difficulty.value != "" && difficulty.value != "all" {
        query := query.(difficulty := difficulty);
      }
      var skip := (page - 1) * limit;
      if skip < 0 {
        return Failure(skipError);
      }
      var selected := Select(games, query);
      var total := |selected|;
      var items := Window(SortNewestFirst(selected), skip, limit);
      r := Success(Listing(items, total, page, limit, TotalPages(total, limit)));
    }

    /** `getGameById(id)`. */
    function GetGameById(id: nat): (r: Result<Game, string>)
      reads this
      ensures r.Failure? <==> forall i :: 0 <= i < |games| ==> games[i].id != id
      ensures r.Failure? ==> r.error == "Game not found"
      ensures r.Success? ==> r.value in games && r.value.id == id
    {
      match FindIndex(games, id)
      case None => Failure("Game not found")
      case Some(i) => Success(games[i])
    }

    /** `createGame(form)` at time `now`. */
    method CreateGame(form: FormData, now: int) returns (r: Result<Game, string>)
      requires Valid()
      modifies this
      ensures Valid()
      ensures Validated(ExtractGameData(form), false).Failure? ==>
        && r == Failure(Validated(ExtractGameData(form), false).error)
        && games == old(games) && nextId == old(nextId)
      ensures Validated(ExtractGameData(form), false).Success? ==>
        && r == Success(Game(old(nextId), Validated(ExtractGameData(form), false).value, now, now))
        && games == old(games) + [r.value] && nextId == old(nextId) + 1
    {
      var outcome := Validated(ExtractGameData(form), false);
      if outcome.Failure? {
        return Failure(outcome.error);
      }
      var game := Insert(outcome.value, now);
      r := Success(game);
    }

    /** `Game.create(fields)` on fields that passed validation: the new game gets the
        next id and `now` as both timestamps. */
    method Insert(fields: GameFields, now: int) returns (game: Game)
      requires Valid() && SatisfiesSchema(fields)
      modifies this
      ensures Valid()
      ensures game == Game(old(nextId), fields, now, now)
      ensures games == old(games) + [game] && nextId == old(nextId) + 1
    {
      game := Game(nextId, fields, now, now);
      AppendKeepsInvariant(games, nextId, game);
      games := games + [game];
      nextId := nextId + 1;
    }

    /** `updateGame(id, form)` at time `now`: validation comes before the lookup. */
    method UpdateGame(id: nat, form: FormData, now: int) returns (r: Result<Game, string>)
      requires Valid()
      modifies this
      ensures Valid() && nextId == old(nextId)
      ensures Validated(ExtractGameData(form), true).Failure? ==>
        r == Failure(Validated(ExtractGameData(form), true).error) && games == old(games)
      ensures Validated(ExtractGameData(form), true).Success? && FindIndex(old(games), id).None? ==>
        r == Failure("Game not found") && games == old(games)
      ensures Validated(ExtractGameData(form), true).Success? && FindIndex(old(games), id).Some? ==>
        var i := FindIndex(old(games), id).value;
        && r == Success(Game(id, Validated(ExtractGameData(form), true).value, old(games)[i].createdAt, now))
        && games == old(games)[i := r.value]
    {
      var outcome := Validated(ExtractGameData(form), true);
      if outcome.Failure? {
        return Failure(outcome.error);
      }
      r := FindByIdAndUpdate(id, outcome.value, now);
    }

    /** `findByIdAndUpdate(id, fields, { new: true })` on fields that passed validation. */
    method FindByIdAndUpdate(id: nat, fields: GameFields, now: int) returns (r: Result<Game, string>)
      requires Valid() && SatisfiesSchema(fields)
      modifies this
      ensures Valid() && nextId == old(nextId)
      ensures FindIndex(old(games), id).None? ==> r == Failure("Game not found") && games == old(games)
      ensures FindIndex(old(games), id).Some? ==>
        var i := FindIndex(old(games), id).value;
        && r == Success(Game(id, fields, old(games)[i].createdAt, now))
        && games == old(games)[i := r.value]
    {
      var found := FindIndex(games, id);
      if found.None? {
        return Failure("Game not found");
      }
      var i := found.value;
      var game := Game(id, fields, games[i].createdAt, now);
      ReplaceKeepsInvariant(games, nextId, i, game);
      games := games[i := game];
      r := Success(game);
    }

    /** `deleteGame(id)`. */
    method DeleteGame(id: nat) returns (r: Result<(), string>)
      requires Valid()
      modifies this
      ensures Valid() && nextId == old(nextId)
      ensures FindIndex(old(games), id).None? ==> r == Failure("Game not found") && games == old(games)
      ensures FindIndex(old(games), id).Some? ==>
        var i := FindIndex(old(games), id).value;
        r == Success(()) && games == old(games)[..i] + old(games)[i + 1..]
    {
      var found := FindIndex(games, id);
      if found.None? {
        return Failure("Game not found");
      }
      var i := found.value;
      RemoveKeepsInvariant(games, nextId, i);
      games := games[..i] + games[i + 1..];
      r := Success(());
    }

    /** `toggleGameStatus(id)` at time `now`. */
    method ToggleGameStatus(id: nat, now: int) returns (r: Result<Game, string>)
      requires Valid()
      modifies this
      ensures Valid() && nextId == old(nextId)
      ensures FindIndex(old(games), id).None? ==> r == Failure("Game not found") && games == old(games)
      ensures FindIndex(old(games), id).Some? ==>
        var i := FindIndex(old(games), id).value;
        r == Success(Toggled(old(games)[i], now)) && games == old(games)[i := r.value]
    {
      var found := FindIndex(games, id);
      if found.None? {
        return Failure("Game not found");
      }
      var i := found.value;
      ToggleKeepsSchema(games[i], now);
      var game := Toggled(games[i], now);
      ReplaceKeepsInvariant(games, nextId, i, game);
      games := games[i := game];
      r := Success(game);
    }
  }
}
