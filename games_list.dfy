/** The games page's client state (GamesList.tsx): the games it was given, the
    search text and difficulty filter, the games shown after filtering, and the
    form that opens for a new or a selected game. */
module GamesList {
  import opened Wrappers
  import opened JsString
  import opened GameModel
  import opened GameActions

  /** The value of the difficulty filter that shows every difficulty. */
  const AllDifficulties := "all"

  /** The filter's test on one game: the lowercased search text is in the lowercased
      title or description, and the difficulty is the one chosen unless that is `all`. */
  predicate Shows(g: Game, searchTerm: string, filterDifficulty: string) {
    (ContainsFolded(g.fields.title, searchTerm) || ContainsFolded(g.fields.description, searchTerm))
    && (filterDifficulty == AllDifficulties || DifficultyName(g.fields.difficulty) == filterDifficulty)
  }

  /** `games.filter(...)`. */
  function Filtered(games: seq<Game>, searchTerm: string, filterDifficulty: string): (r: seq<Game>)
    ensures |r| <= |games|
  {
    if games == [] then []
    else
      var rest := Filtered(games[1..], searchTerm, filterDifficulty);
      if Shows(games[0], searchTerm, filterDifficulty) then [games[0]] + rest else rest
  }

  /** A game is shown exactly when it is in the list and passes the filter's test. */
  lemma {:induction false} FilteredMembers(games: seq<Game>, term: string, difficulty: string)
    ensures forall g :: g in Filtered(games, term, difficulty) <==> g in games && Shows(g, term, difficulty)
  {
    if games != [] {
      FilteredMembers(games[1..], term, difficulty);
      assert games == [games[0]] + games[1..];
    }
  }

  /** Filtering keeps the order: it distributes over concatenation. */
  lemma {:induction false} FilteredAppend(a: seq<Game>, b: seq<Game>, term: string, difficulty: string)
    ensures Filtered(a + b, term, difficulty) == Filtered(a, term, difficulty) + Filtered(b, term, difficulty)
  {
    if a == [] {
      assert a + b == b;
    } else {
      assert (a + b)[1..] == a[1..] + b;
      FilteredAppend(a[1..], b, term, difficulty);
    }
  }

  /** `xs` is `ys` with some elements left out, the rest in order. */
  predicate IsSubsequence<T(==)>(xs: seq<T>, ys: seq<T>) {
    if xs == [] then true
    else if ys == [] then false
    else if xs[0] == ys[0] then IsSubsequence(xs[1..], ys[1..])
    else IsSubsequence(xs, ys[1..])
  }

  lemma {:induction false} FilteredIsSubsequence(games: seq<Game>, term: string, difficulty: string)
    ensures IsSubsequence(Filtered(games, term, difficulty), games)
  {
    if games != [] {
      FilteredIsSubsequence(games[1..], term, difficulty);
      var rest := Filtered(games[1..], term, difficulty);
      if !Shows(games[0], term, difficulty) {
        SkipHead(rest, games);
      }
    }
  }

  /** A subsequence of the tail is a subsequence of the whole. */
  lemma {:induction false} SkipHead<T>(xs: seq<T>, ys: seq<T>)
    requires ys != [] && IsSubsequence(xs, ys[1..])
    ensures IsSubsequence(xs, ys)
    decreases |xs| + |ys|
  {
    if xs != [] && xs[0] == ys[0] {
      var t := ys[1..];
      FirstMatch(xs, t);
      SkipHead(xs[1..], t);
    }
  }

  /** Once the head of xs is met further on, xs fits in what follows it. */
  lemma {:induction false} FirstMatch<T>(xs: seq<T>, ys: seq<T>)
    requires xs != [] && IsSubsequence(xs, ys)
    ensures IsSubsequence(xs[1..], ys[1..])
    decreases |xs| + |ys|
  {
    if xs[0] != ys[0] {
      var t := ys[1..];
      FirstMatch(xs, t);
      SkipHead(xs[1..], t);
    }
  }

  /** With the initial empty search text and the `all` filter every game is shown. */
  lemma InitialShowsAll(games: seq<Game>)
    ensures Filtered(games, "", AllDifficulties) == games
  {
    forall g: Game ensures Shows(g, "", AllDifficulties) {
      IncludesEmpty(ToLower(g.fields.title));
    }
    FilteredEverything(games, "", AllDifficulties);
  }

  lemma {:induction false} FilteredEverything(games: seq<Game>, term: string, difficulty: string)
    requires forall i :: 0 <= i < |games| ==> Shows(games[i], term, difficulty)
    ensures Filtered(games, term, difficulty) == games
  {
    if games != [] {
      FilteredEverything(games[1..], term, difficulty);
    }
  }

  /** The client filter agrees with the server's query on a non-empty search text and
      a difficulty other than `all`: both keep the same games. */
  lemma AgreesWithQuery(g: Game, term: string, difficulty: string)
    requires term != "" && difficulty != "" && difficulty != AllDifficulties
    ensures Shows(g, term, difficulty) <==> Matches(QueryFor(Some(term), Some(difficulty)), g)
  {
  }

  /** The props the games page hands the list: the `games` member of `initialData`
      (its `pagination` member is not read by the list) and `initialGames`, each
      absent when the page does not pass it. */
  datatype PageProps = PageProps(initialData: Option<seq<Game>>, initialGames: Option<seq<Game>>)

  /** The list's first render: `useState(initialGames)`, then `games.filter(...)` with
      the initial search and filter. `None` is the TypeError `filter` of `undefined`
      throws. */
  function FirstRender(props: PageProps): (r: Option<seq<Game>>)
    ensures r.Some? <==> props.initialGames.Some?
    ensures r.Some? ==> r.value == props.initialGames.value
  {
    match props.initialGames
    case None => None
    case Some(games) => InitialShowsAll(games); Some(Filtered(games, "", AllDifficulties))
  }

  /** The games page as written: it passes `initialData={{ games, pagination }}` while
      the list destructures `initialGames`, so the first render throws for every
      list of games. */
  function GamesPageAsWritten(games: seq<Game>): (r: Option<seq<Game>>)
    ensures r.None?
  {
    FirstRender(PageProps(Some(games), None))
  }

  /** The games page passing the list its games as `initialGames`: the first render
      shows every game the server returned, in its order. */
  function GamesPage(games: seq<Game>): (r: Option<seq<Game>>)
    ensures r == Some(games)
  {
    FirstRender(PageProps(Some(games), Some(games)))
  }

  class ListState {
    var games: seq<Game>
    var isFormOpen: bool
    var selectedGame: Option<Game>
    var searchTerm: string
    var filterDifficulty: string

    /** The first render: the games given, no form, no search, every difficulty. */
    constructor(initialGames: seq<Game>)
      ensures games == initialGames && !isFormOpen && selectedGame.None?
      ensures searchTerm == "" && filterDifficulty == AllDifficulties
      ensures FilteredGames() == initialGames
    {
      games := initialGames;
      isFormOpen := false;
      selectedGame := None;
      searchTerm := "";
      filterDifficulty := AllDifficulties;
      InitialShowsAll(initialGames);
    }

    /** The games the page shows. */
    function FilteredGames(): seq<Game>
      reads this
    {
      Filtered(games, searchTerm, filterDifficulty)
    }

    /** The effect that takes new games from the server. */
    method Receive(initialGames: seq<Game>)
      modifies this
      ensures games == initialGames
      ensures isFormOpen == old(isFormOpen) && selectedGame == old(selectedGame)
      ensures searchTerm == old(searchTerm) && filterDifficulty == old(filterDifficulty)
    {
      games := initialGames;
    }

    /** Typing in the search box. */
    method SetSearchTerm(term: string)
      modifies this
      ensures searchTerm == term
      ensures games == old(games) && isFormOpen == old(isFormOpen) && selectedGame == old(selectedGame)
      ensures filterDifficulty == old(filterDifficulty)
    {
      searchTerm := term;
    }

    /** Choosing a difficulty. */
    method SetFilterDifficulty(difficulty: string)
      modifies this
      ensures filterDifficulty == difficulty
      ensures games == old(games) && isFormOpen == old(isFormOpen) && selectedGame == old(selectedGame)
      ensures searchTerm == old(searchTerm)
    {
      filterDifficulty := difficulty;
    }

    /** The Add Game button: the form opens with whatever game was selected. */
    method OpenForm()
      modifies this
      ensures isFormOpen
      ensures games == old(games) && selectedGame == old(selectedGame)
      ensures searchTerm == old(searchTerm) && filterDifficulty == old(filterDifficulty)
    {
      isFormOpen := true;
    }

    /** `handleEdit(game)`. */
    method HandleEdit(game: Game)
      modifies this
      ensures isFormOpen && selectedGame == Some(game)
      ensures games == old(games) && searchTerm == old(searchTerm)
      ensures filterDifficulty == old(filterDifficulty)
    {
      selectedGame := Some(game);
      isFormOpen := true;
    }

    /** `handleCloseForm()`. */
    method HandleCloseForm()
      modifies this
      ensures !isFormOpen && selectedGame.None?
      ensures games == old(games) && searchTerm == old(searchTerm)
      ensures filterDifficulty == old(filterDifficulty)
    {
      isFormOpen := false;
      selectedGame := None;
    }
  }
}
