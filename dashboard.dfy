/** The dashboard's statistics (app/dashboard/page.tsx), computed from the first
    page `getGames()` returns with its default arguments. Percentages use
    `Math.round` on the exact quotient; prices are the model's exact reals. */
module Dashboard {
  import opened Wrappers
  import opened GameModel
  import opened GameActions

  /** Seven days in milliseconds. */
  const Week := 7 * 24 * 60 * 60 * 1000

  /** `gamesResult.games || []`: the games of a listing, none on an error. */
  function GamesOf(result: Result<Listing, string>): seq<Game> {
    if result.Success? then result.value.games else []
  }

  /** How many games have the given difficulty. */
  function CountDifficulty(games: seq<Game>, d: Difficulty): (n: nat)
    ensures n <= |games|
  {
    if games == [] then 0
    else (if games[0].fields.difficulty == d then 1 else 0) + CountDifficulty(games[1..], d)
  }

  /** How many games are active. */
  function CountActive(games: seq<Game>): (n: nat)
    ensures n <= |games|
  {
    if games == [] then 0
    else (if games[0].fields.isActive then 1 else 0) + CountActive(games[1..])
  }

  /** How many games were created at or after `since`. */
  function CountSince(games: seq<Game>, since: int): (n: nat)
    ensures n <= |games|
  {
    if games == [] then 0
    else (if games[0].createdAt >= since then 1 else 0) + CountSince(games[1..], since)
  }

  /** The sum of the prices, from 0. */
  function TotalValue(games: seq<Game>): (total: real)
    ensures (forall i :: 0 <= i < |games| ==> games[i].fields.price >= 0.0) ==> total >= 0.0
    ensures games == [] ==> total == 0.0
  {
    if games == [] then 0.0 else games[0].fields.price + TotalValue(games[1..])
  }

  /** The difficulty count equals the number of games exactly when every game has
      that difficulty, and is 0 exactly when none has. */
  lemma {:induction false} DifficultyExtremes(games: seq<Game>, d: Difficulty)
    ensures CountDifficulty(games, d) == |games| <==> forall i :: 0 <= i < |games| ==> games[i].fields.difficulty == d
    ensures CountDifficulty(games, d) == 0 <==> forall i :: 0 <= i < |games| ==> games[i].fields.difficulty != d
  {
    if games != [] {
      DifficultyExtremes(games[1..], d);
      assert forall i :: 1 <= i < |games| ==> games[i] == games[1..][i - 1];
    }
  }

  /** The active count equals the number of games exactly when every game is active,
      and is 0 exactly when none is. */
  lemma {:induction false} ActiveExtremes(games: seq<Game>)
    ensures CountActive(games) == |games| <==> forall i :: 0 <= i < |games| ==> games[i].fields.isActive
    ensures CountActive(games) == 0 <==> forall i :: 0 <= i < |games| ==> !games[i].fields.isActive
  {
    if games != [] {
      ActiveExtremes(games[1..]);
      assert forall i :: 1 <= i < |games| ==> games[i] == games[1..][i - 1];
    }
  }

  /** The new-game count equals the number of games exactly when every game was created
      at or after `since`, and is 0 exactly when none was. */
  lemma {:induction false} SinceExtremes(games: seq<Game>, since: int)
    ensures CountSince(games, since) == |games| <==> forall i :: 0 <= i < |games| ==> games[i].createdAt >= since
    ensures CountSince(games, since) == 0 <==> forall i :: 0 <= i < |games| ==> games[i].createdAt < since
  {
    if games != [] {
      SinceExtremes(games[1..], since);
      assert forall i :: 1 <= i < |games| ==> games[i] == games[1..][i - 1];
    }
  }

  /** Counting is additive: the count of two lists put together is the sum of their counts. */
  lemma {:induction false} CountsAppend(a: seq<Game>, b: seq<Game>, d: Difficulty, since: int)
    ensures CountDifficulty(a + b, d) == CountDifficulty(a, d) + CountDifficulty(b, d)
    ensures CountActive(a + b) == CountActive(a) + CountActive(b)
    ensures CountSince(a + b, since) == CountSince(a, since) + CountSince(b, since)
    ensures TotalValue(a + b) == TotalValue(a) + TotalValue(b)
  {
    if a == [] {
      assert a + b == b;
    } else {
      assert (a + b)[0] == a[0] && (a + b)[1..] == a[1..] + b;
      CountsAppend(a[1..], b, d, since);
    }
  }

  /** `Math.round(count / total * 100)`, 0 when there is nothing to count: the percentage
      rounded to the nearest integer, halves up. */
  function Percent(count: nat, total: nat): (p: int)
    ensures total == 0 ==> p == 0
    ensures total > 0 ==> (2 * p - 1) * total <= 200 * count < (2 * p + 1) * total
    ensures count <= total ==> 0 <= p <= 100
  {
    if total == 0 then 0
    else
      var p := (200 * count + total) / (2 * total);
      RoundedQuotient(count, total, p, (200 * count + total) % (2 * total));
      p
  }

  /** The arithmetic behind `Percent`, from the quotient and remainder of the division. */
  lemma RoundedQuotient(count: nat, total: nat, p: int, rem: int)
    requires total > 0 && 0 <= rem < 2 * total && 200 * count + total == 2 * total * p + rem
    ensures (2 * p - 1) * total <= 200 * count < (2 * p + 1) * total
    ensures count <= total ==> 0 <= p <= 100
  {
    assert (2 * p - 1) * total == 200 * count - rem;
    assert (2 * p + 1) * total == 200 * count + 2 * total - rem;
    CancelFactor(0, 2 * p + 1, total);
    if count <= total {
      assert 200 * count <= 200 * total;
      CancelFactor(2 * p - 1, 200, total);
    }
  }

  /** A positive factor can be cancelled from both sides of an inequality. */
  lemma CancelFactor(a: int, b: int, t: int)
    requires t > 0 && a * t <= b * t
    ensures a <= b
  {
    assert (b - a) * t == b * t - a * t;
  }

  datatype Distribution = Distribution(easy: int, medium: int, hard: int)

  datatype Stats = Stats(
    totalGames: nat, activeGames: nat, totalValue: real, difficultyRate: int,
    recentGames: seq<Game>, distribution: Distribution, activePercentage: int,
    newGamesCount: nat, avgPrice: real)

  /** The statistics of the fetched games at time `now` (milliseconds). */
  function ComputeStats(games: seq<Game>, now: int): (s: Stats)
    ensures s.totalGames == |games|
    ensures s.activeGames == CountActive(games) <= s.totalGames
    ensures s.recentGames == games[..if |games| < 3 then |games| else 3]
    ensures s.newGamesCount == CountSince(games, now - Week)
    ensures s.distribution.hard == s.difficultyRate
    ensures 0 <= s.difficultyRate <= 100 && 0 <= s.activePercentage <= 100
    ensures 0 <= s.distribution.easy <= 100 && 0 <= s.distribution.medium <= 100
    ensures games == [] ==>
      s.difficultyRate == 0 && s.activePercentage == 0 && s.avgPrice == 0.0
      && s.distribution == Distribution(0, 0, 0)
    ensures s.totalValue == TotalValue(games)
    ensures s.activePercentage == Percent(CountActive(games), |games|)
    ensures s.difficultyRate == Percent(CountDifficulty(games, Hard) + CountDifficulty(games, Expert), |games|)
    ensures s.distribution.easy == Percent(CountDifficulty(games, Easy), |games|)
    ensures s.distribution.medium == Percent(CountDifficulty(games, Medium), |games|)
    ensures s.avgPrice == if games == [] then 0.0 else TotalValue(games) / (|games| as real)
  {
    HardOrExpertBound(games);
    var rate := Percent(CountDifficulty(games, Hard) + CountDifficulty(games, Expert), |games|);
    Stats(
      |games|, CountActive(games), TotalValue(games), rate,
      games[..if |games| < 3 then |games| else 3],
      Distribution(Percent(CountDifficulty(games, Easy), |games|),
                   Percent(CountDifficulty(games, Medium), |games|), rate),
      Percent(CountActive(games), |games|), CountSince(games, now - Week),
      if games == [] then 0.0 else TotalValue(games) / (|games| as real))
  }

  /** Every game has exactly one of the four difficulties. */
  lemma {:induction false} DifficultiesPartition(games: seq<Game>)
    ensures CountDifficulty(games, Easy) + CountDifficulty(games, Medium)
          + CountDifficulty(games, Hard) + CountDifficulty(games, Expert) == |games|
  {
    if games != [] {
      DifficultiesPartition(games[1..]);
    }
  }

  lemma HardOrExpertBound(games: seq<Game>)
    ensures CountDifficulty(games, Hard) + CountDifficulty(games, Expert) <= |games|
  {
    DifficultiesPartition(games);
  }

  /** The dashboard shows at most six games: `getGames()` defaults to page 1 of 6. */
  lemma AtMostSix(store: GameStore, result: Result<Listing, string>)
    requires result.Success? ==>
      var selected := Select(store.games, QueryFor(None, None));
      result.value.games == Window(SortNewestFirst(selected), 0, 6)
    ensures |GamesOf(result)| <= 6
  {
  }
}
