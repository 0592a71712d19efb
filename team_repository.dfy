/**
 * The league queries of the team repository: the four single-winner queries, the
 * per-team averages table and the standings table.
 *
 * A team is loaded with its home games and its away games; every query is a pure
 * function over the sequence of teams, except the ranking of the standings rows,
 * which the repository does in place on the sorted array of rows.
 */
module LeagueStatistics {
  import opened Results
  import opened Sorting

  datatype Game = Game(round: int, homeGoals: int, guestGoals: int)

  datatype Team = Team(id: int, name: string, homeGames: seq<Game>, awayGames: seq<Game>)

  /** What LINQ's First() and Average() throw on an empty sequence. */
  datatype QueryError = NoElements

  // ---------------------------------------------------------------------------
  // Sums and counts over a team's games

  function Sum(xs: seq<int>): int {
    if xs == [] then 0 else Sum(xs[..|xs| - 1]) + xs[|xs| - 1]
  }

  lemma {:induction false} SumConcat(a: seq<int>, b: seq<int>)
    ensures Sum(a + b) == Sum(a) + Sum(b)
  {
    if b != [] {
      assert (a + b)[..|a + b| - 1] == a + b[..|b| - 1];
      SumConcat(a, b[..|b| - 1]);
    } else {
      assert a + b == a;
    }
  }

  /** The HomeGoals of each game, in order. */
  function HomeGoalsOf(games: seq<Game>): seq<int> {
    seq(|games|, i requires 0 <= i < |games| => games[i].homeGoals)
  }

  /** The GuestGoals of each game, in order. */
  function GuestGoalsOf(games: seq<Game>): seq<int> {
    seq(|games|, i requires 0 <= i < |games| => games[i].guestGoals)
  }

  /** Number of games the home side won. */
  function HomeSideWins(games: seq<Game>): nat {
    if games == [] then 0
    else HomeSideWins(games[..|games| - 1])
         + (if games[|games| - 1].homeGoals > games[|games| - 1].guestGoals then 1 else 0)
  }

  /** Number of games the guest side won. */
  function GuestSideWins(games: seq<Game>): nat {
    if games == [] then 0
    else GuestSideWins(games[..|games| - 1])
         + (if games[|games| - 1].homeGoals < games[|games| - 1].guestGoals then 1 else 0)
  }

  /** Number of drawn games; the repository never counts these, they are what is left. */
  function Draws(games: seq<Game>): nat {
    if games == [] then 0
    else Draws(games[..|games| - 1])
         + (if games[|games| - 1].homeGoals == games[|games| - 1].guestGoals then 1 else 0)
  }

  lemma {:induction false} OutcomesPartition(games: seq<Game>)
    ensures HomeSideWins(games) + GuestSideWins(games) + Draws(games) == |games|
  {
    if games != [] {
      OutcomesPartition(games[..|games| - 1]);
    }
  }

  // ---------------------------------------------------------------------------
  // Per-team values

  /** Goals scored at home. */
  function HomeGoals(t: Team): int {
    Sum(HomeGoalsOf(t.homeGames))
  }

  /** Goals scored away. */
  function AwayGoals(t: Team): int {
    Sum(GuestGoalsOf(t.awayGames))
  }

  /** Goals scored at home and away. */
  function TotalGoals(t: Team): int {
    HomeGoals(t) + AwayGoals(t)
  }

  /** The repository's "goal ratio": a difference, not a quotient. */
  function GoalRatio(t: Team): int {
    Sum(HomeGoalsOf(t.homeGames)) - Sum(GuestGoalsOf(t.homeGames))
    + Sum(GuestGoalsOf(t.awayGames)) - Sum(HomeGoalsOf(t.awayGames))
  }

  function Matches(t: Team): int {
    |t.awayGames| + |t.homeGames|
  }

  function Won(t: Team): int {
    HomeSideWins(t.homeGames) + GuestSideWins(t.awayGames)
  }

  function Lost(t: Team): int {
    GuestSideWins(t.homeGames) + HomeSideWins(t.awayGames)
  }

  /** The standings row's goals scored: the same total as the most-goals key. */
  function GoalsFor(t: Team): int {
    TotalGoals(t)
  }

  function GoalsAgainst(t: Team): int {
    Sum(GuestGoalsOf(t.homeGames)) + Sum(HomeGoalsOf(t.awayGames))
  }

  // ---------------------------------------------------------------------------
  // The four winner queries

  /** A team together with the value it was chosen for. */
  datatype TeamValue = TeamValue(team: Team, value: int)

  /** The first position holding a maximal key. */
  function ArgMax<T>(s: seq<T>, key: T -> int): (i: nat)
    requires |s| > 0
    ensures i < |s|
    ensures forall j :: 0 <= j < |s| ==> key(s[j]) <= key(s[i])
  {
    if |s| == 1 then 0
    else
      var i := ArgMax(s[..|s| - 1], key);
      assert forall j :: 0 <= j < |s| - 1 ==> s[..|s| - 1][j] == s[j];
      if key(s[|s| - 1]) > key(s[i]) then |s| - 1 else i
  }

  /** Ordering by a key descending and taking First(): some team with the largest key. */
  function Best(teams: seq<Team>, key: Team -> int): (r: Result<TeamValue, QueryError>)
    ensures r.Success? <==> |teams| > 0
    ensures r.Success? ==> r.value.team in teams && r.value.value == key(r.value.team)
    ensures r.Success? ==> forall t :: t in teams ==> key(t) <= r.value.value
  {
    if |teams| == 0 then Failure(NoElements)
    else
      var i := ArgMax(teams, key);
      Success(TeamValue(teams[i], key(teams[i])))
  }

  function GetTeamWithMostGoals(teams: seq<Team>): (r: Result<TeamValue, QueryError>)
    ensures r.Success? <==> |teams| > 0
    ensures r.Success? ==> r.value.team in teams && r.value.value == TotalGoals(r.value.team)
    ensures r.Success? ==> forall t :: t in teams ==> TotalGoals(t) <= r.value.value
  {
    Best(teams, TotalGoals)
  }

  function GetTeamWithMostAwayGoals(teams: seq<Team>): (r: Result<TeamValue, QueryError>)
    ensures r.Success? <==> |teams| > 0
    ensures r.Success? ==> r.value.team in teams && r.value.value == AwayGoals(r.value.team)
    ensures r.Success? ==> forall t :: t in teams ==> AwayGoals(t) <= r.value.value
  {
    Best(teams, AwayGoals)
  }

  function GetTeamWithMostHomeGoals(teams: seq<Team>): (r: Result<TeamValue, QueryError>)
    ensures r.Success? <==> |teams| > 0
    ensures r.Success? ==> r.value.team in teams && r.value.value == HomeGoals(r.value.team)
    ensures r.Success? ==> forall t :: t in teams ==> HomeGoals(t) <= r.value.value
  {
    Best(teams, HomeGoals)
  }

  function GetTeamWithBestGoalRatio(teams: seq<Team>): (r: Result<TeamValue, QueryError>)
    ensures r.Success? <==> |teams| > 0
    ensures r.Success? ==> r.value.team in teams && r.value.value == GoalRatio(r.value.team)
    ensures r.Success? ==> forall t :: t in teams ==> GoalRatio(t) <= r.value.value
  {
    Best(teams, GoalRatio)
  }

  /** The goal ratio is the goal difference of the team's standings row. */
  lemma GoalRatioIsGoalDifference(t: Team)
    ensures GoalRatio(t) == TableRowOf(t).GoalDifference() == GoalsFor(t) - GoalsAgainst(t)
  {
  }

  // ---------------------------------------------------------------------------
  // The averages table

  type Positive = n: int | n > 0 witness 1

  /** An average kept exactly, as the sum of the values over how many there are. */
  datatype Ratio = Ratio(sum: int, count: Positive)

  /** `a` is strictly greater than `b`, compared by cross-multiplication. */
  predicate Greater(a: Ratio, b: Ratio) {
    a.sum * b.count > b.sum * a.count
  }

  /** LINQ's Average(): fails on an empty sequence. */
  function Average(xs: seq<int>): Result<Ratio, QueryError> {
    if |xs| == 0 then Failure(NoElements) else Success(Ratio(Sum(xs), |xs|))
  }

  /**
   * Averaging two lists together weighs every value alike: the result is the two sums
   * over the two lengths, not the mean of the two averages.
   */
  lemma AverageOfConcat(a: seq<int>, b: seq<int>)
    requires |a| > 0 && |b| > 0
    ensures Average(a + b) == Success(Ratio(Sum(a) + Sum(b), |a| + |b|))
  {
    SumConcat(a, b);
  }

  datatype TeamStatistic = TeamStatistic(
    name: string,
    avgGoalsShotAtHome: Ratio,
    avgGoalsShotOutwards: Ratio,
    avgGoalsShotInTotal: Ratio,
    avgGoalsGotAtHome: Ratio,
    avgGoalsGotOutwards: Ratio,
    avgGoalsGotInTotal: Ratio)

  /**
   * One team's averages. The overall averages are taken over the concatenated home
   * and away goal lists, so they weigh every game alike.
   */
  function StatisticOf(t: Team): (r: Result<TeamStatistic, QueryError>)
    ensures r.Success? <==> |t.homeGames| > 0 && |t.awayGames| > 0
    ensures r.Success? ==> r.value.name == t.name
    ensures r.Success? ==> r.value.avgGoalsShotInTotal == Ratio(GoalsFor(t), Matches(t))
    ensures r.Success? ==> r.value.avgGoalsGotInTotal == Ratio(GoalsAgainst(t), Matches(t))
    ensures r.Success? ==> r.value.avgGoalsShotAtHome == Ratio(HomeGoals(t), |t.homeGames|)
    ensures r.Success? ==> r.value.avgGoalsShotOutwards == Ratio(AwayGoals(t), |t.awayGames|)
    ensures r.Success? ==> r.value.avgGoalsGotAtHome == Ratio(Sum(GuestGoalsOf(t.homeGames)), |t.homeGames|)
    ensures r.Success? ==> r.value.avgGoalsGotOutwards == Ratio(Sum(HomeGoalsOf(t.awayGames)), |t.awayGames|)
  {
    if |t.homeGames| == 0 || |t.awayGames| == 0 then Failure(NoElements)
    else
      var home, away := t.homeGames, t.awayGames;
      AverageOfConcat(HomeGoalsOf(home), GuestGoalsOf(away));
      AverageOfConcat(GuestGoalsOf(home), HomeGoalsOf(away));
      Success(TeamStatistic(
        t.name,
        Average(HomeGoalsOf(home)).value,
        Average(GuestGoalsOf(away)).value,
        Average(HomeGoalsOf(home) + GuestGoalsOf(away)).value,
        Average(GuestGoalsOf(home)).value,
        Average(HomeGoalsOf(away)).value,
        Average(GuestGoalsOf(home) + HomeGoalsOf(away)).value))
  }

  /** The averages of every team, in the order of `teams`; fails if any team lacks home or away games. */
  function Statistics(teams: seq<Team>): (r: Result<seq<TeamStatistic>, QueryError>)
    ensures r.Success? <==> forall t :: t in teams ==> |t.homeGames| > 0 && |t.awayGames| > 0
    ensures r.Success? ==> |r.value| == |teams|
    ensures r.Success? ==> forall i :: 0 <= i < |teams| ==> StatisticOf(teams[i]) == Success(r.value[i])
  {
    if teams == [] then Success([])
    else
      var front := teams[..|teams| - 1];
      assert forall t :: t in teams <==> t in front || t == teams[|teams| - 1];
      var init :- Statistics(front);
      var last :- StatisticOf(teams[|teams| - 1]);
      Success(init + [last])
  }

  /** `a` has the higher overall average of goals scored. */
  predicate HigherTotalAverage(a: TeamStatistic, b: TeamStatistic) {
    Greater(a.avgGoalsShotInTotal, b.avgGoalsShotInTotal)
  }

  /**
   * The averages table, ordered by overall average scored, highest first. The
   * ordering is done by the database, so the order of equal averages is not promised.
   */
  function GetTeamStatistics(teams: seq<Team>): (r: Result<seq<TeamStatistic>, QueryError>)
    ensures r.Success? <==> forall t :: t in teams ==> |t.homeGames| > 0 && |t.awayGames| > 0
    ensures r.Success? ==> multiset(r.value) == multiset(Statistics(teams).value)
    ensures r.Success? ==> forall i, j :: 0 <= i < j < |r.value| ==>
              !Greater(r.value[j].avgGoalsShotInTotal, r.value[i].avgGoalsShotInTotal)
  {
    var stats :- Statistics(teams);
    HigherTotalAverageIsStrictWeakOrder();
    SortBySorted(stats, HigherTotalAverage);
    Success(SortBy(stats, HigherTotalAverage))
  }

  lemma MulMonotone(x: int, y: int, k: int)
    requires x <= y && k > 0
    ensures x * k <= y * k
  {
  }

  lemma {:induction false} GreaterIsStrictWeakOrder(a: Ratio, b: Ratio, c: Ratio)
    ensures Greater(a, b) ==> !Greater(b, a)
    ensures !Greater(a, b) && !Greater(b, c) ==> !Greater(a, c)
  {
    if !Greater(a, b) && !Greater(b, c) {
      MulMonotone(a.sum * b.count, b.sum * a.count, c.count);
      MulMonotone(b.sum * c.count, c.sum * b.count, a.count);
      assert a.sum * b.count * c.count <= b.sum * a.count * c.count;
      assert b.sum * c.count * a.count <= c.sum * b.count * a.count;
      assert b.count * (a.sum * c.count) <= b.count * (c.sum * a.count);
      if a.sum * c.count > c.sum * a.count {
        MulMonotone(c.sum * a.count + 1, a.sum * c.count, b.count);
        assert false;
      }
    }
  }

  lemma HigherTotalAverageIsStrictWeakOrder()
    ensures StrictWeakOrder(HigherTotalAverage)
  {
    forall a: TeamStatistic, b: TeamStatistic, c: TeamStatistic
      ensures HigherTotalAverage(a, b) ==> !HigherTotalAverage(b, a)
      ensures !HigherTotalAverage(a, b) && !HigherTotalAverage(b, c) ==> !HigherTotalAverage(a, c)
    {
      GreaterIsStrictWeakOrder(a.avgGoalsShotInTotal, b.avgGoalsShotInTotal, c.avgGoalsShotInTotal);
    }
  }

  // ---------------------------------------------------------------------------
  // The standings table

  /** A standings row; Rank is 0 until the rows are ranked. */
  datatype TeamTableRow = TeamTableRow(
    id: int, name: string, matches: int, won: int, lost: int,
    goalsFor: int, goalsAgainst: int, rank: int)
  {
    /** Three points a win, one a draw. */
    function Points(): int {
      3 * won + (matches - won - lost)
    }

    function GoalDifference(): int {
      goalsFor - goalsAgainst
    }
  }

  function TableRowOf(t: Team): TeamTableRow {
    TeamTableRow(t.id, t.name, Matches(t), Won(t), Lost(t), GoalsFor(t), GoalsAgainst(t), 0)
  }

  /** Wins and losses never exceed the games played; the rest are the draws, worth a point each. */
  lemma RowCounts(t: Team)
    ensures TableRowOf(t).won + TableRowOf(t).lost <= TableRowOf(t).matches
    ensures TableRowOf(t).matches - TableRowOf(t).won - TableRowOf(t).lost
         == Draws(t.homeGames) + Draws(t.awayGames)
    ensures TableRowOf(t).Points() == 3 * TableRowOf(t).won + Draws(t.homeGames) + Draws(t.awayGames)
    ensures 0 <= TableRowOf(t).Points() <= 3 * TableRowOf(t).matches
  {
    OutcomesPartition(t.homeGames);
    OutcomesPartition(t.awayGames);
  }

  /** The per-team rows, in the order of `teams`. */
  function TableRows(teams: seq<Team>): seq<TeamTableRow> {
    seq(|teams|, i requires 0 <= i < |teams| => TableRowOf(teams[i]))
  }

  /** `a` goes strictly ahead of `b`: more points, or as many points and a better goal difference. */
  predicate RankedAhead(a: TeamTableRow, b: TeamTableRow) {
    a.Points() > b.Points() || (a.Points() == b.Points() && a.GoalDifference() > b.GoalDifference())
  }

  lemma RankedAheadIsStrictWeakOrder()
    ensures StrictWeakOrder(RankedAhead)
  {
  }

  /**
   * The rows sorted by Points, then GoalDifference, both descending. The sort runs in
   * memory and is stable: rows equal on both keys keep the order of `teams`.
   */
  function Standings(teams: seq<Team>): (rows: seq<TeamTableRow>)
    ensures multiset(rows) == multiset(TableRows(teams))
    ensures forall i, j :: 0 <= i < j < |rows| ==>
              rows[i].Points() > rows[j].Points()
              || (rows[i].Points() == rows[j].Points() && rows[i].GoalDifference() >= rows[j].GoalDifference())
    ensures forall x :: TiedWith(rows, x, RankedAhead) == TiedWith(TableRows(teams), x, RankedAhead)
  {
    RankedAheadIsStrictWeakOrder();
    SortBySorted(TableRows(teams), RankedAhead);
    forall x ensures TiedWith(SortBy(TableRows(teams), RankedAhead), x, RankedAhead)
                  == TiedWith(TableRows(teams), x, RankedAhead) {
      SortByStable(TableRows(teams), x, RankedAhead);
    }
    SortBy(TableRows(teams), RankedAhead)
  }

  /** Each row numbered by its position, starting at 1. */
  function Ranked(rows: seq<TeamTableRow>): seq<TeamTableRow> {
    seq(|rows|, i requires 0 <= i < |rows| => rows[i].(rank := i + 1))
  }

  /** Every standings row is one of the per-team rows, so none is ranked yet. */
  lemma StandingsUnranked(teams: seq<Team>)
    ensures |Standings(teams)| == |teams|
    ensures forall i :: 0 <= i < |teams| ==> Standings(teams)[i].rank == 0
  {
    var rows := Standings(teams);
    assert |rows| == |multiset(rows)| == |multiset(TableRows(teams))| == |teams|;
    forall i | 0 <= i < |teams| ensures rows[i].rank == 0 {
      assert rows[i] in multiset(TableRows(teams));
    }
  }

  /**
   * The most-goals query and the standings table agree: the chosen team's row is in the
   * table with GoalsFor equal to the query's value, and no row of the table has more.
   */
  lemma MostGoalsTopsGoalsFor(teams: seq<Team>)
    requires |teams| > 0
    ensures GetTeamWithMostGoals(teams).Success?
    ensures var best := GetTeamWithMostGoals(teams).value;
            TableRowOf(best.team) in Standings(teams) && TableRowOf(best.team).goalsFor == best.value
    ensures forall row :: row in Standings(teams) ==> row.goalsFor <= GetTeamWithMostGoals(teams).value.value
  {
    var best := GetTeamWithMostGoals(teams).value;
    var rows := TableRows(teams);
    var k :| 0 <= k < |teams| && teams[k] == best.team;
    assert rows[k] == TableRowOf(best.team);
    assert TableRowOf(best.team) in multiset(Standings(teams));
    forall row | row in Standings(teams) ensures row.goalsFor <= best.value {
      assert row in multiset(rows);
      var j :| 0 <= j < |rows| && rows[j] == row;
      assert teams[j] in teams;
    }
  }

  /** Ranking rows in standings order numbers them so that a row ranked ahead gets the smaller rank. */
  lemma RankedFollowsOrder(rows: seq<TeamTableRow>)
    requires forall i, j :: 0 <= i < j < |rows| ==>
               rows[i].Points() > rows[j].Points()
               || (rows[i].Points() == rows[j].Points() && rows[i].GoalDifference() >= rows[j].GoalDifference())
    ensures forall i, j :: 0 <= i < |rows| && 0 <= j < |rows| ==>
              RankedAhead(Ranked(rows)[i], Ranked(rows)[j]) ==> Ranked(rows)[i].rank < Ranked(rows)[j].rank
  {
    var ranked := Ranked(rows);
    forall i, j | 0 <= i < |rows| && 0 <= j < |rows| && RankedAhead(ranked[i], ranked[j])
      ensures ranked[i].rank < ranked[j].rank
    {
      assert RankedAhead(rows[i], rows[j]);
    }
  }

  /** The ranking changes nothing but Rank, and ranks run 1..n following the standings order. */
  lemma RankedStandings(teams: seq<Team>)
    ensures |Ranked(Standings(teams))| == |teams|
    ensures forall i :: 0 <= i < |teams| ==>
              Ranked(Standings(teams))[i].rank == i + 1
              && Ranked(Standings(teams))[i].(rank := 0) == Standings(teams)[i]
    ensures forall i, j :: 0 <= i < |teams| && 0 <= j < |teams| ==>
              RankedAhead(Ranked(Standings(teams))[i], Ranked(Standings(teams))[j])
              ==> Ranked(Standings(teams))[i].rank < Ranked(Standings(teams))[j].rank
  {
    StandingsUnranked(teams);
    RankedFollowsOrder(Standings(teams));
  }

  /** Numbers the rows 1..n in place, as the repository's ForEach with a running counter does. */
  method AssignRanks(rows: array<TeamTableRow>)
    modifies rows
    ensures rows[..] == Ranked(old(rows[..]))
  {
    var rank := 1;
    var i := 0;
    while i < rows.Length
      invariant 0 <= i <= rows.Length && rank == i + 1
      invariant forall k :: 0 <= k < i ==> rows[k] == old(rows[k]).(rank := k + 1)
      invariant forall k :: i <= k < rows.Length ==> rows[k] == old(rows[k])
    {
      rows[i] := rows[i].(rank := rank);
      rank := rank + 1;
      i := i + 1;
    }
  }

  /** The standings table: sorted rows in a fresh array, then ranked in place. */
  method GetTeamTableRow(teams: seq<Team>) returns (table: array<TeamTableRow>)
    ensures fresh(table)
    ensures table[..] == Ranked(Standings(teams))
  {
    var rows := Standings(teams);
    table := new TeamTableRow[|rows|](i requires 0 <= i < |rows| => rows[i]);
    assert table[..] == rows;
    AssignRanks(table);
  }

  // ---------------------------------------------------------------------------
  // A season: how the loaded teams relate to the games played

  /** A game between two teams, given by their positions in the team list. */
  datatype Fixture = Fixture(home: nat, guest: nat, game: Game)

  predicate FixturesWithin(fixtures: seq<Fixture>, n: nat) {
    forall k :: 0 <= k < |fixtures| ==> fixtures[k].home < n && fixtures[k].guest < n
  }

  function AddHomeGame(t: Team, g: Game): Team {
    t.(homeGames := t.homeGames + [g])
  }

  function AddAwayGame(t: Team, g: Game): Team {
    t.(awayGames := t.awayGames + [g])
  }

  /**
   * The teams as they are loaded with their games: team i is named names[i], and every
   * fixture is a home game of its host and an away game of its guest.
   */
  function Season(names: seq<string>, fixtures: seq<Fixture>): (teams: seq<Team>)
    requires FixturesWithin(fixtures, |names|)
    ensures |teams| == |names|
    ensures forall i :: 0 <= i < |names| ==> teams[i].id == i && teams[i].name == names[i]
  {
    if fixtures == [] then seq(|names|, i requires 0 <= i < |names| => Team(i, names[i], [], []))
    else
      var f := fixtures[|fixtures| - 1];
      var before := Season(names, fixtures[..|fixtures| - 1]);
      var hosted := before[f.home := AddHomeGame(before[f.home], f.game)];
      hosted[f.guest := AddAwayGame(hosted[f.guest], f.game)]
  }

  /** The games of the fixtures hosted by team i, in fixture order. */
  function HostedGames(fixtures: seq<Fixture>, i: nat): seq<Game> {
    if fixtures == [] then []
    else HostedGames(fixtures[..|fixtures| - 1], i)
         + (if fixtures[|fixtures| - 1].home == i then [fixtures[|fixtures| - 1].game] else [])
  }

  /** The games of the fixtures visited by team i, in fixture order. */
  function VisitedGames(fixtures: seq<Fixture>, i: nat): seq<Game> {
    if fixtures == [] then []
    else VisitedGames(fixtures[..|fixtures| - 1], i)
         + (if fixtures[|fixtures| - 1].guest == i then [fixtures[|fixtures| - 1].game] else [])
  }

  /** Every team of a season holds exactly the games it hosted at home and the games it visited away. */
  lemma {:induction false} SeasonGames(names: seq<string>, fixtures: seq<Fixture>)
    requires FixturesWithin(fixtures, |names|)
    ensures forall i :: 0 <= i < |names| ==>
              Season(names, fixtures)[i].homeGames == HostedGames(fixtures, i)
              && Season(names, fixtures)[i].awayGames == VisitedGames(fixtures, i)
  {
    if fixtures != [] {
      var prefix := fixtures[..|fixtures| - 1];
      assert FixturesWithin(prefix, |names|);
      SeasonGames(names, prefix);
    }
  }

  /** Goals scored in all fixtures, by either side. */
  function FixtureGoals(fixtures: seq<Fixture>): int {
    if fixtures == [] then 0
    else FixtureGoals(fixtures[..|fixtures| - 1])
         + fixtures[|fixtures| - 1].game.homeGoals + fixtures[|fixtures| - 1].game.guestGoals
  }

  /** Fixtures that were not drawn. */
  function Decided(fixtures: seq<Fixture>): nat {
    if fixtures == [] then 0
    else Decided(fixtures[..|fixtures| - 1])
         + (if fixtures[|fixtures| - 1].game.homeGoals != fixtures[|fixtures| - 1].game.guestGoals then 1 else 0)
  }

  function SumTeams(teams: seq<Team>, f: Team -> int): int {
    if teams == [] then 0 else SumTeams(teams[..|teams| - 1], f) + f(teams[|teams| - 1])
  }

  lemma {:induction false} SumTeamsUpdate(teams: seq<Team>, i: nat, t: Team, f: Team -> int)
    requires i < |teams|
    ensures SumTeams(teams[i := t], f) == SumTeams(teams, f) - f(teams[i]) + f(t)
  {
    var n := |teams|;
    if i < n - 1 {
      assert teams[i := t][..n - 1] == teams[..n - 1][i := t];
      SumTeamsUpdate(teams[..n - 1], i, t, f);
    } else {
      assert teams[i := t][..n - 1] == teams[..n - 1];
    }
  }

  lemma {:induction false} SumTeamsZero(teams: seq<Team>, f: Team -> int)
    requires forall i :: 0 <= i < |teams| ==> f(teams[i]) == 0
    ensures SumTeams(teams, f) == 0
  {
    if teams != [] {
      SumTeamsZero(teams[..|teams| - 1], f);
    }
  }

  /** What one more home game adds to a team's row. */
  lemma AddHomeGameEffect(t: Team, g: Game)
    ensures Matches(AddHomeGame(t, g)) == Matches(t) + 1
    ensures GoalsFor(AddHomeGame(t, g)) == GoalsFor(t) + g.homeGoals
    ensures GoalsAgainst(AddHomeGame(t, g)) == GoalsAgainst(t) + g.guestGoals
    ensures Won(AddHomeGame(t, g)) == Won(t) + (if g.homeGoals > g.guestGoals then 1 else 0)
    ensures Lost(AddHomeGame(t, g)) == Lost(t) + (if g.homeGoals < g.guestGoals then 1 else 0)
  {
    var gs := t.homeGames + [g];
    assert gs[..|gs| - 1] == t.homeGames;
    assert HomeGoalsOf(gs)[..|gs| - 1] == HomeGoalsOf(t.homeGames);
    assert GuestGoalsOf(gs)[..|gs| - 1] == GuestGoalsOf(t.homeGames);
  }

  /** What one more away game adds to a team's row. */
  lemma AddAwayGameEffect(t: Team, g: Game)
    ensures Matches(AddAwayGame(t, g)) == Matches(t) + 1
    ensures GoalsFor(AddAwayGame(t, g)) == GoalsFor(t) + g.guestGoals
    ensures GoalsAgainst(AddAwayGame(t, g)) == GoalsAgainst(t) + g.homeGoals
    ensures Won(AddAwayGame(t, g)) == Won(t) + (if g.homeGoals < g.guestGoals then 1 else 0)
    ensures Lost(AddAwayGame(t, g)) == Lost(t) + (if g.homeGoals > g.guestGoals then 1 else 0)
  {
    var gs := t.awayGames + [g];
    assert gs[..|gs| - 1] == t.awayGames;
    assert HomeGoalsOf(gs)[..|gs| - 1] == HomeGoalsOf(t.awayGames);
    assert GuestGoalsOf(gs)[..|gs| - 1] == GuestGoalsOf(t.awayGames);
  }

  /** Recording one fixture adds `dh` through its host's row and `da` through its guest's. */
  lemma StepSum(before: seq<Team>, f: Fixture, m: Team -> int, dh: int, da: int)
    requires f.home < |before| && f.guest < |before|
    requires forall t :: m(AddHomeGame(t, f.game)) == m(t) + dh
    requires forall t :: m(AddAwayGame(t, f.game)) == m(t) + da
    ensures var hosted := before[f.home := AddHomeGame(before[f.home], f.game)];
            SumTeams(hosted[f.guest := AddAwayGame(hosted[f.guest], f.game)], m)
            == SumTeams(before, m) + dh + da
  {
    var hosted := before[f.home := AddHomeGame(before[f.home], f.game)];
    SumTeamsUpdate(before, f.home, AddHomeGame(before[f.home], f.game), m);
    SumTeamsUpdate(hosted, f.guest, AddAwayGame(hosted[f.guest], f.game), m);
  }

  /** Over a whole season every goal is scored by one team. */
  lemma {:induction false} SeasonGoalsFor(names: seq<string>, fixtures: seq<Fixture>)
    requires FixturesWithin(fixtures, |names|)
    ensures SumTeams(Season(names, fixtures), GoalsFor) == FixtureGoals(fixtures)
  {
    if fixtures == [] {
      SumTeamsZero(Season(names, fixtures), GoalsFor);
    } else {
      var prefix := fixtures[..|fixtures| - 1];
      var f := fixtures[|fixtures| - 1];
      var g := f.game;
      assert FixturesWithin(prefix, |names|);
      SeasonGoalsFor(names, prefix);
      forall t ensures GoalsFor(AddHomeGame(t, g)) == GoalsFor(t) + g.homeGoals {
        AddHomeGameEffect(t, g);
      }
      forall t ensures GoalsFor(AddAwayGame(t, g)) == GoalsFor(t) + g.guestGoals {
        AddAwayGameEffect(t, g);
      }
      StepSum(Season(names, prefix), f, GoalsFor, g.homeGoals, g.guestGoals);
    }
  }

  /** Over a whole season every goal is conceded by one team. */
  lemma {:induction false} SeasonGoalsAgainst(names: seq<string>, fixtures: seq<Fixture>)
    requires FixturesWithin(fixtures, |names|)
    ensures SumTeams(Season(names, fixtures), GoalsAgainst) == FixtureGoals(fixtures)
  {
    if fixtures == [] {
      SumTeamsZero(Season(names, fixtures), GoalsAgainst);
    } else {
      var prefix := fixtures[..|fixtures| - 1];
      var f := fixtures[|fixtures| - 1];
      var g := f.game;
      assert FixturesWithin(prefix, |names|);
      SeasonGoalsAgainst(names, prefix);
      forall t ensures GoalsAgainst(AddHomeGame(t, g)) == GoalsAgainst(t) + g.guestGoals {
        AddHomeGameEffect(t, g);
      }
      forall t ensures GoalsAgainst(AddAwayGame(t, g)) == GoalsAgainst(t) + g.homeGoals {
        AddAwayGameEffect(t, g);
      }
      StepSum(Season(names, prefix), f, GoalsAgainst, g.guestGoals, g.homeGoals);
    }
  }

  /** Over a whole season every decided game is won by one team. */
  lemma {:induction false} SeasonWon(names: seq<string>, fixtures: seq<Fixture>)
    requires FixturesWithin(fixtures, |names|)
    ensures SumTeams(Season(names, fixtures), Won) == Decided(fixtures)
  {
    if fixtures == [] {
      SumTeamsZero(Season(names, fixtures), Won);
    } else {
      var prefix := fixtures[..|fixtures| - 1];
      var f := fixtures[|fixtures| - 1];
      var g := f.game;
      assert FixturesWithin(prefix, |names|);
      SeasonWon(names, prefix);
      var hw := if g.homeGoals > g.guestGoals then 1 else 0;
      var gw := if g.homeGoals < g.guestGoals then 1 else 0;
      forall t ensures Won(AddHomeGame(t, g)) == Won(t) + hw {
        AddHomeGameEffect(t, g);
      }
      forall t ensures Won(AddAwayGame(t, g)) == Won(t) + gw {
        AddAwayGameEffect(t, g);
      }
      StepSum(Season(names, prefix), f, Won, hw, gw);
    }
  }

  /** Over a whole season every decided game is lost by one team. */
  lemma {:induction false} SeasonLost(names: seq<string>, fixtures: seq<Fixture>)
    requires FixturesWithin(fixtures, |names|)
    ensures SumTeams(Season(names, fixtures), Lost) == Decided(fixtures)
  {
    if fixtures == [] {
      SumTeamsZero(Season(names, fixtures), Lost);
    } else {
      var prefix := fixtures[..|fixtures| - 1];
      var f := fixtures[|fixtures| - 1];
      var g := f.game;
      assert FixturesWithin(prefix, |names|);
      SeasonLost(names, prefix);
      var hw := if g.homeGoals > g.guestGoals then 1 else 0;
      var gw := if g.homeGoals < g.guestGoals then 1 else 0;
      forall t ensures Lost(AddHomeGame(t, g)) == Lost(t) + gw {
        AddHomeGameEffect(t, g);
      }
      forall t ensures Lost(AddAwayGame(t, g)) == Lost(t) + hw {
        AddAwayGameEffect(t, g);
      }
      StepSum(Season(names, prefix), f, Lost, gw, hw);
    }
  }

  /** Over a whole season every game is played by two teams. */
  lemma {:induction false} SeasonMatches(names: seq<string>, fixtures: seq<Fixture>)
    requires FixturesWithin(fixtures, |names|)
    ensures SumTeams(Season(names, fixtures), Matches) == 2 * |fixtures|
  {
    if fixtures == [] {
      SumTeamsZero(Season(names, fixtures), Matches);
    } else {
      var prefix := fixtures[..|fixtures| - 1];
      var f := fixtures[|fixtures| - 1];
      var g := f.game;
      assert FixturesWithin(prefix, |names|);
      SeasonMatches(names, prefix);
      var before := Season(names, prefix);
      forall t ensures Matches(AddHomeGame(t, g)) == Matches(t) + 1 {
        AddHomeGameEffect(t, g);
      }
      forall t ensures Matches(AddAwayGame(t, g)) == Matches(t) + 1 {
        AddAwayGameEffect(t, g);
      }
      StepSum(before, f, Matches, 1, 1);
    }
  }

  /** Taking each game into GoalsFor for one team and GoalsAgainst for another leaves the totals equal. */
  lemma SeasonGoalsBalance(names: seq<string>, fixtures: seq<Fixture>)
    requires FixturesWithin(fixtures, |names|)
    ensures SumTeams(Season(names, fixtures), GoalsFor) == SumTeams(Season(names, fixtures), GoalsAgainst)
    ensures SumTeams(Season(names, fixtures), Won) == SumTeams(Season(names, fixtures), Lost)
  {
    SeasonGoalsFor(names, fixtures);
    SeasonGoalsAgainst(names, fixtures);
    SeasonWon(names, fixtures);
    SeasonLost(names, fixtures);
  }

  // ---------------------------------------------------------------------------
  // Worked examples

  /** One game, A beats B 1:0: A is first with 3 points, B second with none. */
  lemma StandingsExample()
    ensures var teams := Season(["A", "B"], [Fixture(0, 1, Game(1, 1, 0))]);
            Ranked(Standings(teams))
            == [TeamTableRow(0, "A", 1, 1, 0, 1, 0, 1), TeamTableRow(1, "B", 1, 0, 1, 0, 1, 2)]
  {
    var g := Game(1, 1, 0);
    var a := TeamTableRow(0, "A", 1, 1, 0, 1, 0, 0);
    var b := TeamTableRow(1, "B", 1, 0, 1, 0, 1, 0);
    ExampleSeason(g);
    ExampleRows(g);
    ExampleSort(a, b);
    assert Standings(Season(["A", "B"], [Fixture(0, 1, g)])) == [a, b];
    RankedPair(a, b);
  }

  lemma RankedPair(a: TeamTableRow, b: TeamTableRow)
    ensures Ranked([a, b]) == [a.(rank := 1), b.(rank := 2)]
  {
    assert Ranked([a, b])[0] == a.(rank := 1) && Ranked([a, b])[1] == b.(rank := 2);
  }

  lemma ExampleSeason(g: Game)
    ensures Season(["A", "B"], [Fixture(0, 1, g)]) == [Team(0, "A", [g], []), Team(1, "B", [], [g])]
  {
    assert [Fixture(0, 1, g)][..0] == [];
    assert Season(["A", "B"], []) == [Team(0, "A", [], []), Team(1, "B", [], [])];
    assert [] + [g] == [g];
  }

  /** A home win gives the host one won game and the guest one lost game, with the goals either way. */
  lemma ExampleRows(g: Game)
    requires g.homeGoals > g.guestGoals
    ensures TableRows([Team(0, "A", [g], []), Team(1, "B", [], [g])])
         == [TeamTableRow(0, "A", 1, 1, 0, g.homeGoals, g.guestGoals, 0),
             TeamTableRow(1, "B", 1, 0, 1, g.guestGoals, g.homeGoals, 0)]
  {
    assert HomeGoalsOf([g]) == [g.homeGoals] && GuestGoalsOf([g]) == [g.guestGoals];
    assert [g][..0] == [] && [g.homeGoals][..0] == [] && [g.guestGoals][..0] == [];
  }

  lemma ExampleSort(a: TeamTableRow, b: TeamTableRow)
    requires RankedAhead(a, b)
    ensures SortBy([a, b], RankedAhead) == [a, b]
  {
    assert [b][1..] == [] && [a, b][1..] == [b];
    assert SortBy([b], RankedAhead) == [b];
  }

  /**
   * Home goals 3 and 1, away goals 0: the overall average is 4/3, above the mean
   * 1 of the home average 2 and the away average 0.
   */
  lemma OverallAverageExample()
    ensures var t := Team(0, "A", [Game(1, 3, 0), Game(2, 1, 0)], [Game(3, 0, 0)]);
            && StatisticOf(t).Success?
            && StatisticOf(t).value.avgGoalsShotAtHome == Ratio(4, 2)
            && StatisticOf(t).value.avgGoalsShotOutwards == Ratio(0, 1)
            && StatisticOf(t).value.avgGoalsShotInTotal == Ratio(4, 3)
            && Greater(StatisticOf(t).value.avgGoalsShotInTotal, Ratio(1, 1))
  {
    var home := [Game(1, 3, 0), Game(2, 1, 0)];
    assert HomeGoalsOf(home) == [3, 1];
    assert [3, 1][..1] == [3];
    assert GuestGoalsOf([Game(3, 0, 0)]) == [0];
  }
}
