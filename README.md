# Premier League statistics: a verified Dafny model

This project models the core of a small league-statistics application for a
football season. It covers two parts.

- **The import** (`import_controller.dfy`, module `CsvImport`). Each line
  `round;home team;guest team;home goals;guest goals` becomes one game. Team
  names are resolved through a registry that hands out one team object per name.
- **The team repository's queries** (`team_repository.dfy`, module
  `LeagueStatistics`):
  - the four single-winner queries: most goals, most away goals, most home
    goals, best "goal ratio";
  - the per-team averages table, ordered by overall average scored;
  - the standings table: sorted by points, then goal difference, then numbered
    1..n in place.

Two support modules sit beside these:

- `sorting.dfy` (module `Sorting`) is the descending sort behind LINQ's
  `OrderByDescending(..).ThenByDescending(..)`. It is proved to give a sorted
  permutation and to be stable.
- `results.dfy` (module `Results`) is the `Result` type. It stands for an
  operation that either completes or throws.

Every exception of the modelled code, apart from those listed under "## Left out", is an explicit failure value:

- `First()` or `Average()` on an empty sequence gives `NoElements`.
- `int.Parse` gives `FormatError` or `OverflowError`.
- A missing field gives `IndexOutOfRange`.

The registry and the standings array are state, so they are modelled
imperatively:

- The registry is a field of class `ImportController`. `GetTeam` and
  `ReadFromCsv` update it in place.
- Ranking is a loop over an `array` of rows.

Everything else is a function over values.

## Model

| member | source | states |
|---|---|---|
| `LeagueStatistics.ArgMax` | source/PremierLeague.Persistence/TeamRepository.cs:54-55 | the chosen position holds a key no other element exceeds |
| `LeagueStatistics.Best` | source/PremierLeague.Persistence/TeamRepository.cs:54-55 | ordering descending then `First()`: fails exactly on an empty team list; otherwise returns a team of the list with its key, and no team has a larger key |
| `LeagueStatistics.GetTeamWithMostGoals` | source/PremierLeague.Persistence/TeamRepository.cs:46-58 | fails exactly when there are no teams; otherwise the team is one of the teams, its value is its home goals at home plus guest goals away, and no team scored more |
| `LeagueStatistics.GetTeamWithMostAwayGoals` | source/PremierLeague.Persistence/TeamRepository.cs:60-72 | the same for goals scored in away games |
| `LeagueStatistics.GetTeamWithMostHomeGoals` | source/PremierLeague.Persistence/TeamRepository.cs:74-86 | the same for goals scored in home games |
| `LeagueStatistics.GetTeamWithBestGoalRatio` | source/PremierLeague.Persistence/TeamRepository.cs:88-102 | the same for the "goal ratio" (scored minus conceded, home and away) |
| `LeagueStatistics.MostGoalsTopsGoalsFor` | source/PremierLeague.Persistence/TeamRepository.cs:46-58 | with at least one team, the most-goals query and the standings table agree: the chosen team's row is in the table with GoalsFor equal to the query's value, and no row of the table has a larger GoalsFor |
| `LeagueStatistics.GoalRatioIsGoalDifference` | source/PremierLeague.Persistence/TeamRepository.cs:94-95 | the "goal ratio" is a difference, not a quotient: it is the goal difference of the team's standings row |
| `LeagueStatistics.SumConcat` | source/PremierLeague.Persistence/TeamRepository.cs:112-114 | the sum over the concatenated home and away goal lists is the sum of the two sums |
| `LeagueStatistics.AverageOfConcat` | source/PremierLeague.Persistence/TeamRepository.cs:112-114 | averaging the home and away lists together weighs every game alike: the result is the sum of both sums over the sum of both lengths, not the mean of the two averages |
| `LeagueStatistics.StatisticOf` | source/PremierLeague.Persistence/TeamRepository.cs:107-120 | fails exactly when the team lacks home games or away games; the overall averages are GoalsFor over matches and GoalsAgainst over matches, weighing every game alike; the averages scored and conceded at home are over the home games' home and guest goals, and those scored and conceded away over the away games' guest and home goals |
| `LeagueStatistics.Statistics` | source/PremierLeague.Persistence/TeamRepository.cs:106-120 | succeeds exactly when every team has home and away games; entry i is the statistic of team i |
| `LeagueStatistics.GreaterIsStrictWeakOrder` | source/PremierLeague.Persistence/TeamRepository.cs:121 | comparing exact averages by cross-multiplication is asymmetric, and "not greater" is transitive |
| `LeagueStatistics.HigherTotalAverageIsStrictWeakOrder` | source/PremierLeague.Persistence/TeamRepository.cs:121 | ordering by overall average scored is a strict weak order |
| `LeagueStatistics.GetTeamStatistics` | source/PremierLeague.Persistence/TeamRepository.cs:104-123 | succeeds exactly when every team has home and away games; the table is a permutation of the per-team statistics; no entry has a strictly higher overall average than one before it |
| `LeagueStatistics.OutcomesPartition` | source/PremierLeague.Persistence/TeamRepository.cs:133-134 | home wins, guest wins and draws of a game list add up to its length |
| `LeagueStatistics.TableRowOf` | source/PremierLeague.Persistence/TeamRepository.cs:128-137 | definition of a team's standings row (matches, won, lost, goals for and against, rank 0); its behaviour is stated by `RowCounts` and `Standings` |
| `LeagueStatistics.RowCounts` | source/PremierLeague.Persistence/TeamRepository.cs:132-134 | won plus lost never exceeds matches; the rest are the draws; points are three a win plus one a draw, between 0 and 3 × matches |
| `LeagueStatistics.RankedAheadIsStrictWeakOrder` | source/PremierLeague.Persistence/TeamRepository.cs:139-140 | points first, then goal difference, is a strict weak order |
| `LeagueStatistics.Standings` | source/PremierLeague.Persistence/TeamRepository.cs:127-141 | a permutation of the per-team rows; ordered by points descending, then goal difference descending; stable, so rows equal on both keys keep the input order |
| `LeagueStatistics.StandingsUnranked` | source/PremierLeague.Persistence/TeamRepository.cs:127-141 | one row per team, none ranked before the ranking loop |
| `LeagueStatistics.RankedFollowsOrder` | source/PremierLeague.Persistence/TeamRepository.cs:143-144 | numbering rows in standings order gives every row ranked ahead of another the smaller rank |
| `LeagueStatistics.RankedStandings` | source/PremierLeague.Persistence/TeamRepository.cs:139-144 | ranks are 1..n with no gaps or duplicates; only Rank changes; more points, or equal points and better goal difference, means a smaller rank |
| `LeagueStatistics.AssignRanks` | source/PremierLeague.Persistence/TeamRepository.cs:143-144 | the loop with the running counter numbers the array's rows 1..n in place, changing nothing else |
| `LeagueStatistics.GetTeamTableRow` | source/PremierLeague.Persistence/TeamRepository.cs:125-147 | returns a new array holding the ranked standings |
| `LeagueStatistics.Season` | source/PremierLeague.Persistence/TeamRepository.cs:21-24 | teams loaded with their games: team i has id i and is named names[i] |
| `LeagueStatistics.SeasonGames` | source/PremierLeague.Persistence/TeamRepository.cs:21-24 | every loaded team's home games are exactly the games of the fixtures it hosted, and its away games those it visited, each in fixture order |
| `LeagueStatistics.SeasonGoalsFor` | source/PremierLeague.Persistence/TeamRepository.cs:135 | over a season, the GoalsFor of all teams equals the goals of all games |
| `LeagueStatistics.SeasonGoalsAgainst` | source/PremierLeague.Persistence/TeamRepository.cs:136 | over a season, the GoalsAgainst of all teams equals the goals of all games |
| `LeagueStatistics.SeasonWon` | source/PremierLeague.Persistence/TeamRepository.cs:133 | over a season, the Won of all teams equals the number of undrawn games |
| `LeagueStatistics.SeasonLost` | source/PremierLeague.Persistence/TeamRepository.cs:134 | over a season, the Lost of all teams equals the number of undrawn games |
| `LeagueStatistics.SeasonMatches` | source/PremierLeague.Persistence/TeamRepository.cs:132 | over a season, the Matches of all teams add up to twice the number of games |
| `LeagueStatistics.SeasonGoalsBalance` | source/PremierLeague.Persistence/TeamRepository.cs:133-136 | over a season, total goals scored equal total goals conceded, and total wins equal total losses |
| `LeagueStatistics.StandingsExample` | source/PremierLeague.Persistence/TeamRepository.cs:125-147 | one game where A beats B 1:0 gives A first (3 points, rank 1) and B second (0 points, rank 2) |
| `LeagueStatistics.OverallAverageExample` | source/PremierLeague.Persistence/TeamRepository.cs:112-114 | home goals 3 and 1 with away goals 0 give an overall average of 4/3, above the mean 1 of the home average 2 and the away average 0 |
| `Sorting.SortBy` | source/PremierLeague.Persistence/TeamRepository.cs:139-140 | the sort is a permutation of its input |
| `Sorting.SortBySorted` | source/PremierLeague.Persistence/TeamRepository.cs:139-140 | under a strict weak order, no element of the result is strictly ahead of one before it |
| `Sorting.SortByStable` | source/PremierLeague.Persistence/TeamRepository.cs:139-140 | the elements tied with any x appear in the result in their input order |
| `CsvImport.Split` | source/PremierLeague.Core/ImportController.cs:32 | `String.Split` always yields at least one field |
| `CsvImport.SplitFieldsFree` | source/PremierLeague.Core/ImportController.cs:32 | no field of a split holds the separator |
| `CsvImport.JoinSplit` | source/PremierLeague.Core/ImportController.cs:32 | joining the fields of a split with the separator gives back the line |
| `CsvImport.SplitJoin` | source/PremierLeague.Core/ImportController.cs:32 | splitting fields joined with the separator gives back the fields, when none holds it |
| `CsvImport.TrimWhite` | source/PremierLeague.Core/ImportController.cs:34 | the white space `int.Parse` skips: the result has no white space at either end |
| `CsvImport.TrimWhiteSlice` | source/PremierLeague.Core/ImportController.cs:34 | trimming keeps one contiguous part of the text and drops only white space before and after it |
| `CsvImport.DigitsValue` | source/PremierLeague.Core/ImportController.cs:34 | a string of digits has a value exactly when all its characters are digits; anything else is a format error |
| `CsvImport.ParseInt` | source/PremierLeague.Core/ImportController.cs:34-38 | `int.Parse`: a parsed value fits in 32 bits; a failure is a format or overflow error, never an index error |
| `CsvImport.DigitsRoundTrip` | source/PremierLeague.Core/ImportController.cs:34 | the digits of n read back as n |
| `CsvImport.ParseIntRoundTrip` | source/PremierLeague.Core/ImportController.cs:34-38 | every 32-bit number written as text parses back to itself |
| `CsvImport.ParseLine` | source/PremierLeague.Core/ImportController.cs:32-38 | definition of reading one line into a record, failing as the C# statements do in their order; its behaviour is stated by `ParseLineOutcome` and `ParseLineRoundTrip` |
| `CsvImport.ParseLineOutcome` | source/PremierLeague.Core/ImportController.cs:32-38 | a line parses exactly when it has at least five fields and fields 1, 4 and 5 are numbers; the names are fields 2 and 3; IndexOutOfRange happens exactly when a field is missing before an earlier parse fails |
| `CsvImport.ParseLineRoundTrip` | source/PremierLeague.Core/ImportController.cs:32-38 | a record written as a line reads back as the same record when its numbers fit in 32 bits and its names hold no separator |
| `CsvImport.SampleLineFormat` | source/PremierLeague.Core/ImportController.cs:33 | the sample game of the file format, round 1, Manchester United at home to Tottenham Hotspur, 1:0, is written as `1;Manchester United;Tottenham Hotspur;1;0` |
| `CsvImport.ParseLineExample` | source/PremierLeague.Core/ImportController.cs:33 | the sample line `1;Manchester United;Tottenham Hotspur;1;0` reads as round 1, Manchester United at home to Tottenham Hotspur, 1:0 |
| `CsvImport.ParseEach` | source/PremierLeague.Core/ImportController.cs:30-51 | the per-line results have one entry per line |
| `CsvImport.ParseEachItems` | source/PremierLeague.Core/ImportController.cs:30-51 | all lines parse exactly when the run succeeds, and then result i is the parse of line i |
| `CsvImport.ParseEachStep` | source/PremierLeague.Core/ImportController.cs:30-51 | parsing one more line after a parsed prefix appends its record |
| `CsvImport.ParseEachFailsWithPrefix` | source/PremierLeague.Core/ImportController.cs:30-51 | once a prefix fails, the whole run fails with the same error |
| `CsvImport.ParseEachFirstError` | source/PremierLeague.Core/ImportController.cs:30-51 | a failed run reports the error of its first malformed line, every line before it parsed |
| `CsvImport.TeamNamesExact` | source/PremierLeague.Core/ImportController.cs:35-40 | a name is among the records' team names exactly when some record names it as home or guest team |
| `CsvImport.SameTeamExactlyWhenSameName` | source/PremierLeague.Core/ImportController.cs:55-68 | with one team object per name, two games share a team object exactly when their lines name that team alike |
| `CsvImport.ImportController.constructor` | source/PremierLeague.Core/ImportController.cs:15 | the registry starts empty and consistent; the static field itself starts null, which no caller can observe, since `GetTeam` is private and `ReadFromCsv` resets the field at line 20 before using it |
| `CsvImport.ImportController.GetTeam` | source/PremierLeague.Core/ImportController.cs:55-68 | a known name returns its registered team and leaves the registry unchanged; an unknown name creates a new team with that name and registers it; the registry stays one object per name |
| `CsvImport.ImportController.GameOf` | source/PremierLeague.Core/ImportController.cs:39-49 | looks up or registers the home team, then the guest team, and builds the game from the record with those objects; earlier entries are kept and new ones are new objects |
| `CsvImport.ImportController.ReadFromCsv` | source/PremierLeague.Core/ImportController.cs:17-53 | empties the registry, then gives one game per line in line order. On success the registry holds exactly the lines' names, each a team created by this import, and two games share a team object exactly when they name it alike. On failure it reports the first malformed line's error, with the registry holding the names of the lines before it |

## Left out

- File access is not modelled: `MyFile.GetFullNameInApplicationTree`, `File.Exists` with its "File does not exist" exception, and `File.ReadAllLines`. `ReadFromCsv` takes the lines already read.
- The database is not modelled: the Entity Framework context, the SQL it generates, migrations, and `GetAll`, `Get`, `Add`, `AddRange`. Queries are functions over the sequence of teams; `Season` stands in for loading teams with their games.
- The console program and the unit-of-work plumbing are not part of this model.
- TeamTableRowDto is not part of this model. Its `Points` is taken as 3 × won + draws, with draws = matches − won − lost. Its `GoalDifference` is taken as goalsFor − goalsAgainst.
- `double` averages are not modelled: every average is an exact ratio and is compared by cross-multiplication. Rounding of doubles is not captured.
- LeagueStatistics.Best: among teams tied on the key, the model returns the first. The contracts promise only some team with the largest key, because the database's order of ties is unspecified.
- LeagueStatistics.GetTeamStatistics: the order of teams with equal overall averages is not promised. The ordering runs in the database, which need not be stable. The standings sort runs in memory and is proved stable.
- LeagueStatistics.GoalsFor: goal sums are unbounded integers. The 32-bit overflow of very large sums is not modelled.
- The averages fail for a team that lacks home games or away games, even one that has played matches. This follows the code: it averages the home and away goal lists separately, and `Average()` throws on an empty list.
- CsvImport.ParseInt: culture settings, trailing NUL characters and non-ASCII digits are not modelled. The model accepts ASCII white space (space, tab through carriage return), one optional sign and ASCII digits.
- CsvImport.ImportController.ReadFromCsv: the registry is a field of one controller object rather than a static field. The games are values holding references to team objects. The static field starts out null rather than empty. No caller can see the difference: `GetTeam` is private, and `ReadFromCsv` assigns a new dictionary before its first use.
- LeagueStatistics.AssignRanks: rows are values in an array, not heap objects. Ranking replaces each array element, whereas the code sets `Rank` on each row object.
