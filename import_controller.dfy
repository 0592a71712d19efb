/**
 * The import of game results: every line "round;home team;guest team;home goals;guest goals"
 * becomes one game, and team names are resolved through a registry so that every name
 * stands for exactly one team object.
 *
 * The file itself is not read here: the import starts from the lines already read.
 */
module CsvImport {
  import opened Results

  const Separator: char := ';'
  const Int32Min: int := -0x8000_0000
  const Int32Max: int := 0x7FFF_FFFF

  /** The exceptions the import throws on a malformed line. */
  datatype ImportError = IndexOutOfRange | FormatError | OverflowError

  // ---------------------------------------------------------------------------
  // Splitting a line at the separator

  /** The fields of `s` between separators, as String.Split does: never fewer than one. */
  function Split(s: string, sep: char): (fields: seq<string>)
    ensures |fields| >= 1
  {
    if s == [] then [[]]
    else
      var rest := Split(s[1..], sep);
      if s[0] == sep then [[]] + rest
      else [[s[0]] + rest[0]] + rest[1..]
  }

  /** The fields glued back together with the separator between them. */
  function Join(fields: seq<string>, sep: char): string
    requires |fields| >= 1
  {
    if |fields| == 1 then fields[0] else fields[0] + [sep] + Join(fields[1..], sep)
  }

  lemma {:induction false} SplitFieldPrefix(field: string, tail: string, sep: char)
    requires sep !in field
    ensures Split(field + tail, sep) == [field + Split(tail, sep)[0]] + Split(tail, sep)[1..]
  {
    var t := Split(tail, sep);
    if field == [] {
      assert field + tail == tail && field + t[0] == t[0];
      assert t == [t[0]] + t[1..];
    } else {
      assert field[0] in field;
      assert (field + tail)[0] == field[0] != sep;
      assert (field + tail)[1..] == field[1..] + tail;
      SplitFieldPrefix(field[1..], tail, sep);
      var rest := Split(field[1..] + tail, sep);
      assert rest[0] == field[1..] + t[0] && rest[1..] == t[1..];
      assert [field[0]] + (field[1..] + t[0]) == field + t[0];
    }
  }

  /** No field of a split holds the separator. */
  lemma {:induction false} SplitFieldsFree(s: string, sep: char)
    ensures forall k :: 0 <= k < |Split(s, sep)| ==> sep !in Split(s, sep)[k]
  {
    if s != [] {
      var rest := Split(s[1..], sep);
      SplitFieldsFree(s[1..], sep);
      if s[0] == sep {
        var fields := [[]] + rest;
        assert forall k :: 1 <= k < |fields| ==> fields[k] == rest[k - 1];
      } else {
        var fields := [[s[0]] + rest[0]] + rest[1..];
        assert forall k :: 1 <= k < |fields| ==> fields[k] == rest[k];
      }
    }
  }

  /** Joining the fields of a split gives back the text. */
  lemma {:induction false} JoinSplit(s: string, sep: char)
    ensures Join(Split(s, sep), sep) == s
  {
    if s != [] {
      var rest := Split(s[1..], sep);
      JoinSplit(s[1..], sep);
      if s[0] == sep {
        var fields := [[]] + rest;
        assert fields[1..] == rest;
      } else {
        var fields := [[s[0]] + rest[0]] + rest[1..];
        assert |rest| > 1 ==> fields[1..] == rest[1..];
        assert s == [s[0]] + s[1..];
      }
    }
  }

  /** Splitting undoes joining, as long as no field holds the separator. */
  lemma {:induction false} SplitJoin(fields: seq<string>, sep: char)
    requires |fields| >= 1
    requires forall k :: 0 <= k < |fields| ==> sep !in fields[k]
    ensures Split(Join(fields, sep), sep) == fields
  {
    if |fields| == 1 {
      SplitFieldPrefix(fields[0], [], sep);
      assert Split([], sep) == [[]];
      assert fields[0] + [] == fields[0];
      assert fields == [fields[0]];
    } else {
      var tail := [sep] + Join(fields[1..], sep);
      assert Join(fields, sep) == fields[0] + tail;
      SplitFieldPrefix(fields[0], tail, sep);
      assert tail[0] == sep && tail[1..] == Join(fields[1..], sep);
      assert Split(tail, sep) == [[]] + Split(tail[1..], sep);
      SplitJoin(fields[1..], sep);
      assert Split(tail, sep)[0] == [] && Split(tail, sep)[1..] == fields[1..];
      assert fields[0] + [] == fields[0];
      assert fields == [fields[0]] + fields[1..];
    }
  }

  // ---------------------------------------------------------------------------
  // int.Parse

  predicate IsDigit(c: char) {
    '0' <= c <= '9'
  }

  predicate AllDigits(s: string) {
    forall k :: 0 <= k < |s| ==> IsDigit(s[k])
  }

  /** The white space int.Parse skips before and after the number. */
  predicate IsWhite(c: char) {
    c == ' ' || ('\t' <= c <= '\r')
  }

  /** The string without its leading and trailing white space. */
  function TrimWhite(s: string): (r: string)
    ensures |r| <= |s|
    ensures r == [] || (!IsWhite(r[0]) && !IsWhite(r[|r| - 1]))
  {
    if s != [] && IsWhite(s[0]) then TrimWhite(s[1..])
    else if s != [] && IsWhite(s[|s| - 1]) then TrimWhite(s[..|s| - 1])
    else s
  }

  /** `r` is the part of `s` at offset i, and everything of `s` around it is white space. */
  predicate TrimmedAt(s: string, r: string, i: nat) {
    i + |r| <= |s| && r == s[i..i + |r|]
    && (forall k :: 0 <= k < i ==> IsWhite(s[k]))
    && (forall k :: i + |r| <= k < |s| ==> IsWhite(s[k]))
  }

  /** Trimming keeps a contiguous part of the string and drops only white space around it. */
  lemma {:induction false} TrimWhiteSlice(s: string)
    ensures exists i :: TrimmedAt(s, TrimWhite(s), i)
  {
    var r := TrimWhite(s);
    if s != [] && IsWhite(s[0]) {
      TrimWhiteSlice(s[1..]);
      var i: nat :| TrimmedAt(s[1..], r, i);
      TrimmedAfterWhite(s, r, i);
    } else if s != [] && IsWhite(s[|s| - 1]) {
      TrimWhiteSlice(s[..|s| - 1]);
      var i: nat :| TrimmedAt(s[..|s| - 1], r, i);
      TrimmedBeforeWhite(s, r, i);
    } else {
      assert TrimmedAt(s, r, 0);
    }
  }

  lemma TrimmedAfterWhite(s: string, r: string, i: nat)
    requires s != [] && IsWhite(s[0]) && TrimmedAt(s[1..], r, i)
    ensures TrimmedAt(s, r, i + 1)
  {
    var tail := s[1..];
    assert r == s[i + 1..i + 1 + |r|];
    forall k | 0 <= k < i + 1 ensures IsWhite(s[k]) {
      if k > 0 { assert s[k] == tail[k - 1]; }
    }
    forall k | i + 1 + |r| <= k < |s| ensures IsWhite(s[k]) {
      assert s[k] == tail[k - 1];
    }
  }

  lemma TrimmedBeforeWhite(s: string, r: string, i: nat)
    requires s != [] && IsWhite(s[|s| - 1]) && TrimmedAt(s[..|s| - 1], r, i)
    ensures TrimmedAt(s, r, i)
  {
    var front := s[..|s| - 1];
    assert r == s[i..i + |r|];
    forall k | 0 <= k < i ensures IsWhite(s[k]) {
      assert s[k] == front[k];
    }
    forall k | i + |r| <= k < |s| ensures IsWhite(s[k]) {
      if k < |s| - 1 { assert s[k] == front[k]; }
    }
  }

  /** The value of a string of decimal digits; anything else is a format error. */
  function DigitsValue(ds: string): (r: Result<nat, ImportError>)
    ensures r.Success? <==> AllDigits(ds)
    ensures r.Failure? ==> r.error == FormatError
  {
    if ds == [] then Success(0)
    else
      var front :- DigitsValue(ds[..|ds| - 1]);
      if IsDigit(ds[|ds| - 1]) then Success(10 * front + (ds[|ds| - 1] - '0') as int)
      else Failure(FormatError)
  }

  /**
   * int.Parse on the integer number style: optional white space, an optional sign,
   * at least one decimal digit, optional white space; the value must fit in 32 bits.
   */
  function ParseInt(s: string): (r: Result<int, ImportError>)
    ensures r.Success? ==> Int32Min <= r.value <= Int32Max
    ensures r.Failure? ==> r.error != IndexOutOfRange
  {
    var t := TrimWhite(s);
    var negative := t != [] && t[0] == '-';
    var digits := if t != [] && (t[0] == '-' || t[0] == '+') then t[1..] else t;
    if digits == [] then Failure(FormatError)
    else
      var magnitude :- DigitsValue(digits);
      var v: int := if negative then -(magnitude as int) else magnitude;
      if v < Int32Min || Int32Max < v then Failure(OverflowError) else Success(v)
  }

  /** The decimal digits of `n`, as ToString writes them. */
  function NatToDigits(n: nat): (ds: string)
    ensures |ds| >= 1 && AllDigits(ds)
  {
    if n < 10 then ['0' + n as char] else NatToDigits(n / 10) + ['0' + (n % 10) as char]
  }

  /** The text of `n`, with a minus sign when negative. */
  function IntToString(n: int): string {
    if n < 0 then "-" + NatToDigits(-n) else NatToDigits(n)
  }

  lemma {:induction false} DigitsRoundTrip(n: nat)
    ensures DigitsValue(NatToDigits(n)) == Success(n)
  {
    if n >= 10 {
      DigitsRoundTrip(n / 10);
      var ds := NatToDigits(n);
      assert ds[..|ds| - 1] == NatToDigits(n / 10);
    }
  }

  /** int.Parse reads back every 32-bit number written as text. */
  lemma ParseIntRoundTrip(n: int)
    requires Int32Min <= n <= Int32Max
    ensures ParseInt(IntToString(n)) == Success(n)
  {
    var s := IntToString(n);
    var ds := NatToDigits(if n < 0 then -n else n);
    DigitsRoundTrip(if n < 0 then -n else n);
    assert !IsWhite(s[0]) && !IsWhite(s[|s| - 1]);
    assert TrimWhite(s) == s;
    if n < 0 {
      assert s[1..] == ds;
    }
  }

  // ---------------------------------------------------------------------------
  // One line, one game record

  /** The five fields of a line, the numbers parsed and the team names as written. */
  datatype GameRecord = GameRecord(
    round: int, homeTeamName: string, guestTeamName: string, homeGoals: int, guestGoals: int)

  /**
   * Reads the fields in the order the import does: the round, the two names, the home
   * goals, the guest goals. A missing field is an index out of range; fields after the
   * fifth are ignored.
   */
  function ParseLine(line: string): Result<GameRecord, ImportError>
  {
    var data := Split(line, Separator);
    var round :- ParseInt(data[0]);
    if |data| < 4 then Failure(IndexOutOfRange)
    else
      var homeGoals :- ParseInt(data[3]);
      if |data| < 5 then Failure(IndexOutOfRange)
      else
        var guestGoals :- ParseInt(data[4]);
        Success(GameRecord(round, data[1], data[2], homeGoals, guestGoals))
  }

  /**
   * A line parses exactly when it has at least five fields and its first, fourth and
   * fifth fields are numbers; the team names are its second and third fields. It fails
   * with IndexOutOfRange exactly when it has too few fields for the next field the import
   * reads: the round is read before the fourth field is looked at, and the home goals
   * before the fifth.
   */
  lemma ParseLineOutcome(line: string)
    ensures var data := Split(line, Separator);
            ParseLine(line).Success? <==>
              (|data| >= 5 && ParseInt(data[0]).Success? && ParseInt(data[3]).Success?
               && ParseInt(data[4]).Success?)
    ensures var data := Split(line, Separator);
            ParseLine(line).Success? ==>
              ParseLine(line).value.homeTeamName == data[1] && ParseLine(line).value.guestTeamName == data[2]
    ensures var data := Split(line, Separator);
            ParseLine(line).Failure? ==>
              (ParseLine(line).error == IndexOutOfRange <==>
                 (ParseInt(data[0]).Success? && (|data| < 4 || (ParseInt(data[3]).Success? && |data| < 5))))
  {
  }

  /** The line the import expects for a record. */
  function FormatLine(g: GameRecord): string {
    Join([IntToString(g.round), g.homeTeamName, g.guestTeamName,
          IntToString(g.homeGoals), IntToString(g.guestGoals)], Separator)
  }

  /** Field i of a formatted line is read back into field i of the record. */
  lemma ParseLineRoundTrip(g: GameRecord)
    requires Int32Min <= g.round <= Int32Max
    requires Int32Min <= g.homeGoals <= Int32Max && Int32Min <= g.guestGoals <= Int32Max
    requires Separator !in g.homeTeamName && Separator !in g.guestTeamName
    ensures ParseLine(FormatLine(g)) == Success(g)
  {
    var fields := [IntToString(g.round), g.homeTeamName, g.guestTeamName,
                   IntToString(g.homeGoals), IntToString(g.guestGoals)];
    forall n: int ensures Separator !in IntToString(n) {
      var ds := NatToDigits(if n < 0 then -n else n);
      assert forall k :: 0 <= k < |ds| ==> ds[k] != Separator;
    }
    SplitJoin(fields, Separator);
    ParseIntRoundTrip(g.round);
    ParseIntRoundTrip(g.homeGoals);
    ParseIntRoundTrip(g.guestGoals);
  }

  /** The sample game of the import's file format is written as its line. */
  lemma SampleLineFormat()
    ensures FormatLine(GameRecord(1, "Manchester United", "Tottenham Hotspur", 1, 0))
            == "1;Manchester United;Tottenham Hotspur;1;0"
  {
    assert IntToString(1) == "1" && IntToString(0) == "0";
    SampleJoin();
  }

  /** Five fields joined are the fields with a separator between each two. */
  lemma JoinFive(a: string, b: string, c: string, d: string, e: string, sep: char)
    ensures Join([a, b, c, d, e], sep) == a + [sep] + b + [sep] + c + [sep] + d + [sep] + e
  {
    assert [a, b, c, d, e][1..] == [b, c, d, e];
    assert [b, c, d, e][1..] == [c, d, e];
    assert [c, d, e][1..] == [d, e];
    assert [d, e][1..] == [e];
    assert Join([d, e], sep) == d + [sep] + e;
    assert Join([c, d, e], sep) == c + [sep] + (d + [sep] + e);
    assert Join([b, c, d, e], sep) == b + [sep] + (c + [sep] + (d + [sep] + e));
  }

  /** The sample line, built up one field at a time. */
  lemma SampleJoin()
    ensures Join(["1", "Manchester United", "Tottenham Hotspur", "1", "0"], Separator)
            == "1;Manchester United;Tottenham Hotspur;1;0"
  {
    JoinFive("1", "Manchester United", "Tottenham Hotspur", "1", "0", Separator);
    assert "1" + [';'] + "Manchester United" == "1;Manchester United";
    assert "1;Manchester United" + [';'] + "Tottenham Hotspur" == "1;Manchester United;Tottenham Hotspur";
    assert "1;Manchester United;Tottenham Hotspur" + [';'] + "1" == "1;Manchester United;Tottenham Hotspur;1";
    assert "1;Manchester United;Tottenham Hotspur;1" + [';'] + "0" == "1;Manchester United;Tottenham Hotspur;1;0";
  }

  /** The sample line reads as round 1, Manchester United at home to Tottenham Hotspur, 1:0. */
  lemma ParseLineExample()
    ensures ParseLine("1;Manchester United;Tottenham Hotspur;1;0")
            == Success(GameRecord(1, "Manchester United", "Tottenham Hotspur", 1, 0))
  {
    var g := GameRecord(1, "Manchester United", "Tottenham Hotspur", 1, 0);
    ParseLineRoundTrip(g);
    SampleLineFormat();
  }

  /** Every item parsed, in order, or the error of the first item that does not parse. */
  function ParseEach<A, B, E>(xs: seq<A>, parse: A -> Result<B, E>): (r: Result<seq<B>, E>)
    ensures r.Success? ==> |r.value| == |xs|
  {
    if xs == [] then Success([])
    else
      var init := ParseEach(xs[..|xs| - 1], parse);
      var last := parse(xs[|xs| - 1]);
      if init.Failure? then Failure(init.error)
      else if last.Failure? then Failure(last.error)
      else Success(init.value + [last.value])
  }

  /** A run succeeds exactly when every item parses, and then result i is the parse of item i. */
  lemma {:induction false} ParseEachItems<A, B, E>(xs: seq<A>, parse: A -> Result<B, E>)
    ensures ParseEach(xs, parse).Success? <==> forall i :: 0 <= i < |xs| ==> parse(xs[i]).Success?
    ensures ParseEach(xs, parse).Success? ==>
              forall i :: 0 <= i < |xs| ==> parse(xs[i]) == Success(ParseEach(xs, parse).value[i])
  {
    if xs != [] {
      var front := xs[..|xs| - 1];
      ParseEachItems(front, parse);
      assert forall i :: 0 <= i < |front| ==> front[i] == xs[i];
    }
  }

  /** Parsing one more item after a parsed prefix appends its result. */
  lemma ParseEachStep<A, B, E>(xs: seq<A>, parse: A -> Result<B, E>, i: nat, done: seq<B>, next: B)
    requires i < |xs|
    requires ParseEach(xs[..i], parse) == Success(done) && parse(xs[i]) == Success(next)
    ensures ParseEach(xs[..i + 1], parse) == Success(done + [next])
  {
    assert xs[..i + 1][..i] == xs[..i];
  }

  /** Once a prefix fails, the whole sequence fails with that prefix's error. */
  lemma {:induction false} ParseEachFailsWithPrefix<A, B, E>(xs: seq<A>, parse: A -> Result<B, E>, i: nat)
    requires i <= |xs|
    requires ParseEach(xs[..i], parse).Failure?
    ensures ParseEach(xs, parse) == ParseEach(xs[..i], parse)
  {
    if i < |xs| {
      assert xs[..|xs| - 1][..i] == xs[..i];
      ParseEachFailsWithPrefix(xs[..|xs| - 1], parse, i);
    } else {
      assert xs[..i] == xs;
    }
  }

  /** A failed run reports the error of its first item that does not parse. */
  lemma {:induction false} ParseEachFirstError<A, B, E>(xs: seq<A>, parse: A -> Result<B, E>)
    requires ParseEach(xs, parse).Failure?
    ensures exists k :: (0 <= k < |xs| && ParseEach(xs[..k], parse).Success? && parse(xs[k]).Failure?
                         && ParseEach(xs, parse).error == parse(xs[k]).error)
  {
    var init := xs[..|xs| - 1];
    if ParseEach(init, parse).Failure? {
      ParseEachFirstError(init, parse);
      var k :| 0 <= k < |init| && ParseEach(init[..k], parse).Success? && parse(init[k]).Failure?
               && ParseEach(init, parse).error == parse(init[k]).error;
      assert init[..k] == xs[..k] && init[k] == xs[k];
    }
  }

  /** The import's records: one per line, or the error of the first malformed line. */
  function ParseAll(lines: seq<string>): Result<seq<GameRecord>, ImportError> {
    ParseEach(lines, ParseLine)
  }

  /** The names of the home and guest teams of the records. */
  function TeamNames(records: seq<GameRecord>): set<string> {
    if records == [] then {}
    else TeamNames(records[..|records| - 1])
         + {records[|records| - 1].homeTeamName, records[|records| - 1].guestTeamName}
  }

  lemma {:induction false} TeamNamesExact(records: seq<GameRecord>, n: string)
    ensures n in TeamNames(records) <==>
              exists i :: 0 <= i < |records| && (records[i].homeTeamName == n || records[i].guestTeamName == n)
  {
    if records != [] {
      var init := records[..|records| - 1];
      TeamNamesExact(init, n);
      if n in TeamNames(init) {
        var i :| 0 <= i < |init| && (init[i].homeTeamName == n || init[i].guestTeamName == n);
        assert records[i] == init[i];
      }
      if exists i :: 0 <= i < |records| && (records[i].homeTeamName == n || records[i].guestTeamName == n) {
        var i :| 0 <= i < |records| && (records[i].homeTeamName == n || records[i].guestTeamName == n);
        if i < |init| {
          assert init[i] == records[i];
        }
      }
    }
  }

  // ---------------------------------------------------------------------------
  // Teams and games

  /** A team; its identity is the object, which the registry hands out once per name. */
  class Team {
    const name: string

    constructor (name: string)
      ensures this.name == name
    {
      this.name := name;
    }
  }

  datatype Game = Game(round: int, homeTeam: Team, guestTeam: Team, homeGoals: int, guestGoals: int)

  /** Game `g` is what the import builds from record `rec` with the team objects of `teams`. */
  ghost predicate BuiltFrom(g: Game, rec: GameRecord, teams: map<string, Team>) {
    && rec.homeTeamName in teams && rec.guestTeamName in teams
    && g == Game(rec.round, teams[rec.homeTeamName], teams[rec.guestTeamName], rec.homeGoals, rec.guestGoals)
  }

  /** Every team object of the registry carries the name it is registered under. */
  ghost predicate NamedAsKeyed(teams: map<string, Team>) {
    forall n :: n in teams ==> teams[n].name == n
  }

  /** Games built against a registry are still built against any registry extending it. */
  lemma BuiltFromKept(games: seq<Game>, recs: seq<GameRecord>, game: Game, rec: GameRecord,
                      before: map<string, Team>, after: map<string, Team>)
    requires |games| == |recs|
    requires forall k :: 0 <= k < |games| ==> BuiltFrom(games[k], recs[k], before)
    requires forall n :: n in before ==> n in after && after[n] == before[n]
    requires BuiltFrom(game, rec, after)
    ensures forall k :: 0 <= k < |games| + 1 ==> BuiltFrom((games + [game])[k], (recs + [rec])[k], after)
  {
    forall k | 0 <= k < |games| + 1 ensures BuiltFrom((games + [game])[k], (recs + [rec])[k], after) {
      if k < |games| {
        assert BuiltFrom(games[k], recs[k], before);
      }
    }
  }

  lemma TeamNamesStep(recs: seq<GameRecord>, rec: GameRecord)
    ensures TeamNames(recs + [rec]) == TeamNames(recs) + {rec.homeTeamName, rec.guestTeamName}
  {
    assert (recs + [rec])[..|recs|] == recs;
  }

  /**
   * With one team object per name, two games built against the registry share a team
   * object exactly when their records name that team alike.
   */
  lemma SameTeamExactlyWhenSameName(games: seq<Game>, recs: seq<GameRecord>, teams: map<string, Team>)
    requires NamedAsKeyed(teams)
    requires |games| == |recs|
    requires forall k :: 0 <= k < |games| ==> BuiltFrom(games[k], recs[k], teams)
    ensures forall i, j :: 0 <= i < |games| && 0 <= j < |games| ==>
              && (games[i].homeTeam == games[j].homeTeam <==> recs[i].homeTeamName == recs[j].homeTeamName)
              && (games[i].homeTeam == games[j].guestTeam <==> recs[i].homeTeamName == recs[j].guestTeamName)
              && (games[i].guestTeam == games[j].guestTeam <==> recs[i].guestTeamName == recs[j].guestTeamName)
  {
    forall i, j | 0 <= i < |games| && 0 <= j < |games|
      ensures && (games[i].homeTeam == games[j].homeTeam <==> recs[i].homeTeamName == recs[j].homeTeamName)
              && (games[i].homeTeam == games[j].guestTeam <==> recs[i].homeTeamName == recs[j].guestTeamName)
              && (games[i].guestTeam == games[j].guestTeam <==> recs[i].guestTeamName == recs[j].guestTeamName)
    {
      assert BuiltFrom(games[i], recs[i], teams) && BuiltFrom(games[j], recs[j], teams);
      assert teams[recs[i].homeTeamName].name == recs[i].homeTeamName;
      assert teams[recs[i].guestTeamName].name == recs[i].guestTeamName;
      assert teams[recs[j].homeTeamName].name == recs[j].homeTeamName;
      assert teams[recs[j].guestTeamName].name == recs[j].guestTeamName;
    }
  }

  class ImportController {
    /** The registry: one team object per name. */
    var teams: map<string, Team>

    ghost predicate Valid()
      reads this
    {
      NamedAsKeyed(teams)
    }

    constructor ()
      ensures Valid() && teams == map[]
    {
      teams := map[];
    }

    /** The registered team of that name, created and registered on first sight. */
    method GetTeam(teamName: string) returns (team: Team)
      requires Valid()
      modifies this
      ensures Valid()
      ensures team.name == teamName && teamName in teams && teams[teamName] == team
      ensures teamName in old(teams) ==> team == old(teams)[teamName] && teams == old(teams)
      ensures teamName !in old(teams) ==> fresh(team) && teams == old(teams)[teamName := team]
    {
      if teamName in teams {
        team := teams[teamName];
      } else {
        team := new Team(teamName);
        teams := teams[teamName := team];
      }
    }

    /**
     * The game of one parsed line, with its two teams looked up or registered, home
     * team first.
     */
    method GameOf(rec: GameRecord) returns (game: Game)
      requires Valid()
      modifies this
      ensures Valid()
      ensures BuiltFrom(game, rec, teams)
      ensures teams.Keys == old(teams).Keys + {rec.homeTeamName, rec.guestTeamName}
      ensures forall n :: n in old(teams) ==> n in teams && teams[n] == old(teams)[n]
      ensures forall n :: n in teams && n !in old(teams) ==> fresh(teams[n])
    {
      var homeTeam := GetTeam(rec.homeTeamName);
      var guestTeam := GetTeam(rec.guestTeamName);
      game := Game(rec.round, homeTeam, guestTeam, rec.homeGoals, rec.guestGoals);
    }

    /**
     * One game per line, in the order of the lines, over a registry emptied first. On
     * success the registry holds exactly the names of the lines, each with a team created
     * during this import, and two games share a team object exactly when they name it
     * alike. A malformed line aborts the import with the registry holding the names of
     * the lines before it.
     */
    method ReadFromCsv(lines: seq<string>) returns (r: Result<seq<Game>, ImportError>)
      modifies this
      ensures Valid()
      ensures r.Success? <==> ParseAll(lines).Success?
      ensures r.Failure? ==> r.error == ParseAll(lines).error
      ensures r.Success? ==> |r.value| == |lines|
      ensures r.Success? ==> forall i :: 0 <= i < |lines| ==> BuiltFrom(r.value[i], ParseAll(lines).value[i], teams)
      ensures r.Success? ==> teams.Keys == TeamNames(ParseAll(lines).value)
      ensures forall n :: n in teams ==> fresh(teams[n])
      ensures r.Success? ==> forall i, j :: 0 <= i < |lines| && 0 <= j < |lines| ==>
                && (r.value[i].homeTeam == r.value[j].homeTeam
                    <==> ParseAll(lines).value[i].homeTeamName == ParseAll(lines).value[j].homeTeamName)
                && (r.value[i].homeTeam == r.value[j].guestTeam
                    <==> ParseAll(lines).value[i].homeTeamName == ParseAll(lines).value[j].guestTeamName)
                && (r.value[i].guestTeam == r.value[j].guestTeam
                    <==> ParseAll(lines).value[i].guestTeamName == ParseAll(lines).value[j].guestTeamName)
      ensures r.Failure? ==>
                exists k :: (0 <= k < |lines| && ParseAll(lines[..k]).Success?
                  && ParseLine(lines[k]).Failure? && teams.Keys == TeamNames(ParseAll(lines[..k]).value))
    {
      teams := map[];
      var games: seq<Game> := [];
      ghost var recs: seq<GameRecord> := [];
      var i := 0;
      assert lines[..0] == [];
      while i < |lines|
        invariant 0 <= i <= |lines|
        invariant Valid()
        invariant ParseAll(lines[..i]) == Success(recs)
        invariant |games| == i == |recs|
        invariant forall k :: 0 <= k < i ==> BuiltFrom(games[k], recs[k], teams)
        invariant teams.Keys == TeamNames(recs)
        invariant forall n :: n in teams ==> fresh(teams[n])
      {
        var line := ParseLine(lines[i]);
        if line.Failure? {
          assert ParseAll(lines) == Failure(line.error) by {
            assert lines[..i + 1][..i] == lines[..i] && lines[..i + 1][i] == lines[i];
            ParseEachFailsWithPrefix(lines, ParseLine, i + 1);
          }
          assert ParseAll(lines[..i]).Success? && ParseLine(lines[i]).Failure?
              && teams.Keys == TeamNames(ParseAll(lines[..i]).value);
          r := Failure(line.error);
          return;
        }
        var rec := line.value;
        ghost var before := teams;
        var game := GameOf(rec);
        BuiltFromKept(games, recs, game, rec, before, teams);
        ParseEachStep(lines, ParseLine, i, recs, rec);
        TeamNamesStep(recs, rec);
        games := games + [game];
        recs := recs + [rec];
        i := i + 1;
      }
      assert lines[..i] == lines;
      assert ParseAll(lines) == Success(recs);
      SameTeamExactlyWhenSameName(games, recs, teams);
      r := Success(games);
    }
  }
}
