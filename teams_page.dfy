/**
 * The teams listing's data path (app/teams/page.tsx): the player rows the
 * backend returns are grouped by team name into one record per team, holding
 * its player count and its goal total.
 */
module Teams {
  import opened Wrappers
  import opened JsObject

  /** One row of the `players` query: a non-null team name and a nullable goal count. */
  datatype Row = Row(team: string, goals: Option<int>)

  /** What the backend query yields: its rows, or an error. */
  datatype QueryResult = Rows(rows: seq<Row>) | QueryError

  /** The aggregate record built per team. */
  datatype Team = Team(name: string, playerCount: int, totalGoals: int)

  /** The two per-team statistics. */
  datatype Stat = Players | Goals

  /** `goals || 0`: a null goal count contributes nothing. */
  function GoalValue(goals: Option<int>): int
  {
    match goals
    case None => 0
    case Some(g) => g
  }

  /** What one row adds to a statistic of its team. */
  function Contribution(row: Row, s: Stat): int
  {
    match s
    case Players => 1
    case Goals => GoalValue(row.goals)
  }

  /** The field of a team record that holds a statistic. */
  function Field(team: Team, s: Stat): int
  {
    match s
    case Players => team.playerCount
    case Goals => team.totalGoals
  }

  /** The statistic of team `name` computed directly from the rows. */
  function Tally(rows: seq<Row>, name: string, s: Stat): int
  {
    if rows == [] then 0
    else
      var last := rows[|rows| - 1];
      Tally(rows[..|rows| - 1], name, s) + (if last.team == name then Contribution(last, s) else 0)
  }

  /** The statistic summed over every row, whatever its team. */
  function InputTally(rows: seq<Row>, s: Stat): int
  {
    if rows == [] then 0
    else InputTally(rows[..|rows| - 1], s) + Contribution(rows[|rows| - 1], s)
  }

  /** The team names that occur in the rows. */
  function TeamSet(rows: seq<Row>): set<string>
  {
    set i | 0 <= i < |rows| :: rows[i].team
  }

  /** The sum of a statistic over a list of team records, left to right. */
  function SumOf(teams: seq<Team>, s: Stat): int
  {
    if teams == [] then 0
    else SumOf(teams[..|teams| - 1], s) + Field(teams[|teams| - 1], s)
  }

  /** The names of a list of team records. */
  function Names(teams: seq<Team>): (r: seq<string>)
    ensures |r| == |teams|
  {
    seq(|teams|, i requires 0 <= i < |teams| => teams[i].name)
  }

  lemma TeamSetSnoc(rows: seq<Row>, row: Row)
    ensures TeamSet(rows + [row]) == TeamSet(rows) + {row.team}
  {
    var all := rows + [row];
    assert all[|rows|] == row;
    forall n | n in TeamSet(all) ensures n in TeamSet(rows) + {row.team} {
      var i :| 0 <= i < |all| && all[i].team == n;
      if i < |rows| { assert all[i] == rows[i]; }
    }
    forall n | n in TeamSet(rows) ensures n in TeamSet(all) {
      var i :| 0 <= i < |rows| && rows[i].team == n;
      assert all[i] == rows[i];
    }
  }

  /** The position of the first row of team `name`. */
  function FirstIndex(rows: seq<Row>, name: string): (p: nat)
    requires name in TeamSet(rows)
    ensures p < |rows| && rows[p].team == name
    ensures forall q :: 0 <= q < p ==> rows[q].team != name
  {
    var prefix := rows[..|rows| - 1];
    assert rows == prefix + [rows[|rows| - 1]];
    TeamSetSnoc(prefix, rows[|rows| - 1]);
    if name in TeamSet(prefix) then FirstIndex(prefix, name)
    else
      assert forall q :: 0 <= q < |prefix| ==> prefix[q].team in TeamSet(prefix);
      |rows| - 1
  }

  /** The team names in the order in which each first occurs in the rows. */
  function FirstOccurrences(rows: seq<Row>): (ks: seq<string>)
    ensures Distinct(ks)
    ensures forall n :: n in ks <==> n in TeamSet(rows)
  {
    if rows == [] then []
    else
      var prefix := rows[..|rows| - 1];
      var t := rows[|rows| - 1].team;
      assert rows == prefix + [rows[|rows| - 1]];
      TeamSetSnoc(prefix, rows[|rows| - 1]);
      var seen := FirstOccurrences(prefix);
      if t in seen then seen else seen + [t]
  }

  /** The record every team name should end up with. */
  function TeamMap(rows: seq<Row>): (m: map<string, Team>)
    ensures m.Keys == TeamSet(rows)
  {
    map n | n in TeamSet(rows) :: Team(n, Tally(rows, n, Players), Tally(rows, n, Goals))
  }

  /**
   * What `getTeams` returns for rows: `Object.values` of the per-team records,
   * whose keys were inserted in first-occurrence order.
   */
  function Aggregate(rows: seq<Row>): seq<Team>
  {
    ObjectValues(TeamMap(rows), FirstOccurrences(rows))
  }

  lemma TallySnoc(rows: seq<Row>, row: Row, name: string, s: Stat)
    ensures Tally(rows + [row], name, s) == Tally(rows, name, s) + (if row.team == name then Contribution(row, s) else 0)
  {
    assert (rows + [row])[..|rows|] == rows;
  }

  lemma {:induction false} TallyOutside(rows: seq<Row>, name: string, s: Stat)
    requires name !in TeamSet(rows)
    ensures Tally(rows, name, s) == 0
  {
    if rows != [] {
      var prefix := rows[..|rows| - 1];
      assert rows == prefix + [rows[|rows| - 1]];
      TeamSetSnoc(prefix, rows[|rows| - 1]);
      TallyOutside(prefix, name, s);
    }
  }

  /** Feeding one more row into the per-team records bumps exactly that row's team. */
  lemma TeamMapSnoc(rows: seq<Row>, row: Row)
    ensures
      var before := TeamMap(rows);
      var e := if row.team in before then before[row.team] else Team(row.team, 0, 0);
      TeamMap(rows + [row]) ==
        before[row.team := Team(row.team, e.playerCount + 1, e.totalGoals + GoalValue(row.goals))]
  {
    var t := row.team;
    TeamSetSnoc(rows, row);
    if t !in TeamSet(rows) {
      TallyOutside(rows, t, Players);
      TallyOutside(rows, t, Goals);
    }
    forall n ensures Tally(rows + [row], n, Players) == Tally(rows, n, Players) + (if t == n then 1 else 0)
      && Tally(rows + [row], n, Goals) == Tally(rows, n, Goals) + (if t == n then GoalValue(row.goals) else 0)
    {
      TallySnoc(rows, row, n, Players);
      TallySnoc(rows, row, n, Goals);
    }
  }

  lemma FirstOccurrencesSnoc(rows: seq<Row>, row: Row)
    ensures
      var seen := FirstOccurrences(rows);
      FirstOccurrences(rows + [row]) == if row.team in seen then seen else seen + [row.team]
  {
    assert (rows + [row])[..|rows|] == rows;
  }

  /** The record being built (its entries, and its keys in insertion order). */
  datatype Accumulator = Accumulator(entries: map<string, Team>, order: seq<string>)

  /**
   * One call of the reduce callback: make the `{name, 0, 0}` record of the
   * row's team if it has none, then add one player and the row's goals to it.
   */
  function Step(acc: Accumulator, row: Row): Accumulator
  {
    var t := row.team;
    var e := if t in acc.entries then acc.entries[t] else Team(t, 0, 0);
    Accumulator(
      acc.entries[t := e.(playerCount := e.playerCount + 1, totalGoals := e.totalGoals + GoalValue(row.goals))],
      if t in acc.entries then acc.order else acc.order + [t])
  }

  /** The reduce over the rows, from the empty record. */
  function Reduce(rows: seq<Row>): Accumulator
  {
    if rows == [] then Accumulator(map[], [])
    else Step(Reduce(rows[..|rows| - 1]), rows[|rows| - 1])
  }

  lemma {:induction false} ReduceEntries(rows: seq<Row>)
    ensures Reduce(rows).entries == TeamMap(rows)
  {
    if rows != [] {
      var prefix := rows[..|rows| - 1];
      var row := rows[|rows| - 1];
      assert rows == prefix + [row];
      ReduceEntries(prefix);
      TeamMapSnoc(prefix, row);
      var before := TeamMap(prefix);
      var t := row.team;
      var e := if t in before then before[t] else Team(t, 0, 0);
      assert e.name == t;
      assert Reduce(rows).entries == before[t := e.(playerCount := e.playerCount + 1, totalGoals := e.totalGoals + GoalValue(row.goals))];
    }
  }

  lemma {:induction false} ReduceOrder(rows: seq<Row>)
    ensures Reduce(rows).order == FirstOccurrences(rows)
  {
    if rows != [] {
      var prefix := rows[..|rows| - 1];
      var row := rows[|rows| - 1];
      assert rows == prefix + [row];
      ReduceOrder(prefix);
      ReduceEntries(prefix);
      FirstOccurrencesSnoc(prefix, row);
      assert row.team in Reduce(prefix).entries <==> row.team in FirstOccurrences(prefix);
    }
  }

  /** The reduce builds, for every team that occurs, its row count and goal sum, keyed in first-occurrence order. */
  lemma ReduceMeaning(rows: seq<Row>)
    ensures Reduce(rows) == Accumulator(TeamMap(rows), FirstOccurrences(rows))
  {
    ReduceEntries(rows);
    ReduceOrder(rows);
  }

  /**
   * getTeams: group the rows by team (the reduce over a mutable record) and
   * list the records; a query error yields the empty list.
   */
  method GetTeams(query: QueryResult) returns (teams: seq<Team>)
    ensures query.QueryError? ==> teams == []
    ensures query.Rows? ==> teams == Aggregate(query.rows)
  {
    if query.QueryError? {
      return [];
    }
    var rows := query.rows;
    var acc: map<string, Team> := map[];
    var keys: seq<string> := [];
    var i := 0;
    while i < |rows|
      invariant 0 <= i <= |rows|
      invariant Accumulator(acc, keys) == Reduce(rows[..i])
    {
      var player := rows[i];
      ghost var before := Accumulator(acc, keys);
      if player.team !in acc {
        acc := acc[player.team := Team(player.team, 0, 0)];
        keys := keys + [player.team];
      }
      acc := acc[player.team := acc[player.team].(playerCount := acc[player.team].playerCount + 1)];
      acc := acc[player.team := acc[player.team].(totalGoals := acc[player.team].totalGoals + GoalValue(player.goals))];
      assert Accumulator(acc, keys) == Step(before, player);
      assert rows[..i + 1][..i] == rows[..i];
      i := i + 1;
    }
    assert rows[..i] == rows;
    ReduceMeaning(rows);
    teams := ObjectValues(acc, keys);
  }

  // Properties of the aggregate.

  lemma {:induction false} PlayerTallyCounts(rows: seq<Row>, name: string)
    ensures Tally(rows, name, Players) >= 0
    ensures Tally(rows, name, Players) >= 1 <==> name in TeamSet(rows)
  {
    if rows != [] {
      var prefix := rows[..|rows| - 1];
      assert rows == prefix + [rows[|rows| - 1]];
      TeamSetSnoc(prefix, rows[|rows| - 1]);
      PlayerTallyCounts(prefix, name);
    }
  }

  /**
   * Each listed record is stored under its own name and carries its team's
   * number of rows and sum of goals (null as 0); no listed team is empty.
   */
  lemma AggregateEntries(rows: seq<Row>)
    ensures forall i :: 0 <= i < |Aggregate(rows)| ==>
      var t := Aggregate(rows)[i];
      && t.name in TeamSet(rows)
      && t == TeamMap(rows)[t.name]
      && t.playerCount == Tally(rows, t.name, Players)
      && t.totalGoals == Tally(rows, t.name, Goals)
      && t.playerCount >= 1
  {
    var ks := OwnKeys(FirstOccurrences(rows));
    forall i | 0 <= i < |Aggregate(rows)|
      ensures Tally(rows, ks[i], Players) >= 1
    {
      PlayerTallyCounts(rows, ks[i]);
    }
  }

  lemma {:induction false} DistinctCardinality(ks: seq<string>)
    requires Distinct(ks)
    ensures |set k | k in ks| == |ks|
  {
    if ks != [] {
      var prefix := ks[..|ks| - 1];
      var last := ks[|ks| - 1];
      assert ks == prefix + [last];
      assert (set k | k in ks) == (set k | k in prefix) + {last};
      assert last !in prefix;
      DistinctCardinality(prefix);
    }
  }

  /** The listed names are pairwise distinct and are exactly the teams that occur in the rows. */
  lemma AggregateNames(rows: seq<Row>)
    ensures Names(Aggregate(rows)) == OwnKeys(FirstOccurrences(rows))
    ensures Distinct(Names(Aggregate(rows)))
    ensures forall n :: n in Names(Aggregate(rows)) <==> n in TeamSet(rows)
    ensures |Aggregate(rows)| == |TeamSet(rows)|
  {
    var names := Names(Aggregate(rows));
    assert names == OwnKeys(FirstOccurrences(rows));
    DistinctCardinality(names);
    assert (set k | k in names) == TeamSet(rows);
  }

  /** Only an empty input gives an empty list. */
  lemma AggregateEmpty(rows: seq<Row>)
    ensures Aggregate(rows) == [] <==> rows == []
  {
    AggregateNames(rows);
    if rows != [] {
      assert rows[0].team in TeamSet(rows);
    }
  }

  lemma {:induction false} InputTallyPlayers(rows: seq<Row>)
    ensures InputTally(rows, Players) == |rows|
  {
    if rows != [] {
      InputTallyPlayers(rows[..|rows| - 1]);
    }
  }

  /** A statistic summed, team by team, over the names `ks`. */
  function TallyAll(ks: seq<string>, rows: seq<Row>, s: Stat): int
  {
    if ks == [] then 0
    else TallyAll(ks[..|ks| - 1], rows, s) + Tally(rows, ks[|ks| - 1], s)
  }

  lemma {:induction false} TallyAllSnocRow(ks: seq<string>, rows: seq<Row>, row: Row, s: Stat)
    requires Distinct(ks)
    ensures TallyAll(ks, rows + [row], s) == TallyAll(ks, rows, s) + (if row.team in ks then Contribution(row, s) else 0)
  {
    if ks != [] {
      var prefix := ks[..|ks| - 1];
      var last := ks[|ks| - 1];
      assert ks == prefix + [last];
      assert Distinct(prefix);
      TallyAllSnocRow(prefix, rows, row, s);
      TallySnoc(rows, row, last, s);
    }
  }

  /** Summed over distinct names that cover every row, the per-team statistic is the input total. */
  lemma {:induction false} TallyAllCovers(ks: seq<string>, rows: seq<Row>, s: Stat)
    requires Distinct(ks)
    requires forall i :: 0 <= i < |rows| ==> rows[i].team in ks
    ensures TallyAll(ks, rows, s) == InputTally(rows, s)
  {
    if rows == [] {
      TallyAllEmpty(ks, s);
    } else {
      var prefix := rows[..|rows| - 1];
      var last := rows[|rows| - 1];
      assert rows == prefix + [last];
      TallyAllCovers(ks, prefix, s);
      TallyAllSnocRow(ks, prefix, last, s);
    }
  }

  lemma {:induction false} TallyAllEmpty(ks: seq<string>, s: Stat)
    ensures TallyAll(ks, [], s) == 0
  {
    if ks != [] {
      TallyAllEmpty(ks[..|ks| - 1], s);
    }
  }

  lemma {:induction false} SumOfTallies(teams: seq<Team>, ks: seq<string>, rows: seq<Row>, s: Stat)
    requires |teams| == |ks|
    requires forall i :: 0 <= i < |ks| ==> Field(teams[i], s) == Tally(rows, ks[i], s)
    ensures SumOf(teams, s) == TallyAll(ks, rows, s)
  {
    if ks != [] {
      SumOfTallies(teams[..|teams| - 1], ks[..|ks| - 1], rows, s);
    }
  }

  /** Summed over the list, each statistic equals its total over the input rows. */
  lemma AggregateTallies(rows: seq<Row>, s: Stat)
    ensures SumOf(Aggregate(rows), s) == InputTally(rows, s)
  {
    var ks := OwnKeys(FirstOccurrences(rows));
    var teams := Aggregate(rows);
    forall i | 0 <= i < |ks| ensures Field(teams[i], s) == Tally(rows, ks[i], s) {
      assert teams[i] == TeamMap(rows)[ks[i]];
    }
    forall i | 0 <= i < |rows| ensures rows[i].team in ks {
      assert rows[i].team in TeamSet(rows);
    }
    SumOfTallies(teams, ks, rows, s);
    TallyAllCovers(ks, rows, s);
  }

  /**
   * Conservation: the player counts of the list add up to the number of rows,
   * and its goal totals to the sum of all goals (null as 0).
   */
  lemma AggregateConserves(rows: seq<Row>)
    ensures SumOf(Aggregate(rows), Players) == |rows|
    ensures SumOf(Aggregate(rows), Goals) == InputTally(rows, Goals)
  {
    AggregateTallies(rows, Players);
    AggregateTallies(rows, Goals);
    InputTallyPlayers(rows);
  }

  lemma FirstIndexSnoc(rows: seq<Row>, row: Row, name: string)
    requires name in TeamSet(rows)
    ensures name in TeamSet(rows + [row]) && FirstIndex(rows + [row], name) == FirstIndex(rows, name)
  {
    TeamSetSnoc(rows, row);
    assert (rows + [row])[..|rows|] == rows;
  }

  /** Each team's first row comes before the first row of every team listed after it. */
  lemma {:induction false} FirstOccurrencesOrdered(rows: seq<Row>)
    ensures var ks := FirstOccurrences(rows);
      forall i, j :: 0 <= i < j < |ks| ==> FirstIndex(rows, ks[i]) < FirstIndex(rows, ks[j])
  {
    if rows != [] {
      var prefix := rows[..|rows| - 1];
      var row := rows[|rows| - 1];
      assert rows == prefix + [row];
      FirstOccurrencesOrdered(prefix);
      FirstOccurrencesSnoc(prefix, row);
      var seen := FirstOccurrences(prefix);
      var ks := FirstOccurrences(rows);
      forall i | 0 <= i < |seen| ensures FirstIndex(rows, seen[i]) == FirstIndex(prefix, seen[i]) < |prefix| {
        FirstIndexSnoc(prefix, row, seen[i]);
      }
      if row.team !in seen {
        TeamSetSnoc(prefix, row);
        assert FirstIndex(rows, row.team) == |prefix|;
      }
    }
  }

  /**
   * When no team name is an array index, the list is in the order in which
   * each team first occurs in the rows.
   */
  lemma AggregateFirstOccurrenceOrder(rows: seq<Row>)
    requires forall i :: 0 <= i < |rows| ==> !IsArrayIndex(rows[i].team)
    ensures Names(Aggregate(rows)) == FirstOccurrences(rows)
    ensures forall i, j :: 0 <= i < j < |Aggregate(rows)| ==>
      FirstIndex(rows, Aggregate(rows)[i].name) < FirstIndex(rows, Aggregate(rows)[j].name)
  {
    var ks := FirstOccurrences(rows);
    forall i | 0 <= i < |ks| ensures !IsArrayIndex(ks[i]) {
      assert ks[i] in TeamSet(rows);
    }
    AggregateNames(rows);
    FirstOccurrencesOrdered(rows);
  }

  /** In general, teams whose names are array indices come first, by ascending numeric value. */
  lemma AggregateArrayIndicesFirst(rows: seq<Row>)
    ensures forall i, j :: 0 <= i < j < |Aggregate(rows)| && IsArrayIndex(Aggregate(rows)[j].name) ==>
      IsArrayIndex(Aggregate(rows)[i].name) && DigitsValue(Aggregate(rows)[i].name) <= DigitsValue(Aggregate(rows)[j].name)
  {
    AggregateNames(rows);
  }

  /** Three rows for two teams give two records, in first-occurrence order. */
  lemma AggregateExample()
    ensures Aggregate([Row("A", Some(3)), Row("A", Some(5)), Row("B", None)])
         == [Team("A", 2, 8), Team("B", 1, 0)]
  {
    var rows := [Row("A", Some(3)), Row("A", Some(5)), Row("B", None)];
    ExampleTeamMap();
    ExampleFirstOccurrences();
    assert !IsArrayIndex("A") && !IsArrayIndex("B");
    var ks := OwnKeys(["A", "B"]);
    assert ks == ["A", "B"];
    var r := Values(TeamMap(rows), ks);
    assert r[0] == Team("A", 2, 8) && r[1] == Team("B", 1, 0);
  }

  lemma ExampleTeamMap()
    ensures TeamMap([Row("A", Some(3)), Row("A", Some(5)), Row("B", None)])
         == map["A" := Team("A", 2, 8), "B" := Team("B", 1, 0)]
  {
    var r1 := [Row("A", Some(3))];
    var r2 := r1 + [Row("A", Some(5))];
    assert TeamMap([]) == map[];
    TeamMapSnoc([], Row("A", Some(3)));
    assert [] + [Row("A", Some(3))] == r1;
    assert TeamMap(r1) == map["A" := Team("A", 1, 3)];
    TeamMapSnoc(r1, Row("A", Some(5)));
    assert TeamMap(r2) == map["A" := Team("A", 2, 8)];
    TeamMapSnoc(r2, Row("B", None));
    assert r2 + [Row("B", None)] == [Row("A", Some(3)), Row("A", Some(5)), Row("B", None)];
  }

  lemma ExampleFirstOccurrences()
    ensures FirstOccurrences([Row("A", Some(3)), Row("A", Some(5)), Row("B", None)]) == ["A", "B"]
  {
    var r1 := [Row("A", Some(3))];
    var r2 := r1 + [Row("A", Some(5))];
    FirstOccurrencesSnoc([], Row("A", Some(3)));
    assert [] + [Row("A", Some(3))] == r1;
    FirstOccurrencesSnoc(r1, Row("A", Some(5)));
    FirstOccurrencesSnoc(r2, Row("B", None));
    assert r2 + [Row("B", None)] == [Row("A", Some(3)), Row("A", Some(5)), Row("B", None)];
  }

  // The reduce as written: `acc[team]` on a plain object also finds inherited members.

  /** The members every plain object inherits from Object.prototype; each one is truthy. */
  const ObjectPrototypeNames: set<string> := {
    "constructor", "__proto__", "__defineGetter__", "__defineSetter__",
    "__lookupGetter__", "__lookupSetter__", "hasOwnProperty", "isPrototypeOf",
    "propertyIsEnumerable", "toLocaleString", "toString", "valueOf"
  }

  /**
   * The reduce of getTeams as written. `!acc[team]` is false for an inherited
   * member, so no own record is made for such a team, and its `+=` updates land
   * on the inherited object instead of on `acc`.
   */
  function ReduceAsWritten(rows: seq<Row>): (r: Accumulator)
    ensures forall k :: k in r.order <==> k in r.entries
    ensures forall k :: k in r.entries ==> r.entries[k].name == k
  {
    if rows == [] then Accumulator(map[], [])
    else
      var acc := ReduceAsWritten(rows[..|rows| - 1]);
      var row := rows[|rows| - 1];
      if row.team !in acc.entries && row.team in ObjectPrototypeNames then acc
      else Step(acc, row)
  }

  /** getTeams as written, on rows the query returned. */
  function GetTeamsAsWritten(rows: seq<Row>): seq<Team>
  {
    var r := ReduceAsWritten(rows);
    ObjectValues(r.entries, r.order)
  }

  lemma {:induction false} AsWrittenKeysNotInherited(rows: seq<Row>)
    ensures forall k :: k in ReduceAsWritten(rows).entries ==> k !in ObjectPrototypeNames
  {
    if rows != [] {
      AsWrittenKeysNotInherited(rows[..|rows| - 1]);
    }
  }

  /** As written, a team named like an Object.prototype member never appears in the list. */
  lemma AsWrittenDropsPrototypeNames(rows: seq<Row>)
    ensures forall n :: n in ObjectPrototypeNames ==> n !in Names(GetTeamsAsWritten(rows))
  {
    AsWrittenKeysNotInherited(rows);
    var r := ReduceAsWritten(rows);
    var ks := OwnKeys(r.order);
    assert forall i :: 0 <= i < |ks| ==> Names(GetTeamsAsWritten(rows))[i] == ks[i];
  }

  lemma {:induction false} AsWrittenReduceAgrees(rows: seq<Row>)
    requires forall i :: 0 <= i < |rows| ==> rows[i].team !in ObjectPrototypeNames
    ensures ReduceAsWritten(rows) == Reduce(rows)
  {
    if rows != [] {
      AsWrittenReduceAgrees(rows[..|rows| - 1]);
      assert rows[|rows| - 1].team !in ObjectPrototypeNames;
    }
  }

  /** Apart from those names, getTeams as written agrees with the corrected one. */
  lemma AsWrittenAgreesElsewhere(rows: seq<Row>)
    requires forall i :: 0 <= i < |rows| ==> rows[i].team !in ObjectPrototypeNames
    ensures GetTeamsAsWritten(rows) == Aggregate(rows)
  {
    AsWrittenReduceAgrees(rows);
    ReduceMeaning(rows);
  }

  /** A single player of a team named "toString" is counted by the corrected reduce and lost as written. */
  lemma AsWrittenLosesToString()
    ensures GetTeamsAsWritten([Row("toString", Some(3))]) == []
    ensures Aggregate([Row("toString", Some(3))]) == [Team("toString", 1, 3)]
  {
    var rows := [Row("toString", Some(3))];
    assert rows[..0] == [];
    assert ReduceAsWritten(rows) == Accumulator(map[], []);
    assert Reduce(rows) == Accumulator(map["toString" := Team("toString", 1, 3)], ["toString"]);
    ReduceMeaning(rows);
    assert !IsArrayIndex("toString");
    assert OwnKeys(["toString"]) == ["toString"];
  }

  /** The rows whose team is not an Object.prototype member, in their order. */
  function Unshadowed(rows: seq<Row>): (r: seq<Row>)
    ensures |r| <= |rows|
    ensures forall i :: 0 <= i < |r| ==> r[i].team !in ObjectPrototypeNames
  {
    if rows == [] then []
    else
      var last := rows[|rows| - 1];
      Unshadowed(rows[..|rows| - 1]) + (if last.team in ObjectPrototypeNames then [] else [last])
  }

  /** The reduce as written is the corrected reduce over the rows whose team is not a prototype name. */
  lemma {:induction false} AsWrittenIsFiltered(rows: seq<Row>)
    ensures ReduceAsWritten(rows) == Reduce(Unshadowed(rows))
  {
    if rows != [] {
      var prefix := rows[..|rows| - 1];
      var last := rows[|rows| - 1];
      AsWrittenIsFiltered(prefix);
      AsWrittenKeysNotInherited(prefix);
      var p := Unshadowed(prefix);
      if last.team in ObjectPrototypeNames {
        assert Unshadowed(rows) == p;
        assert ReduceAsWritten(rows) == ReduceAsWritten(prefix);
      } else {
        assert Unshadowed(rows) == p + [last];
        assert (p + [last])[..|p|] == p;
        assert Reduce(p + [last]) == Step(Reduce(p), last);
      }
    }
  }

  /** On any rows, getTeams as written lists exactly what the corrected one lists once the prototype-named rows are removed. */
  lemma AsWrittenListIsFiltered(rows: seq<Row>)
    ensures GetTeamsAsWritten(rows) == Aggregate(Unshadowed(rows))
  {
    AsWrittenIsFiltered(rows);
    ReduceMeaning(Unshadowed(rows));
  }
}
