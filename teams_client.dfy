/**
 * What the teams page derives from the list it is given
 * (app/teams/TeamsClient.tsx): the footer totals, the empty-list branch, the
 * cycled card colours, the team logo and the element id of each team link.
 */
module TeamsClient {
  import opened Wrappers
  import opened JsObject
  import opened Teams

  // Footer totals and the empty-list branch.

  /** The three footer figures: Total Teams, Total Players, Total Goals. */
  datatype FooterStats = FooterStats(totalTeams: int, totalPlayers: int, totalGoals: int)

  /**
   * The footer: the list's length (the number the header badge shows too) and
   * the sums of its player counts and of its goal totals.
   */
  function Footer(teams: seq<Team>): FooterStats
  {
    FooterStats(|teams|, SumOf(teams, Players), SumOf(teams, Goals))
  }

  /** The "No teams found" branch. */
  predicate ShowsEmptyState(teams: seq<Team>)
  {
    |teams| == 0
  }

  /**
   * Over the list built from rows, Total Teams is the number of distinct teams,
   * Total Players the number of rows and Total Goals the sum of every row's
   * goals (null as 0); the empty-list branch is taken exactly when there are no rows.
   */
  lemma FooterOfRows(rows: seq<Row>)
    ensures Footer(Aggregate(rows)) == FooterStats(|TeamSet(rows)|, |rows|, InputTally(rows, Goals))
    ensures ShowsEmptyState(Aggregate(rows)) <==> rows == []
  {
    AggregateNames(rows);
    AggregateConserves(rows);
    AggregateEmpty(rows);
  }

  /** The teams page: fetch the list, then render its footer and choose the branch. */
  method TeamsPage(query: QueryResult) returns (footer: FooterStats, emptyState: bool)
    ensures query.QueryError? ==> footer == FooterStats(0, 0, 0) && emptyState
    ensures query.Rows? ==>
      && footer == FooterStats(|TeamSet(query.rows)|, |query.rows|, InputTally(query.rows, Goals))
      && (emptyState <==> query.rows == [])
  {
    var teams := GetTeams(query);
    if query.Rows? {
      FooterOfRows(query.rows);
    }
    footer := Footer(teams);
    emptyState := ShowsEmptyState(teams);
  }

  // Card colours.

  /** The gradient classes the cards cycle through. */
  const Colors: seq<string> := [
    "from-red-500 to-orange-500",
    "from-blue-500 to-cyan-500",
    "from-purple-500 to-pink-500",
    "from-green-500 to-emerald-500",
    "from-yellow-500 to-orange-500"
  ]

  /** `index % colors.length` for the card at position `index`. */
  function ColorIndex(index: nat): (r: nat)
    ensures r < |Colors|
    ensures index < |Colors| ==> r == index
  {
    index % |Colors|
  }

  function CardColor(index: nat): string
  {
    Colors[ColorIndex(index)]
  }

  /** The colours repeat with period five, and two cards share a colour exactly when their positions agree modulo five. */
  lemma CardColorCycle(i: nat, j: nat)
    ensures CardColor(i + |Colors|) == CardColor(i)
    ensures CardColor(i) == CardColor(j) <==> i % 5 == j % 5
  {
    assert Colors[0][5] == 'r' && Colors[1][5] == 'b' && Colors[2][5] == 'p'
        && Colors[3][5] == 'g' && Colors[4][5] == 'y';
    assert Distinct(Colors);
  }

  // Team logos.

  /** The logos of the five featured teams. */
  const TeamLogos: map<string, string> := map[
    "Inter Miami" := "🦩",
    "Al Nassr" := "⚡",
    "Al Hilal" := "🌙",
    "Manchester City" := "💙",
    "Liverpool" := "❤️"
  ]

  const DefaultLogo: string := "⚽"

  /** `teamLogos[name] || "⚽"`: the mapped logo when it is a non-empty string, else the ball. */
  function Logo(name: string): (r: string)
    ensures r != []
  {
    if name in TeamLogos && TeamLogos[name] != "" then TeamLogos[name] else DefaultLogo
  }

  /** The five featured teams get their own logo; every other team, and only those, gets the ball. */
  lemma LogoCases(name: string)
    ensures name in TeamLogos ==> Logo(name) == TeamLogos[name]
    ensures Logo(name) == DefaultLogo <==> name !in TeamLogos
  {
    assert forall k :: k in TeamLogos ==> TeamLogos[k] != "" && TeamLogos[k] != DefaultLogo;
  }

  // Element id of a team link.

  /** JavaScript's `\s`: the white-space and line-terminator code points. */
  const Whitespace: set<char> := {
    '\t', '\n', '\U{000B}', '\U{000C}', '\r', ' ', '\U{00A0}', '\U{1680}',
    '\U{2000}', '\U{2001}', '\U{2002}', '\U{2003}', '\U{2004}', '\U{2005}',
    '\U{2006}', '\U{2007}', '\U{2008}', '\U{2009}', '\U{200A}',
    '\U{2028}', '\U{2029}', '\U{202F}', '\U{205F}', '\U{3000}', '\U{FEFF}'
  }

  predicate IsWhitespace(c: char)
  {
    c in Whitespace
  }

  predicate NoWhitespace(s: string)
  {
    forall i :: 0 <= i < |s| ==> !IsWhitespace(s[i])
  }

  predicate IsUpper(c: char)
  {
    'A' <= c <= 'Z'
  }

  predicate NoUpper(s: string)
  {
    forall i :: 0 <= i < |s| ==> !IsUpper(s[i])
  }

  function LowerChar(c: char): char
  {
    if IsUpper(c) then (c as int + 32) as char else c
  }

  /** `toLowerCase`, on the ASCII letters. */
  function ToLower(s: string): (r: string)
    ensures |r| == |s| && NoUpper(r)
    ensures forall i :: 0 <= i < |s| ==> IsWhitespace(r[i]) == IsWhitespace(s[i])
    ensures NoUpper(s) ==> r == s
    ensures forall i :: 0 <= i < |s| ==>
      r[i] == if IsUpper(s[i]) then "abcdefghijklmnopqrstuvwxyz"[s[i] as int - 'A' as int] else s[i]
  {
    seq(|s|, i requires 0 <= i < |s| => LowerChar(s[i]))
  }

  /** `s` without its leading white space. */
  function DropWhitespace(s: string): (r: string)
    ensures |r| <= |s|
    ensures r == [] || !IsWhitespace(r[0])
    ensures forall i :: 0 <= i < |s| - |r| ==> IsWhitespace(s[i])
  {
    if s != [] && IsWhitespace(s[0]) then DropWhitespace(s[1..]) else s
  }

  /** What is left after dropping the leading white space is a suffix of the string. */
  lemma {:induction false} DropWhitespaceSuffix(s: string)
    ensures DropWhitespace(s) == s[|s| - |DropWhitespace(s)|..]
  {
    if s != [] && IsWhitespace(s[0]) {
      DropWhitespaceSuffix(s[1..]);
      assert s[1..][|s| - 1 - |DropWhitespace(s)|..] == s[|s| - |DropWhitespace(s)|..];
    }
  }

  lemma NoWhitespaceCons(c: char, t: string)
    requires !IsWhitespace(c) && NoWhitespace(t)
    ensures NoWhitespace([c] + t)
  {
    assert forall i :: 1 <= i < |t| + 1 ==> ([c] + t)[i] == t[i - 1];
  }

  /** `replace(/\s+/g, '-')`: each maximal run of white space becomes a single '-'. */
  function CollapseWhitespace(s: string): (r: string)
    ensures NoWhitespace(r)
    decreases |s|
  {
    if s == [] then []
    else if IsWhitespace(s[0]) then
      var tail := CollapseWhitespace(DropWhitespace(s[1..]));
      NoWhitespaceCons('-', tail);
      "-" + tail
    else
      var tail := CollapseWhitespace(s[1..]);
      NoWhitespaceCons(s[0], tail);
      [s[0]] + tail
  }

  /** The replacement introduces no upper-case letter. */
  lemma {:induction false} CollapseKeepsLowerCase(s: string)
    requires NoUpper(s)
    ensures NoUpper(CollapseWhitespace(s))
    decreases |s|
  {
    if s != [] {
      if IsWhitespace(s[0]) {
        var rest := DropWhitespace(s[1..]);
        DropWhitespaceSuffix(s[1..]);
        assert rest == s[|s| - |rest|..];
        CollapseKeepsLowerCase(rest);
        var tail := CollapseWhitespace(rest);
        assert forall i :: 1 <= i < |tail| + 1 ==> ("-" + tail)[i] == tail[i - 1];
      } else {
        CollapseKeepsLowerCase(s[1..]);
        var tail := CollapseWhitespace(s[1..]);
        assert forall i :: 1 <= i < |tail| + 1 ==> ([s[0]] + tail)[i] == tail[i - 1];
      }
    }
  }

  /** A string without white space is left as it is. */
  lemma {:induction false} CollapseFixesClean(s: string)
    requires NoWhitespace(s)
    ensures CollapseWhitespace(s) == s
  {
    if s != [] {
      assert !IsWhitespace(s[0]);
      CollapseFixesClean(s[1..]);
    }
  }

  const IdPrefix: string := "gtm-team-"

  /** The id of a team's link. */
  function DomId(name: string): string
  {
    IdPrefix + CollapseWhitespace(ToLower(name))
  }

  /** The id is the prefix followed by a white-space-free, lower-case suffix. */
  lemma DomIdShape(name: string)
    ensures |DomId(name)| >= |IdPrefix| && DomId(name)[..|IdPrefix|] == IdPrefix
    ensures NoWhitespace(DomId(name)[|IdPrefix|..]) && NoUpper(DomId(name)[|IdPrefix|..])
  {
    var suffix := CollapseWhitespace(ToLower(name));
    CollapseKeepsLowerCase(ToLower(name));
    assert DomId(name)[|IdPrefix|..] == suffix;
  }

  /** Turning the suffix into an id suffix again leaves it unchanged. */
  lemma DomIdSuffixIdempotent(name: string)
    ensures var suffix := CollapseWhitespace(ToLower(name));
      CollapseWhitespace(ToLower(suffix)) == suffix
  {
    var suffix := CollapseWhitespace(ToLower(name));
    CollapseKeepsLowerCase(ToLower(name));
    assert ToLower(suffix) == suffix;
    CollapseFixesClean(suffix);
  }

  lemma {:induction false} DropWhitespaceConcat(a: string, b: string)
    ensures DropWhitespace(a + b) == if DropWhitespace(a) == [] then DropWhitespace(b) else DropWhitespace(a) + b
  {
    if a != [] {
      assert (a + b)[0] == a[0] && (a + b)[1..] == a[1..] + b;
      if IsWhitespace(a[0]) {
        DropWhitespaceConcat(a[1..], b);
      }
    } else {
      assert a + b == b;
    }
  }

  /**
   * The replacement works piece by piece: collapsing a concatenation is
   * collapsing each part, unless a white-space run straddles the seam.
   */
  lemma {:induction false} CollapseConcat(x: string, y: string)
    requires x == [] || y == [] || !IsWhitespace(x[|x| - 1]) || !IsWhitespace(y[0])
    ensures CollapseWhitespace(x + y) == CollapseWhitespace(x) + CollapseWhitespace(y)
    decreases |x|, 1
  {
    if x == [] {
      assert x + y == y;
    } else if IsWhitespace(x[0]) {
      CollapseConcatRun(x, y);
    } else {
      var xy := x + y;
      assert xy[0] == x[0] && xy[1..] == x[1..] + y;
      if x[1..] != [] {
        assert x[1..][|x[1..]| - 1] == x[|x| - 1];
      }
      CollapseConcat(x[1..], y);
      assert CollapseWhitespace(xy) == [x[0]] + (CollapseWhitespace(x[1..]) + CollapseWhitespace(y));
    }
  }

  /** CollapseConcat when `x` starts with white space. */
  lemma {:induction false} CollapseConcatRun(x: string, y: string)
    requires x != [] && IsWhitespace(x[0])
    requires y == [] || !IsWhitespace(x[|x| - 1]) || !IsWhitespace(y[0])
    ensures CollapseWhitespace(x + y) == CollapseWhitespace(x) + CollapseWhitespace(y)
    decreases |x|, 0
  {
    var rest := DropWhitespace(x[1..]);
    assert CollapseWhitespace(x + y) == "-" + CollapseWhitespace(DropWhitespace(x[1..] + y)) by {
      assert (x + y)[0] == x[0] && (x + y)[1..] == x[1..] + y;
    }
    DropWhitespaceConcat(x[1..], y);
    if rest == [] {
      assert DropWhitespace(y) == y by {
        assert IsWhitespace(x[|x| - 1]);
      }
    } else {
      assert rest[|rest| - 1] == x[|x| - 1] by {
        DropWhitespaceSuffix(x[1..]);
      }
      CollapseConcat(rest, y);
    }
  }

  /** A non-empty run of white space becomes exactly one '-'. */
  lemma CollapseRun(w: string)
    requires w != [] && forall i :: 0 <= i < |w| ==> IsWhitespace(w[i])
    ensures CollapseWhitespace(w) == "-"
  {
    DropWhitespaceSuffix(w[1..]);
    assert DropWhitespace(w[1..]) == [];
  }
}
