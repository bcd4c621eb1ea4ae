# Teams listing: grouping player rows into teams

This project models the one piece of logic in the site: the teams listing.
`getTeams` (app/teams/page.tsx) reads the `players` table as `(team, goals)`
rows with a non-null team. It folds them into a plain JavaScript object, keyed
by team name, holding `{name, playerCount, totalGoals}`. It returns
`Object.values` of that object, or `[]` when the query fails. The page
component (app/teams/TeamsClient.tsx) then derives what it shows from the list:

- the footer totals (number of teams, sum of player counts, sum of goal totals);
- the "No teams found" branch;
- a gradient colour per card, cycling through five;
- a logo per team, with a ball as the fallback;
- the element id `gtm-team-<slug>` of each team link.

Modules:

- `Wrappers` (wrappers.dfy): `Option`, for the nullable goal count.
- `JsObject` (js_object.dfy): the order in which `Object.values` lists an
  object's own keys. Keys that are array indices come first, in ascending
  numeric order. All other keys follow in insertion order.
- `Teams` (teams_page.dfy): the rows, the team record, the reduce as an
  imperative loop (`GetTeams`), and the specification it is proved against.
  `Reduce` is the fold the loop follows, one `Step` per row. `Aggregate` is the
  list stated independently: per team, `Tally` of its rows, listed in
  `Object.values` order. The lemmas cover per-team counts, conservation of
  players and goals, distinct names, exactly the observed teams, the empty
  case and the order. The same module models the reduce as written (see
  Findings).
- `TeamsClient` (teams_client.dfy): the footer, the empty-list branch, the
  colour index, the logo lookup and the id slug, with their lemmas.
  `TeamsPage` composes `GetTeams` with the footer. With the corrected accumulator of
  `GetTeams` (see Findings), it shows that "Total Players" is the number of
  rows and "Total Goals" is the sum of all goals (null as 0).

The list is in first-occurrence order when no team name is an array
index (`Teams.AggregateFirstOccurrenceOrder`). The code returns
`Object.values`, which lists names such as `"7"` or `"42"` first, in numeric
order.

The backend query is replaced by its result: `QueryResult` is either the rows
or an error.

## Model

| member | source | states |
|---|---|---|
| `Teams.GetTeams` | app/teams/page.tsx:13-39 | A query error gives `[]`. Otherwise the loop over the rows, updating the record in place, returns `Aggregate(rows)`: `Object.values` of one record per observed team. It uses the corrected accumulator, one with no inherited members (see Findings). |
| `Teams.ReduceMeaning` | app/teams/page.tsx:25-36 | `Reduce`, the fold of `Step` over the rows, leaves, for every team in the rows and no other, a record keyed by that name with its row count and goal sum (null as 0). Its keys are in first-occurrence order. |
| `Teams.ReduceEntries` | app/teams/page.tsx:26-34 | The records the reduce builds equal the per-team tallies computed directly from the rows. |
| `Teams.ReduceOrder` | app/teams/page.tsx:26-31 | The reduce inserts each team's key once, when the team's first row is seen. |
| `Teams.TeamMapSnoc` | app/teams/page.tsx:26-34 | One more row creates its team's `{name, 0, 0}` record if it is missing, then adds one player and the row's goals to that record only. |
| `Teams.FirstOccurrences` | app/teams/page.tsx:26-31 | The inserted keys are pairwise distinct and are exactly the team names that occur in the rows. |
| `Teams.FirstIndex` | app/teams/page.tsx:26 | The position of a team's first row: a row of that team, with no row of that team before it. |
| `Teams.FirstOccurrencesOrdered` | app/teams/page.tsx:26-31 | Keys are inserted in the order in which the teams first occur. |
| `Teams.PlayerTallyCounts` | app/teams/page.tsx:26-33 | A team's player count is positive exactly when the team occurs in the rows. |
| `Teams.AggregateEntries` | app/teams/page.tsx:26-38 | Every listed record is stored under its own name and has the team's row count and goal sum. Every listed player count is at least 1. |
| `Teams.AggregateNames` | app/teams/page.tsx:25-38 | The listed names are pairwise distinct and are exactly the teams in the rows. There are as many records as distinct teams. |
| `Teams.AggregateEmpty` | app/teams/page.tsx:25-38 | The list is empty exactly when there are no rows. |
| `Teams.AggregateTallies` | app/teams/page.tsx:25-38 | Summed over the list, each statistic equals its total over all input rows. |
| `Teams.AggregateConserves` | app/teams/page.tsx:25-38 | The player counts sum to the number of rows. The goal totals sum to the sum of all goals, with null as 0. |
| `Teams.AggregateFirstOccurrenceOrder` | app/teams/page.tsx:26-38 | When no team name is an array index, the list is in first-occurrence order. |
| `Teams.AggregateArrayIndicesFirst` | app/teams/page.tsx:38 | Teams whose names are array indices are listed first, in ascending numeric order. |
| `Teams.AggregateExample` | app/teams/page.tsx:25-38 | Rows A:3, A:5, B:null give `[{A, 2, 8}, {B, 1, 0}]`. |
| `Teams.ReduceAsWritten` | app/teams/page.tsx:25-36 | The reduce with JavaScript's lookup `acc[team]`, which also finds members inherited from Object.prototype. Its keys are exactly its records' keys, and each record carries its key as name. |
| `Teams.AsWrittenKeysNotInherited` | app/teams/page.tsx:26 | As written, no record is ever made for a name inherited from Object.prototype. |
| `Teams.AsWrittenDropsPrototypeNames` | app/teams/page.tsx:26-38 | `GetTeamsAsWritten` (`Object.values` over the as-written reduce) never lists a team named like an Object.prototype member. |
| `Teams.AsWrittenReduceAgrees` | app/teams/page.tsx:25-36 | For rows with none of those names, the reduce as written equals the corrected reduce. |
| `Teams.AsWrittenAgreesElsewhere` | app/teams/page.tsx:25-38 | For rows with none of those names, getTeams as written gives the same list as the corrected one. |
| `Teams.AsWrittenLosesToString` | app/teams/page.tsx:26-38 | One row of team "toString" with 3 goals: as written the list is empty, corrected it is `[{toString, 1, 3}]`. |
| `Teams.Unshadowed` | app/teams/page.tsx:26 | The rows whose team is not an Object.prototype member name, in their order. None of them has such a name, and there are no more of them than rows. |
| `Teams.AsWrittenIsFiltered` | app/teams/page.tsx:25-36 | On any rows, the reduce as written equals the corrected reduce over `Unshadowed(rows)`. |
| `Teams.AsWrittenListIsFiltered` | app/teams/page.tsx:25-38 | On any rows, getTeams as written gives `Aggregate(Unshadowed(rows))`. Mixed input loses only the prototype-named teams and keeps every other team's record and position. |
| `JsObject.OwnKeys` | app/teams/page.tsx:38 | `Object.values` key order: the same keys, still distinct. Array indices come first in ascending numeric order. Keys are unchanged when none is an array index. |
| `JsObject.OwnKeysOthersLast` | app/teams/page.tsx:38 | The keys that are not array indices end the list, in insertion order. |
| `JsObject.KeysWhere` | app/teams/page.tsx:38 | Splits keys into array indices and the rest, keeping each part's membership and distinctness. |
| `JsObject.KeysWhereSnoc` | app/teams/page.tsx:38 | One more key at the end of the input adds it at the end of its part and changes nothing else, so each part keeps the input's order. |
| `JsObject.SortByIndex` | app/teams/page.tsx:38 | Array-index keys sorted by numeric value, with the same keys, preserving distinctness. |
| `JsObject.SortByIndexPermutes` | app/teams/page.tsx:38 | The sort is a permutation: the multiset of keys is unchanged. |
| `JsObject.InsertByIndex` | app/teams/page.tsx:38 | Inserting one array index keeps the list sorted, adds that key and no other and keeps keys distinct. |
| `JsObject.InsertByIndexPermutes` | app/teams/page.tsx:38 | Inserting adds exactly one occurrence of the key: the multiset grows by that key only. |
| `JsObject.Values` | app/teams/page.tsx:38 | The values are listed position by position in the order of the given keys. `ObjectValues` is `Values` over `OwnKeys`, so `Object.values` lists the record under each key in own-key order. |
| `TeamsClient.FooterOfRows` | app/teams/TeamsClient.tsx:263-274 | `Footer` sums the list as the footer does, and `ShowsEmptyState` is the `teams.length === 0` branch (app/teams/TeamsClient.tsx:127). Over the list built from rows: Total Teams is the number of distinct teams, the same `teams.length` the header badge shows. Total Players is the number of rows. Total Goals is the sum of all goals. The empty-list branch is taken exactly when there are no rows. |
| `TeamsClient.TeamsPage` | app/teams/page.tsx:41-45 | Fetching and rendering end to end, with the corrected accumulator of `GetTeams` (see Findings). A query error shows zeros and the empty branch. Rows show the distinct-team count, the row count and the goal sum, and the empty branch only for no rows. |
| `TeamsClient.ColorIndex` | app/teams/TeamsClient.tsx:151 | `index % colors.length` is always a valid index into the five colours, and is `index` for the first five cards. |
| `TeamsClient.CardColorCycle` | app/teams/TeamsClient.tsx:13-19 | `CardColor(index)` is the card's gradient, `colors[index % colors.length]` (line 151). Colours repeat with period five. Two cards share a colour exactly when their positions agree modulo five. |
| `TeamsClient.Logo` | app/teams/TeamsClient.tsx:178 | The logo is never empty. |
| `TeamsClient.LogoCases` | app/teams/TeamsClient.tsx:21-27 | The five listed teams get their mapped logo. Every other name, and only those, gets the ball. |
| `TeamsClient.ToLower` | app/teams/TeamsClient.tsx:165 | Lower-casing maps each upper-case letter to the letter at the same place in `a`-`z` and keeps every other character. So it keeps the length and the white-space positions, leaves no upper-case letter, and changes nothing in a string without one. |
| `TeamsClient.DropWhitespace` | app/teams/TeamsClient.tsx:165 | Removes exactly the leading white-space run. |
| `TeamsClient.DropWhitespaceSuffix` | app/teams/TeamsClient.tsx:165 | What remains after the leading run is a suffix of the string. |
| `TeamsClient.CollapseWhitespace` | app/teams/TeamsClient.tsx:165 | `replace(/\s+/g, '-')` leaves no white space. |
| `TeamsClient.CollapseKeepsLowerCase` | app/teams/TeamsClient.tsx:165 | The replacement introduces no upper-case letter. |
| `TeamsClient.CollapseFixesClean` | app/teams/TeamsClient.tsx:165 | A string without white space is left unchanged. |
| `TeamsClient.CollapseRun` | app/teams/TeamsClient.tsx:165 | A non-empty white-space run becomes exactly one `-`. |
| `TeamsClient.DropWhitespaceConcat` | app/teams/TeamsClient.tsx:165 | Dropping leading white space from a concatenation drops it from the first part, and continues into the second only if the first was all white space. |
| `TeamsClient.CollapseConcat` | app/teams/TeamsClient.tsx:165 | The replacement distributes over concatenation unless a white-space run straddles the seam. Together with CollapseRun, this characterises "each maximal run becomes one `-`". |
| `TeamsClient.CollapseConcatRun` | app/teams/TeamsClient.tsx:165 | The case of CollapseConcat where the first part starts with white space. |
| `TeamsClient.DomIdShape` | app/teams/TeamsClient.tsx:165 | `DomId(name)` is the id the link gets. It is `gtm-team-` followed by a suffix with no white space and no upper-case letter. |
| `TeamsClient.DomIdSuffixIdempotent` | app/teams/TeamsClient.tsx:165 | Applying the lower-case-and-replace transformation twice equals applying it once. |

## Left out

- The Supabase client and query (lib/supabase.ts, app/teams/page.tsx:14-17) is a network call. Its result is the input `QueryResult`. The `console.error` logging on an error is output and is not modelled.
- Goals are unbounded integers. JavaScript numbers are floats, and `goals || 0` also maps `NaN` to 0. Only `null` is treated as absent.
- The model does not restrict goals to non-negative values. Nothing in the code relies on that.
- Teams.ReduceAsWritten: models only the effect on the record being built. The `+=` writes that land on inherited objects are not modelled. For a team named `__proto__`, for example, they set `Object.prototype.playerCount` to `NaN`.
- TeamsClient.ToLower: lower-cases ASCII `A`-`Z` only. JavaScript's `toLowerCase` maps every Unicode letter and can change a string's length. White space is JavaScript's `\s` set exactly.
- TeamsClient.Logo: treats `teamLogos` as a dictionary of its five own keys. In JavaScript, a name such as `toString` would read an inherited function there. As written that name never reaches the page, because getTeams drops it.
- The player link `encodeURIComponent(team.name)` (app/teams/TeamsClient.tsx:163) is a library call and is not modelled.
- Animations, `Math.random` particle positions and all styling are not modelled. They involve randomness and floats and have no behaviour to state.
- The contact page (app/contact/page.tsx) is not modelled. It only sets React state and clears it after a 3000 ms timer. It makes no backend call.
- The other pages (app/page.tsx, app/about/page.tsx, app/services/page.tsx) are static content or UI state and are not modelled. The analytics slug in the services page has the same shape as `TeamsClient.DomId`, with the prefix `choose_plan_` and `_` in place of `-`.
- The per-team players page (app/players/[team]/page.tsx:7-20) is a separate read query, filtered by team and ordered by goals descending. PlayersClient.tsx:330 and :340 show the goal sum and the average goals per player. It lies outside the teams listing and is not modelled.

## Findings

| source | as written | input that shows it | evidently intended | confidence | as-written member | corrected member |
|---|---|---|---|---|---|---|
| app/teams/page.tsx:26 | `!acc[player.team]` on the `{}` accumulator also reads members inherited from Object.prototype (`toString`, `constructor`, `__proto__`, `valueOf`, ...). Each is truthy, so such a team never gets a record and disappears from the list and the footer. | rows `[{team: "toString", goals: 3}]`: the list is `[]` and Total Players is 0 for one player (`Teams.AsWrittenLosesToString`) | every team in the rows gets a record: `[{toString, 1, 3}]`. The matching fix is a null-prototype accumulator, `Object.create(null)`, with the same `!acc[team]` test. `Object.hasOwn` alone would still lose `__proto__`, because the assignment calls the inherited setter. A `Map` would list teams in plain insertion order, not with array-index names first. | high; not executed | `Teams.ReduceAsWritten` | `Teams.GetTeams` |

`Teams.GetTeams` models the accumulator with no inherited members. `Teams.AggregateNames` proves that every team in the rows is listed. `Teams.AsWrittenListIsFiltered` proves that, on any rows, the version as written lists exactly what the corrected one lists for the rows left after removing those with a prototype-named team. So it loses only those teams and gets every other team right. `Teams.AsWrittenAgreesElsewhere` is the special case of rows with no such team.
