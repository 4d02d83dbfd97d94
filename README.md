# Ninpou2 website server — a Dafny model of its core

This project models the query and bookkeeping core of the Ninpou2 website
server. That server is an Express/TypeORM service that stores Warcraft III
Ninpou2 matches, ranks players and heroes, and groups matches into
passphrase-protected ladders. The model covers the following:

- **The filter and sort compiler** (`server/src/helpers/filter.ts`).
  - `getQueryString` and `getQueryInt`.
  - `filterQueryFromRequest`, which turns decoded `filters` and `sorting`
    descriptors into conditions, named parameters and an ordering on a
    query builder. It also answers the two flags "has sorting" and "is
    public ladder".
  - The JavaScript details it depends on:
    - which values are truthy;
    - `String.replace` replaces only the first match;
    - ASCII upper and lower casing;
    - `parseInt`;
    - a `TypeError` when a filter value is not a string.
  - The SQL meaning of what it builds: `LIKE` patterns, `=`, `>=`/`<=`,
    `BETWEEN`, and `@> ARRAY[...]`.
- **The ranking queries**:
  - `getRanking` (`server/src/helpers/ranking.ts`), which the hero route
    uses;
  - the copy of it inside the player route.

  Both are modelled as two query builders, a page query and a count query.
  The database side is a pure pipeline over the stored participation rows:
  select, group in first-appearance order, aggregate, order, then offset
  and limit. The `score` column is the lower bound of the Wilson score
  interval, with PostgreSQL's integer division inside the square root.
- **The game route** (`server/src/routes/game.ts`):
  - validation of a submitted match;
  - the rankeable rule;
  - the loop that copies a match's fields onto its participations (the
    `Game` and `GamePlayer` entities are classes whose fields the handler
    updates in place);
  - the filtered, sorted, paged listing.
- **The ladder route** (`server/src/routes/ladder.ts`):
  - name validation and creation;
  - the middleware gate: ladder lookup, then passphrase, then game lookup;
  - adding a game to a `Ladder` and removing it, which also updates the
    ladder-name lists of the game and of its participations.

Files, each holding one module:

| file | module | covers |
|---|---|---|
| `wrappers.dfy` | `Wrappers` | `Option` and `Result` |
| `text.dfy` | `Text` | substring search, the SQL `LIKE` matcher, ASCII case mapping, the first-match `replace`, text ordering, `parseInt` |
| `query.dfy` | `Query` | JSON and SQL values, the `QueryBuilder` class, condition evaluation, ordering and paging |
| `filter.dfy` | `Filter` | `filter.ts` as a method with nested loops, the fold functions that specify it, and lemmas about those folds |
| `filter_meaning.dfy` | `FilterMeaning` | which rows a compiled filter list selects |
| `wilson.dfy` | `Wilson` | the score expression and its bounds and monotonicity |
| `ranking.dfy` | `Ranking` | `getRanking` and the pipeline the database runs |
| `hero.dfy`, `player.dfy` | `Heroes`, `Players` | the two ranking routes |
| `game.dfy` | `Games` | the game route |
| `ladder.dfy` | `Ladders` | the ladder route |

The player route calls `req.getQueryFilter(...)`, which
`server/src/helpers/filter.ts` does not define (it defines only
`getQueryString` and `getQueryInt` on the request). The model reads it as
`filterQueryFromRequest(req, ...)`, which it evidently copies.

## Model

| member | source | states |
|---|---|---|
| Text.LikeSurroundedIsContains | server/src/helpers/filter.ts:97-100 | `'%' + v + '%'` matches a text under LIKE exactly when the text contains `v`, for `v` free of `%`, `_` and backslash |
| Text.LikeSurroundedIsContainsLike | server/src/helpers/filter.ts:97-100 | for `v` with no `%` or backslash, `'%' + v + '%'` matches exactly when some window of the text matches `v` character by character, with `_` matching any character |
| Text.ContainsImpliesLikeSurrounded | server/src/helpers/filter.ts:97-100 | every text that contains `v` matches `'%' + v + '%'`, even when `v` holds `_` |
| Text.UnderscoreValueMatchesEveryNonEmptyText | server/src/helpers/filter.ts:97-100 | the search value `_` gives the pattern `%_%`, which matches every non-empty text |
| Text.LikeRunMatchesAll | server/src/helpers/filter.ts:100 | the pattern `%` matches every text |
| Text.ToUpper | server/src/helpers/filter.ts:89 | keeps the length and leaves no lower-case letter; each lower-case letter becomes the upper-case letter that lower-cases back to it, and every other character is kept |
| Text.ToLower | server/src/helpers/filter.ts:112 | keeps the length and leaves no upper-case letter; each upper-case letter becomes the lower-case letter that upper-cases back to it, and every other character is kept |
| Text.CaseMappingIdempotent | server/src/helpers/filter.ts:89 | upper-casing twice is upper-casing once, and likewise for lower-casing |
| Text.ToUpperIgnoresCase | server/src/helpers/filter.ts:89 | a value and its lower-cased form upper-case to the same text, so the enum pattern does not depend on the value's case |
| Text.ToLowerFixedIffNoUpper | server/src/helpers/filter.ts:112 | lower-casing leaves a text unchanged iff it holds no upper-case letter |
| Text.UpperNeverEqualsLowered | server/src/helpers/filter.ts:112 | no lower-cased value equals a text that holds an upper-case letter |
| Text.ReplaceFirstSpec | server/src/helpers/filter.ts:89 | `replace(" ", "_")` is the identity without a space; otherwise it changes only the first space, and everything before it stays |
| Text.ReplaceFirstAbsent | server/src/helpers/filter.ts:89 | without a space, `replace(" ", "_")` returns its input unchanged |
| Text.ReplaceFirstAt | server/src/helpers/filter.ts:89 | with the first space at index k, only index k changes, to `_` |
| Text.FirstIndex | server/src/helpers/filter.ts:89 | the index found holds the character and no earlier index does |
| Text.ReplaceFirstKeepsSecondOccurrence | server/src/helpers/filter.ts:89 | example, one input: `"a b c"` becomes `"a_b c"`, so the second space stays |
| Text.LexLeTotal | server/src/helpers/filter.ts:69-81 | the text order used for date bounds is total |
| Text.LexLeTransitive | server/src/helpers/filter.ts:69-81 | the text order is transitive |
| Text.LexLeAntisymmetric | server/src/helpers/filter.ts:69-81 | the text order is antisymmetric |
| Text.TrimStart | server/src/helpers/filter.ts:41 | `parseInt` drops a prefix made only of white space and keeps the rest, which does not start with white space |
| Text.DigitRun | server/src/helpers/filter.ts:41 | the length of the longest leading digit run: every character in it is a digit of the radix, and it ends at the end of the text or at a non-digit |
| Text.NatDigits | server/src/helpers/filter.ts:41 | decimal rendering: at least one digit, all digits, no leading zero except for 0 itself |
| Text.NatDigitsValue | server/src/helpers/filter.ts:41 | the digits of `n` are all read and have value `n` |
| Text.NatDigitsParse | server/src/helpers/filter.ts:41 | unsigned parsing of the decimal rendering of `m` gives `m` |
| Text.ParseIntDecimalString | server/src/helpers/filter.ts:41 | `parseInt` of the decimal rendering of any integer, negative ones included, gives that integer |
| Text.ParseIntNegative | server/src/helpers/filter.ts:41 | `parseInt` of `-` followed by a number's digits is minus that number |
| Text.ParseIntNatural | server/src/helpers/filter.ts:41 | `parseInt` of a natural number's digits is that number |
| Text.ParseIntMinus | server/src/helpers/filter.ts:41 | text starting with `-` reads as the negated number after the sign |
| Text.ParseIntDigitFirst | server/src/helpers/filter.ts:41 | text starting with a digit reads as the unsigned number it starts with |
| Text.ParseIntNoDigits | server/src/helpers/filter.ts:41 | example, two inputs: `parseInt` of `""` and of `"abc"` is NaN |
| Query.QueryBuilder.constructor | server/src/helpers/ranking.ts:14-15 | a new builder holds the base conditions and nothing else |
| Query.QueryBuilder.AndWhere | server/src/helpers/filter.ts:71 | appends one condition and changes nothing else |
| Query.QueryBuilder.SetParameter | server/src/helpers/filter.ts:72-73 | binds or overwrites one named parameter and changes nothing else |
| Query.QueryBuilder.OrderBy | server/src/helpers/filter.ts:121 | replaces the ordering and changes nothing else |
| Query.QueryBuilder.Limit | server/src/helpers/ranking.ts:83 | sets the limit and changes nothing else |
| Query.QueryBuilder.Offset | server/src/helpers/ranking.ts:84 | sets the offset and changes nothing else |
| Query.HoldsFrame | server/src/helpers/filter.ts:72-73 | a condition's truth depends only on the parameters it names |
| Query.SqlLeTotal | server/src/helpers/filter.ts:121 | the SQL value order behind `ORDER BY` is total |
| Query.SqlLeTransitive | server/src/helpers/filter.ts:121 | the SQL value order is transitive |
| Query.InsertBy | server/src/helpers/filter.ts:121 | inserting into a sorted sequence keeps it sorted and adds exactly one element |
| Query.InsertFront | server/src/helpers/filter.ts:121 | an element that may precede the head of a sorted sequence keeps it sorted when put in front |
| Query.InsertBehind | server/src/helpers/filter.ts:121 | the head of a sorted sequence, put before a sorted merge of its tail and a later element, keeps the result sorted and a permutation |
| Query.SortBy | server/src/helpers/filter.ts:121 | `ORDER BY alias ASC/DESC` returns a sorted permutation of its input |
| Query.Page | server/src/helpers/ranking.ts:83-84 | OFFSET then LIMIT: at most `take` rows, the slice from `skip`, and empty past the end |
| Query.PageWithin | server/src/helpers/ranking.ts:83-84 | every row of a page is a row of the sequence it was cut from |
| Filter.Filters | server/src/helpers/filter.ts:57-58 | an absent `filters` parameter gives the empty list |
| Filter.Sorting | server/src/helpers/filter.ts:59-60 | an absent `sorting` parameter gives the empty list |
| Filter.GetQueryStringSpec | server/src/helpers/filter.ts:26-34 | returns the query value when it is a non-empty string, otherwise the default |
| Filter.GetQueryIntSpec | server/src/helpers/filter.ts:35-44 | returns either the default or a non-zero integer that `parseInt` read from a string value; it returns that integer whenever `parseInt` reads a non-zero one, and gives the default for a missing or non-string value, for 0 and for NaN |
| Filter.GetQueryIntReadsDecimal | server/src/helpers/filter.ts:35-44 | a decimal value reads back as itself, except 0, which gives the default |
| Filter.GetQueryIntZeroAndNaN | server/src/helpers/filter.ts:35-44 | example, two inputs: `take=0` and `take=abc` both give the default |
| Filter.ReturnValue | server/src/helpers/filter.ts:126 | the returned `[hasSorting, isPublicLadder]` is a two-element array holding the two flags, and it is truthy whatever they are |
| Filter.OrderByUnless | server/src/helpers/ranking.ts:74-82 | a caller's `if (!result) query.orderBy(...)`: the builder gets the fallback ordering exactly when the result is falsy, and is unchanged otherwise |
| Filter.FilterQueryFromRequest | server/src/helpers/filter.ts:48-127 | the builder ends in the state that the descriptor-by-column fold computes from its old state, and the method returns the fold's flags, or a TypeError |
| Filter.ApplyFilterColumn | server/src/helpers/filter.ts:64-113 | one descriptor against one column leaves the builder and flags exactly as the single fold step computes, including the TypeError |
| Filter.ThrewSticksColumns | server/src/helpers/filter.ts:62-116 | after a TypeError no further column step changes anything |
| Filter.ThrewSticksFilters | server/src/helpers/filter.ts:62-116 | after a TypeError no further descriptor changes anything |
| Filter.ThrewPrefixColumns | server/src/helpers/filter.ts:62-116 | once a prefix of the columns has thrown, the whole column loop gives the same result |
| Filter.ThrewPrefixFilters | server/src/helpers/filter.ts:62-116 | once a prefix of the descriptors has thrown, the whole loop gives the same result |
| Filter.IrrelevantDescriptorIgnored | server/src/helpers/filter.ts:64-66 | a descriptor that names no column, or whose value is falsy, changes nothing |
| Filter.KeepRelevant | server/src/helpers/filter.ts:64-66 | keeps exactly the descriptors that name a column and carry a truthy value |
| Filter.OnlyRelevantDescriptorsCount | server/src/helpers/filter.ts:62-116 | compiling all descriptors equals compiling only the relevant ones |
| Filter.PublicFlagColumns | server/src/helpers/filter.ts:102-109 | one descriptor sets the public-ladder flag exactly when it is `ladder`/`public` and the registry has an array column named `ladder` |
| Filter.PublicFlagStep | server/src/helpers/filter.ts:102-109 | one column sets the public-ladder flag exactly for `ladder`/`public` against the array column named `ladder` |
| Filter.PublicFlagFilters | server/src/helpers/filter.ts:61-116 | the flag is set exactly when some descriptor is the `ladder`/`public` sentinel and the registry has the array column |
| Filter.SentinelLeavesQuery | server/src/helpers/filter.ts:103-108 | the sentinel adds no condition and no parameter |
| Filter.ThrowsIndependentOfQuery | server/src/helpers/filter.ts:62-116 | whether the loop throws, and the public flag, do not depend on the query it starts from |
| Filter.ThrowsIndependentColumns | server/src/helpers/filter.ts:63-115 | the same for one descriptor's column loop |
| Filter.ThrowsIndependentFilters | server/src/helpers/filter.ts:62-116 | the same for the descriptor loop, from any two states with equal flags |
| Filter.ThrowNeedsNonString | server/src/helpers/filter.ts:84-113 | the loop cannot throw when every relevant descriptor value is a string |
| Filter.StringValueNeverThrows | server/src/helpers/filter.ts:84-113 | a string value never throws at any column |
| Filter.SortColumnsSpec | server/src/helpers/filter.ts:119-124 | one sort descriptor sets the flag iff it names a sort column; if it names none, nothing changes; otherwise the last matching column's alias and direction win |
| Filter.SortingSpec | server/src/helpers/filter.ts:117-125 | the sort flag is set iff some (descriptor, column) pair matches; with no match, nothing changes; otherwise the last match in loop order decides the ordering |
| Filter.SortMatchPrefix | server/src/helpers/filter.ts:118-120 | the matches of all but the last descriptor are the matches with a smaller descriptor index |
| Filter.LastDescriptorDecides | server/src/helpers/filter.ts:118-122 | when the last descriptor names a column, its last such column is the last matching pair |
| Filter.EarlierDescriptorDecides | server/src/helpers/filter.ts:118-122 | when the last descriptor names no column, the earlier descriptors' last matching pair stays the last |
| Filter.SortMatchesWithoutLast | server/src/helpers/filter.ts:118-120 | when the last descriptor names no column, the matches are exactly the earlier descriptors' matches |
| Filter.ColumnsOnlyAppend | server/src/helpers/filter.ts:63-115 | one descriptor only appends conditions and keeps the ordering, limit and offset |
| Filter.FilterOnlyAppends | server/src/helpers/filter.ts:64-113 | one descriptor against one column only appends conditions and keeps the ordering, limit and offset |
| Filter.FiltersOnlyAppend | server/src/helpers/filter.ts:62-116 | the filter loop only appends conditions and keeps the ordering, limit and offset |
| Filter.NoSortColumns | server/src/helpers/filter.ts:117-126 | an empty sort registry leaves the ordering alone and returns no sorting; conditions, parameters and paging do not depend on the sort registry |
| Filter.RequestOutcome | server/src/helpers/filter.ts:61-126 | a returning call's flags mean "some sort descriptor matched" and "the public sentinel was given and a ladder array column exists"; string values always return |
| FilterMeaning.ExtendSelects | server/src/helpers/filter.ts:70-111 | appending a condition narrows the selection by exactly that condition when the new bindings leave the old conditions' parameters alone |
| FilterMeaning.StepDate | server/src/helpers/filter.ts:68-83 | a date filter keeps exactly the rows in the given bounds: both bounds, the start only, the end only, or none |
| FilterMeaning.StepEnum | server/src/helpers/filter.ts:84-91 | an enum filter keeps exactly the rows whose column matches `%VALUE%` (first space replaced, upper-cased) |
| FilterMeaning.StepBoolean | server/src/helpers/filter.ts:92-96 | a boolean filter keeps exactly the rows whose column equals `value === "true"` |
| FilterMeaning.StepString | server/src/helpers/filter.ts:97-101 | a string filter keeps exactly the rows whose column matches `%value%` |
| FilterMeaning.StepArray | server/src/helpers/filter.ts:102-113 | an array filter keeps exactly the rows whose array contains the lower-cased value, and the `public` sentinel keeps all rows |
| FilterMeaning.StepMeaning | server/src/helpers/filter.ts:63-114 | one (descriptor, column) step narrows the selection by exactly what that column demands |
| FilterMeaning.DescriptorWrites | server/src/helpers/filter.ts:68-112 | one descriptor binds only its own id or the date parameters `start` and `end` |
| FilterMeaning.FiltersWrites | server/src/helpers/filter.ts:62-116 | every parameter the loop binds other than `start` and `end` is some descriptor's id |
| FilterMeaning.DescriptorWritesSnoc | server/src/helpers/filter.ts:63-115 | one more column adds exactly what that column binds, when it is named after the descriptor |
| FilterMeaning.FiltersWritesSnoc | server/src/helpers/filter.ts:62-116 | one more descriptor adds exactly what that descriptor binds |
| FilterMeaning.ColumnsMeaning | server/src/helpers/filter.ts:63-115 | one descriptor selects exactly the rows that meet all the columns it names |
| FilterMeaning.FreshWrites | server/src/helpers/filter.ts:86-111 | with distinct ids, a descriptor binds no parameter an earlier one bound |
| FilterMeaning.FiltersMeaningFrom | server/src/helpers/filter.ts:62-116 | the compiled query selects exactly the rows the base selects and every descriptor accepts |
| FilterMeaning.CompiledFiltersMeaning | server/src/helpers/filter.ts:62-116 | the same, starting from a base query |
| FilterMeaning.EnumPatternKeepsNoRunWildcard | server/src/helpers/filter.ts:89 | replacing the first space and upper-casing adds no `%` and no backslash |
| FilterMeaning.EnumFilterMeaning | server/src/helpers/filter.ts:84-91 | an enum filter holds iff the column text holds the transformed value, with `_` (the replaced space among them) matching any character |
| FilterMeaning.StringFilterMeaning | server/src/helpers/filter.ts:97-101 | a string filter free of wildcards holds iff the column text contains the value |
| FilterMeaning.UnderscoreStringFilterKeepsAll | server/src/helpers/filter.ts:97-101 | the string filter `_` keeps every row with non-empty text |
| FilterMeaning.CapitalisedLadderNeverMatches | server/src/helpers/filter.ts:110-112 | a ladder filter naming a ladder with an upper-case letter never matches a row that holds only that name as stored |
| FilterMeaning.RepeatedIdRebinds | server/src/helpers/filter.ts:92-95 | for any two truthy values, two `rankeable` descriptors add two conditions on one parameter, which holds the later value's comparison with `"true"`, so both conditions test the later value |
| Wilson.RootArg | server/src/helpers/ranking.ts:36-39 | the argument of `SQRT`, with integer division, is at least z²/4 |
| Wilson.ScoreSimplified | server/src/helpers/ranking.ts:31-46 | the score equals `100 (wins + z²/2 − z·root) / (games + z²)` |
| Wilson.PercentBounds | server/src/helpers/ranking.ts:43 | a proportion below one, times 100, lies in [0, 100) and is 0 only for a zero numerator |
| Wilson.TruncatedTermAtMostWins | server/src/helpers/ranking.ts:38 | `wins·losses / games` in integers is at most `wins` |
| Wilson.RootAtLeastHalfZ | server/src/helpers/ranking.ts:36-39 | the root is at least 0.98 |
| Wilson.RootTermAtMostHalfPlusWins | server/src/helpers/ranking.ts:35-41 | `z·root ≤ wins + z²/2`, with equality iff there are no wins |
| Wilson.ScoreBounds | server/src/helpers/ranking.ts:31-46 | every score lies in [0, 100) and is 0 exactly when there are no wins |
| Wilson.RootsDifferByLessThanOneOverZ | server/src/helpers/ranking.ts:36-39 | roots of arguments that differ by one differ by less than 1/z |
| Wilson.RootStep | server/src/helpers/ranking.ts:36-39 | turning one loss into a win raises `z·root` by less than one |
| Wilson.ScoreIncreasesWithWins | server/src/helpers/ranking.ts:31-46 | with the same number of games, turning a loss into a win raises the score |
| Wilson.UnbeatenScore | server/src/helpers/ranking.ts:31-46 | without losses the score is `100·wins / (wins + z²)` |
| Wilson.LongerUnbeatenRunScoresHigher | server/src/helpers/ranking.ts:31-46 | an unbeaten player with one more win scores higher |
| Wilson.TruncatedAtMostExact | server/src/helpers/ranking.ts:38 | the truncated quotient is at most the exact one, and equal when the division is exact |
| Wilson.TruncationNeverLowersScore | server/src/helpers/ranking.ts:38 | integer division inside `SQRT` never lowers the score compared with exact division, and changes nothing when the division is exact |
| Ranking.Selected | server/src/helpers/ranking.ts:48 | keeps exactly the participations the query's conditions select |
| Ranking.GroupKeys | server/src/helpers/ranking.ts:49 | `GROUP BY`: the distinct keys of the rows, each exactly once |
| Ranking.Members | server/src/helpers/ranking.ts:49 | a group holds exactly the rows with its key |
| Ranking.GroupByPartitions | server/src/helpers/ranking.ts:49 | the groups are non-empty, have distinct keys, and each holds exactly the rows with its key |
| Ranking.WinsPlusLosses | server/src/helpers/ranking.ts:21-28 | `wins + losses = games` |
| Ranking.WinsExtremes | server/src/helpers/ranking.ts:21-28 | no wins iff no winner row; all wins iff every row is a winner |
| Ranking.HeroNamesBound | server/src/helpers/ranking.ts:30 | a non-empty group has between 1 and `games` distinct heroes |
| Ranking.MeanTimesGames | server/src/helpers/ranking.ts:16-20 | each `AVG` times the number of rows is the `SUM` |
| Ranking.AggregateSpec | server/src/helpers/ranking.ts:16-46 | an aggregate row keeps its key, has `wins + losses = games ≥ 1` and `1 ≤ heroes ≤ games`, and has a score in [0, 100) that is 0 exactly without wins |
| Ranking.AggregateAll | server/src/helpers/ranking.ts:16-49 | one aggregate row per group, in group order; each row carries its group's key and counts its group's rows, at least one |
| Ranking.GetRanking | server/src/helpers/ranking.ts:8-104 | builds the page query (filters, sorting, the `score DESC` fallback guard, paging, search) and the count query with builders, and returns the pipeline's result for them |
| Ranking.SearchNotWritten | server/src/helpers/ranking.ts:53-62 | no ranking filter binds the `search` parameter |
| Ranking.RankingColumnWrites | server/src/helpers/ranking.ts:53-62 | the same for one registry column |
| Ranking.RankeableOnlySelects | server/src/helpers/ranking.ts:48 | the base query keeps exactly the rankeable participations |
| Ranking.RankingRegistryWellFormed | server/src/helpers/ranking.ts:53-62 | the ranking filter registry has distinct names, none of them `start` or `end`, and at most one date column |
| Ranking.CompiledRankingFilters | server/src/helpers/ranking.ts:74-82 | the compiled filters keep exactly the rankeable rows that meet every descriptor |
| Ranking.PageQuerySelects | server/src/helpers/ranking.ts:74-101 | the page query keeps exactly the rows that pass the filters and the search; the count query keeps exactly those that pass the filters |
| Ranking.UnorderedKeysSelected | server/src/helpers/ranking.ts:49 | one aggregate row per key, and every key comes from a selected row |
| Ranking.UnorderedKeysCovered | server/src/helpers/ranking.ts:49 | every selected row's key has an aggregate row |
| Ranking.UnorderedConsistent | server/src/helpers/ranking.ts:16-49 | with a true square root every aggregate row is consistent |
| Ranking.AggregateAllConsistent | server/src/helpers/ranking.ts:16-46 | with a true square root, the aggregate row of every non-empty group is consistent |
| Ranking.RankedSpec | server/src/helpers/ranking.ts:14-90 | the ranked rows, in any ordering, are one per group key, their keys are exactly those of the selected rows, and with a true square root every row is consistent |
| Ranking.AggregateKey | server/src/helpers/ranking.ts:49 | an aggregate row carries its group's key |
| Ranking.SelectedAgree | server/src/helpers/ranking.ts:48 | two queries that select the same rows give the same selection |
| Ranking.GroupKeysAgree | server/src/helpers/ranking.ts:49 | grouping by two columns that agree on every row gives the same keys |
| Ranking.CountIgnoresPaging | server/src/helpers/ranking.ts:91-101 | the count query depends only on the filters, not on sorting, `take`, `skip` or `search` |
| Ranking.CountIsNumberOfGroups | server/src/helpers/ranking.ts:91-102 | without a search, when both group columns agree, the count is the number of ranked groups |
| Ranking.RankingErrors | server/src/helpers/ranking.ts:74-90 | the ranking fails with a TypeError exactly when the filter compiler throws; otherwise it fails exactly when `take` or `skip` is negative, with the OFFSET error whenever `skip` is and the LIMIT error otherwise |
| Ranking.RankingPage | server/src/helpers/ranking.ts:83-90 | a page holds at most `take` rows (10 when absent), the ranked rows from `skip`, and is empty past the end |
| Ranking.PageQueryPaging | server/src/helpers/ranking.ts:83-84 | the page query takes `take` rows (10 by default) after skipping `skip` (0 by default) |
| Ranking.DefaultOrderingNeverApplied | server/src/helpers/ranking.ts:74-82 | the `score DESC` fallback never runs: the filter call returns a truthy array, so the page query's ordering is exactly the one the sort descriptors set; with no matching sort descriptor there is no ordering and the groups stay in grouping order; otherwise the last match orders |
| Heroes.GetHeroes | server/src/routes/hero.ts:6-14 | the hero route is the ranking grouped and searched by hero name |
| Heroes.HeroRowMatches | server/src/routes/hero.ts:11 | with a literal search term, a participation is kept iff it passes the filters and its hero name contains the term |
| Heroes.HeroKey | server/src/routes/hero.ts:9 | a participation's group key is its hero name |
| Heroes.HeroSearch | server/src/routes/hero.ts:7-12 | with a literal search term every ranked key is a hero name containing the term, and the hero of every participation that passes the filters and contains the term is ranked |
| Heroes.HeroCount | server/src/routes/hero.ts:7-13 | without a search the count is the number of ranked heroes |
| Players.GetPlayers | server/src/routes/player.ts:8-98 | the player route is the ranking grouped by steam id and searched by steam id text or name |
| Players.PlayerRowMatches | server/src/routes/player.ts:77-84 | with a literal search term, a participation is kept iff it passes the filters and its steam id's decimal text or its player name contains the term |
| Players.PlayerKeysAgree | server/src/routes/player.ts:44 | `player.steamId` and `game_player.playerSteamId` give the same key, the player's steam id |
| Players.PlayerCount | server/src/routes/player.ts:86-96 | without a search the count is the number of ranked players, even though the count query groups by another column |
| Players.PlayerSearch | server/src/routes/player.ts:77-85 | with a literal search term every ranked key is the steam id of a participation that passes the filters and hits the search, and every such participation's steam id is ranked |
| Games.GamePlayer.constructor | server/src/routes/game.ts:146 | a participation as submitted, without ladder names |
| Games.Game.constructor | server/src/routes/game.ts:146 | a game as submitted, without ladder names |
| Games.MinimumDuration | server/src/routes/game.ts:150-155 | a mode has a minimum duration exactly when it is POINT_30, POINT_45, POINT_60 or NORMAL |
| Games.RankeableByThreshold | server/src/routes/game.ts:147-155 | a game is rankeable iff exactly nine players are connected and the duration reaches its mode's minimum (1500, 2400, 3300 or 900 seconds) |
| Games.CountConnectedBound | server/src/routes/game.ts:148-149 | at most every player is connected, and all of them iff every state is CONNECTED |
| Games.RankeableMeansFullLobby | server/src/routes/game.ts:39-46 | with at most nine players, a rankeable game has exactly nine, all connected |
| Games.PropagateTo | server/src/routes/game.ts:158-162 | copies the game's date, rankeable flag and modes onto one participation and clears its ladder names |
| Games.PropagateAll | server/src/routes/game.ts:157-163 | every participation carries the game's fields and keeps its submitted entry |
| Games.PostGame | server/src/routes/game.ts:141-166 | 400 with nothing changed for an invalid body; otherwise 201, rankeable by the rule on the submitted states, no ladder names, other game fields kept, every participation updated |
| Games.SelectedGames | server/src/routes/game.ts:105-134 | keeps exactly the games the listing's conditions select |
| Games.GetGames | server/src/routes/game.ts:104-139 | builds the listing query with a builder (filters, sorting, the `createdDate DESC` fallback guard, paging) and returns the listing computed from it |
| Games.SelectedGamesAgree | server/src/routes/game.ts:137 | the selection depends only on conditions and parameters |
| Games.GamePageSpec | server/src/routes/game.ts:135-137 | a page holds at most `take` games (10 when absent), all stored and selected |
| Games.OrderedGamesSelected | server/src/routes/game.ts:135-137 | ordering the selected games neither adds a game nor one the conditions reject |
| Games.GameErrors | server/src/routes/game.ts:110-137 | the listing fails with a TypeError exactly when the filter compiler throws; otherwise it fails exactly when `take` or `skip` is negative, with the OFFSET error whenever `skip` is and the LIMIT error otherwise |
| Games.GameCountSpec | server/src/routes/game.ts:137 | the count is the number of selected games and depends on the filters alone |
| Games.GameRegistryWellFormed | server/src/routes/game.ts:113-124 | the listing's filter registry has distinct names, none of them `start` or `end`, and at most one date column |
| Games.ListQuerySelects | server/src/routes/game.ts:110-131 | the listing keeps exactly the games that meet every filter descriptor |
| Games.RankeableFilter | server/src/routes/game.ts:121 | a truthy `rankeable` value keeps rankeable games for `"true"` and the others for any other value |
| Games.BalanceFilter | server/src/routes/game.ts:122 | a literal `balance` value keeps the games whose balance contains it |
| Games.DefaultOrderingNeverApplied | server/src/routes/game.ts:110-134 | the `createdDate DESC` fallback never runs: the filter call returns a truthy array, so the listing's ordering is exactly the one the sort descriptors set; with no matching sort descriptor the games come in stored order; otherwise the last match orders |
| Ladders.AddIfAbsentSpec | server/src/routes/ladder.ts:129-139 | push-if-absent keeps the old list as a prefix, adds the element at most once, keeps a list duplicate-free, and is idempotent |
| Ladders.RemoveAllMembers | server/src/routes/ladder.ts:156-163 | `filter(x => x !== v)` drops every `v` and nothing else |
| Ladders.RemoveAllKeepsOrder | server/src/routes/ladder.ts:156-163 | the filtered list is a subsequence of the old one |
| Ladders.RemoveAllIdempotent | server/src/routes/ladder.ts:156-163 | filtering twice is filtering once, and a duplicate-free list stays duplicate-free |
| Ladders.RemoveAllSpec | server/src/routes/ladder.ts:156-163 | all of the above together, and no change when the value is absent |
| Ladders.RemoveAllAppend | server/src/routes/ladder.ts:156-163 | filtering distributes over concatenation |
| Ladders.RemoveUndoesAdd | server/src/routes/ladder.ts:129-163 | removing after adding gives the list without the value, which is the original list when the value was absent |
| Ladders.CreateLadderSpec | server/src/routes/ladder.ts:33-53 | a ladder is created iff the body is valid and the name is new; "already exists" iff the body is valid and the name is taken; 201 iff created; a created ladder has the valid name, the hashed passphrase and `numGames` 0 |
| Ladders.ValidNameIsLiteral | server/src/routes/ladder.ts:12-26 | a valid ladder name is non-empty and has no LIKE wildcard |
| Ladders.GateOrder | server/src/routes/ladder.ts:65-118 | an unknown ladder is a 404 whatever else; a wrong passphrase is a 400 whatever the game; a missing passphrase is compared as `""`; the handler runs iff the ladder is found, the passphrase matches and the game is found; the status is 404 iff the ladder is unknown or, past a matching passphrase, the game is; 400 iff the passphrase does not match; none iff bcrypt rejects a non-string passphrase or the handler runs |
| Ladders.Ladder.constructor | server/src/routes/ladder.ts:127 | a loaded ladder whose game count is the number of its games |
| Ladders.Ids | server/src/routes/ladder.ts:129 | the ids of the ladder's games, in order: an id is listed exactly when some game has it |
| Ladders.WithoutGameIds | server/src/routes/ladder.ts:156 | removing by id removes exactly the games with that id, and their ids |
| Ladders.AddNameTo | server/src/routes/ladder.ts:136-138 | adds the ladder name to one participation if absent, and changes nothing else |
| Ladders.RemoveNameFrom | server/src/routes/ladder.ts:161-163 | removes the ladder name from one participation, and changes nothing else |
| Ladders.AddNameToAll | server/src/routes/ladder.ts:135-139 | every participation gains the name once and keeps everything else |
| Ladders.RemoveNameFromAll | server/src/routes/ladder.ts:160-164 | every participation loses the name and keeps everything else |
| Ladders.AddGame | server/src/routes/ladder.ts:120-145 | the game is appended iff its id is new; the game and its participations gain the ladder name once; `numGames` is the number of games; a duplicate-free ladder stays consistent; nothing else changes |
| Ladders.RemoveGame | server/src/routes/ladder.ts:147-170 | every game with that id is dropped; the game and its participations lose the ladder name; `numGames` is the number of games; a duplicate-free ladder stays consistent; nothing else changes |
| Ladders.UpdatesKeepConsistent | server/src/routes/ladder.ts:129-165 | adding or removing an id keeps a duplicate-free id list duplicate-free |
| Ladders.LadderFilterMeaning | server/src/helpers/filter.ts:102-112 | for any stored list of ladder names, the ladder filter with a name finds the game iff the name is `public` or the list holds the lower-cased name |
| Ladders.LadderFilterFindsGameAddedTo | server/src/routes/ladder.ts:131-139 | after a game on any ladders is added to a ladder, the ladder filter with that ladder's name finds it iff the name is `public`, has no upper-case letter, or was already stored lower-cased |
| Ladders.LadderFilterFindsAddedGame | server/src/routes/ladder.ts:133 | for a game on that ladder only, the listing's ladder filter finds it iff the name is `public` or has no upper-case letter, since the filter lower-cases its value and names are stored as given |

## Left out

- Persistence, HTTP and JSON responses:
  - the repositories (`findOne`, `save`, `getRawMany`, `getManyAndCount`) are modelled as sequences of rows passed in and results returned;
  - response bodies are reduced to status codes and result values.
- JSON decoding: `JSON.parse` of `filters`, `sorting` and `payload` is not modelled. Requests arrive already decoded as lists of descriptors, so these inputs, which throw in the source, are not represented:
  - a malformed JSON string in `payload`, `filters` or `sorting`, on which `JSON.parse` throws a SyntaxError (server/src/helpers/filter.ts:24, 58, 60);
  - a `null` element in `filters`, whose `requestFilter.id` throws a TypeError (server/src/helpers/filter.ts:64);
  - a `null` element in `sorting`, whose `sort.id` throws a TypeError (server/src/helpers/filter.ts:120);
  - a truthy `filters` value that is not iterable, such as an object or a number, on which `for…of` throws a TypeError before any descriptor is read (server/src/helpers/filter.ts:62);
  - a truthy `sorting` value that is not iterable, such as `5` or `{}`, on which `for…of` throws a TypeError after the filter loop has run (server/src/helpers/filter.ts:118).
- Square root: the SQL `SQRT` is a function parameter. Score lemmas take the root's value together with its defining property.
- Floating point:
  - `::real` casts and float rounding are modelled as exact rationals;
  - JSON numbers are integers (`JsValue.Num(int)`), so a non-integer number is not represented. An example is the `balance` value `1.5`, which the source turns into the pattern `%1.5%`;
  - integers are unbounded, so numbers above 2^53 are not modelled.
- Password hashing: bcrypt `hash` and `compare` are parameters (`hash`, `matches`). Their cost factor and salts are not modelled.
- Enum values: shared/enums.ts is not part of this model.
  - The sets of accepted enum values are a parameter of the validation.
  - The rankeable rule compares against the member names `POINT_30`, `POINT_45`, `POINT_60`, `NORMAL` and `CONNECTED`.
- Case mapping: upper- and lower-casing is ASCII only. JavaScript's full Unicode case mapping is not modelled.
- Dates: they are ISO text compared lexicographically, not timestamps.
- Query.Holds: the date bounds `:start` and `:end` are compared as text. PostgreSQL compares them with the timestamp column `createdDate`, so it reads each bound as a timestamp. It rejects the whole query when it cannot, for example for `["abc","def"]`, or for a number or boolean bound, which node-postgres sends as the text `5` or `true`. Where the source's `getRanking` and `GET /` then reject, the model raises no error. A text bound is compared lexicographically, and a bound that is not a string selects no row.
- FilterMeaning.StepDate: states the date filter's meaning under that text comparison, so it shares the difference above.
- Query.SqlLe: orders text by code-unit order. PostgreSQL's `ORDER BY` on a text column, such as `game.balance`, follows the database collation.
- SQL ordering and grouping:
  - rows that tie under `ORDER BY` keep their input order;
  - groups come in first-appearance order.

  PostgreSQL guarantees neither.
- Games.PostGame: validation of the numeric, integer and boolean fields (`isNumeric`, `isInt`, `isBoolean`, `notEmpty` on numbers) is not modelled. The body is typed, so those fields are numbers and booleans by construction. Only the enum fields, the player count (1 to 9) and the item lists (at most 20 non-empty names) are checked.
- Players.GetPlayers: the extra `player.*` columns that `leftJoinAndSelect` adds to each row are not modelled. Nor is the duplicate `assists` select in both ranking queries, which yields a single output column.
- Ranking.GetRanking: the `selects` argument (extra output columns) is not modelled; the aggregate row carries the group key instead.
- Game listing joins: the `leftJoinAndSelect` joins of players, items and heroes are not modelled. A listed game is its stored row.
- `GET /` of the ladder route, the unfiltered list of ladders by `numGames`, is not modelled: it has no logic beyond the database's order.
- Game lookup: the `parseInt(req.params.game_id)` lookup of the game gate is the boolean `gameFound`.
- Paging: neither TypeORM nor the handlers check `take` and `skip`, so a negative value reaches the SQL, and PostgreSQL rejects it. The model returns PostgreSQL's error text (`OFFSET must not be negative`, `LIMIT must not be negative`) as an error result, checking OFFSET before LIMIT as PostgreSQL evaluates them. The database's error object around that text is not modelled.
- Ladders.AddGame and Ladders.RemoveGame: the `validationResult` check at the head of both handlers always passes, because these routes declare no rules; the methods omit it.
- Ladders.AddGame and Ladders.RemoveGame: the later `save` calls are not modelled. Their `ensures` describe the in-memory entities the handlers change.
- FilterMeaning.FiltersMeaningFrom: states which rows are selected only for filter lists whose descriptor ids are distinct. When two descriptors share an id, the later value rebinds the shared named parameter, and an earlier condition then tests the later value (FilterMeaning.RepeatedIdRebinds shows this for the boolean column). A general meaning for repeated ids is not stated.
- FilterMeaning.CompiledFiltersMeaning: likewise stated only for filter lists whose descriptor ids are distinct.
- Ranking.CompiledRankingFilters: likewise stated only for filter lists whose descriptor ids are distinct.
- Ranking.PageQuerySelects: likewise stated only for filter lists whose descriptor ids are distinct.
- Games.ListQuerySelects: likewise stated only for filter lists whose descriptor ids are distinct.
- Heroes.HeroRowMatches: likewise stated only for filter lists whose descriptor ids are distinct.
- Heroes.HeroSearch: likewise stated only for filter lists whose descriptor ids are distinct.
- Players.PlayerRowMatches: likewise stated only for filter lists whose descriptor ids are distinct.
- Players.PlayerSearch: likewise stated only for filter lists whose descriptor ids are distinct.
- JSON values: an object value is modelled as a map from property names to values, with no prototype chain. An object's template-literal text is always `[object Object]`, and a custom `toString` is not modelled.
- Ladders.CreateLadder: the body is saved as the ladder (`req.body as Ladder`), so extra body fields are persisted as given. A body carrying a `games` array creates a ladder holding those games through the cascade while `numGames` is 0. The model's created row holds only the name, the hash and `numGames`, so Ladders.CreateLadderSpec states the counter, not the stored games.
