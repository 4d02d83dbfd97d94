/**
 * The ranking queries of server/src/helpers/ranking.ts (`getRanking`), used
 * by the hero route, and of the inline copy in the player route.
 *
 * The builder calls are kept as a method over `QueryBuilder`s. What the
 * database does with the built query is a pure pipeline over the stored
 * participation rows: keep the rows the conditions select, group them by a
 * key, aggregate each group, order, then apply OFFSET and LIMIT. The count
 * is the number of groups of a second query without search, sorting or
 * paging.
 */
module Ranking {

  import opened Wrappers
  import opened Text
  import opened Query
  import opened Filter
  import opened FilterMeaning
  import opened Wilson

  // ---------------------------------------------------------------------------
  // Stored rows
  // ---------------------------------------------------------------------------

  /** A `game_player` row joined with its `player`. */
  datatype Participation = Participation(
    kills: int,
    deaths: int,
    assists: int,
    points: int,
    winner: bool,
    rankeable: bool,
    heroName: string,
    playerSteamId: int,
    playerName: string,
    createdDate: string,
    gameMode: string,
    heroSelectionMode: string,
    ladderNames: seq<string>)

  /** The row as the conditions see it, keyed by qualified column name. */
  function RecordOf(p: Participation): Record {
    map[
      "game_player.kills" := SInt(p.kills),
      "game_player.deaths" := SInt(p.deaths),
      "game_player.assists" := SInt(p.assists),
      "game_player.points" := SInt(p.points),
      "game_player.winner" := SBool(p.winner),
      "game_player.rankeable" := SBool(p.rankeable),
      "game_player.heroName" := SText(p.heroName),
      "game_player.playerSteamId" := SInt(p.playerSteamId),
      "game_player.createdDate" := SText(p.createdDate),
      "game_player.gameMode" := SText(p.gameMode),
      "game_player.heroSelectionMode" := SText(p.heroSelectionMode),
      "game_player.ladderNames" := STextArray(p.ladderNames),
      "player.steamId" := SInt(p.playerSteamId),
      "player.steamId::text" := SText(DecimalString(p.playerSteamId)),
      "player.name" := SText(p.playerName)]
  }

  /** The value a GROUP BY expression takes on a row. */
  function KeyOf(p: Participation, column: string): SqlValue {
    var r := RecordOf(p);
    if column in r then r[column] else SNull
  }

  /** The rows a query's conditions select, in stored order. */
  function Selected(rows: seq<Participation>, q: QueryState): (kept: seq<Participation>)
    ensures |kept| <= |rows|
    ensures forall p :: p in kept <==> p in rows && Selects(q, RecordOf(p))
  {
    if rows == [] then []
    else (if Selects(q, RecordOf(rows[0])) then [rows[0]] else []) + Selected(rows[1..], q)
  }

  // ---------------------------------------------------------------------------
  // GROUP BY
  // ---------------------------------------------------------------------------

  /** The distinct keys of the rows, in order of first appearance. */
  function GroupKeys(rows: seq<Participation>, column: string): (keys: seq<SqlValue>)
    ensures forall k :: k in keys <==> exists p :: p in rows && KeyOf(p, column) == k
    ensures forall a, b :: 0 <= a < b < |keys| ==> keys[a] != keys[b]
    decreases |rows|
  {
    if rows == [] then []
    else
      var init, last := rows[..|rows| - 1], rows[|rows| - 1];
      assert rows == init + [last];
      var keys := GroupKeys(init, column);
      if KeyOf(last, column) in keys then keys else keys + [KeyOf(last, column)]
  }

  /** The rows with key `k`, in stored order. */
  function Members(rows: seq<Participation>, column: string, k: SqlValue): (g: seq<Participation>)
    ensures forall p :: p in g <==> p in rows && KeyOf(p, column) == k
  {
    if rows == [] then []
    else (if KeyOf(rows[0], column) == k then [rows[0]] else []) + Members(rows[1..], column, k)
  }

  datatype Group = Group(key: SqlValue, members: seq<Participation>)

  function GroupBy(rows: seq<Participation>, column: string): seq<Group> {
    var keys := GroupKeys(rows, column);
    seq(|keys|, i requires 0 <= i < |keys| => Group(keys[i], Members(rows, column, keys[i])))
  }

  /**
   * GROUP BY partitions the rows: keys are distinct, every group is
   * non-empty and holds exactly the rows with its key, and every row lies
   * in the group of its key.
   */
  lemma GroupByPartitions(rows: seq<Participation>, column: string)
    ensures var gs := GroupBy(rows, column);
      (forall a, b :: 0 <= a < b < |gs| ==> gs[a].key != gs[b].key) &&
      (forall i :: 0 <= i < |gs| ==> |gs[i].members| >= 1) &&
      (forall i, p :: 0 <= i < |gs| && p in gs[i].members <==> 0 <= i < |gs| && p in rows && KeyOf(p, column) == gs[i].key) &&
      (forall p :: p in rows ==> exists i :: 0 <= i < |gs| && gs[i].key == KeyOf(p, column))
  {
    var gs := GroupBy(rows, column);
    var keys := GroupKeys(rows, column);
    forall i | 0 <= i < |gs| ensures |gs[i].members| >= 1 {
      assert keys[i] in keys;
      var p :| p in rows && KeyOf(p, column) == keys[i];
      assert p in gs[i].members;
    }
    forall p | p in rows ensures exists i :: 0 <= i < |gs| && gs[i].key == KeyOf(p, column) {
      assert KeyOf(p, column) in keys;
      var i :| 0 <= i < |keys| && keys[i] == KeyOf(p, column);
      assert gs[i].key == KeyOf(p, column);
    }
  }

  // ---------------------------------------------------------------------------
  // Aggregates
  // ---------------------------------------------------------------------------

  /** `SUM(CASE game_player.winner WHEN TRUE THEN 1 ELSE 0 END)` */
  function Wins(g: seq<Participation>): nat {
    if g == [] then 0 else (if g[0].winner then 1 else 0) + Wins(g[1..])
  }

  /** `SUM(CASE game_player.winner WHEN TRUE THEN 0 ELSE 1 END)` */
  function Losses(g: seq<Participation>): nat {
    if g == [] then 0 else (if g[0].winner then 0 else 1) + Losses(g[1..])
  }

  /** Every row is a win or a loss: `wins + losses = games`. */
  lemma {:induction false} WinsPlusLosses(g: seq<Participation>)
    ensures Wins(g) + Losses(g) == |g|
  {
    if g != [] { WinsPlusLosses(g[1..]); }
  }

  /** No wins means no row has `winner`; as many wins as rows means every row has it. */
  lemma {:induction false} WinsExtremes(g: seq<Participation>)
    ensures Wins(g) == 0 <==> forall i :: 0 <= i < |g| ==> !g[i].winner
    ensures Wins(g) == |g| <==> forall i :: 0 <= i < |g| ==> g[i].winner
  {
    if g != [] {
      WinsExtremes(g[1..]);
      WinsPlusLosses(g[1..]);
      assert forall i :: 1 <= i < |g| ==> g[i] == g[1..][i - 1];
    }
  }

  /** `SUM(column)` */
  function Sum(g: seq<Participation>, f: Participation -> int): int {
    if g == [] then 0 else f(g[0]) + Sum(g[1..], f)
  }

  /** `AVG(column)::real` over a non-empty group. */
  function Mean(g: seq<Participation>, f: Participation -> int): real
    requires |g| >= 1
  {
    Sum(g, f) as real / |g| as real
  }

  /** The values of `heroName` in the group. */
  function HeroNames(g: seq<Participation>): set<string> {
    set p | p in g :: p.heroName
  }

  /** One output row of the ranking query. */
  datatype Stats = Stats(
    key: SqlValue,
    kills: real,
    deaths: real,
    assists: real,
    points: real,
    wins: nat,
    losses: nat,
    games: nat,
    heroes: nat,
    score: real)

  /** The selected aggregates of one group; `sqrt` stands for PostgreSQL's `SQRT`. */
  function Aggregate(g: Group, sqrt: real -> real): Stats
    requires |g.members| >= 1
  {
    var m := g.members;
    WinsPlusLosses(m);
    Stats(g.key,
      Mean(m, (p: Participation) => p.kills), Mean(m, (p: Participation) => p.deaths), Mean(m, (p: Participation) => p.assists), Mean(m, (p: Participation) => p.points),
      Wins(m), Losses(m), |m|, |HeroNames(m)|,
      ScoreWith(Wins(m), Losses(m), sqrt(RootArg(Wins(m), Losses(m)))))
  }

  /** An output column by its alias, for ORDER BY. */
  function Column(s: Stats, alias: string): SqlValue {
    match alias
    case "kills" => SReal(s.kills)
    case "deaths" => SReal(s.deaths)
    case "assists" => SReal(s.assists)
    case "points" => SReal(s.points)
    case "wins" => SInt(s.wins)
    case "losses" => SInt(s.losses)
    case "games" => SInt(s.games)
    case "heroes" => SInt(s.heroes)
    case "score" => SReal(s.score)
    case _ => SNull
  }

  /** `sqrt` returns the square root of every argument the score gives it. */
  ghost predicate IsSqrt(sqrt: real -> real) {
    forall x :: x >= 0.0 ==> IsRoot(sqrt(x), x)
  }

  /**
   * Each aggregate row: `wins + losses = games >= 1`, wins count the winners,
   * at least one hero, and a score in [0, 100) that is 0 exactly without wins.
   */
  lemma AggregateSpec(g: Group, sqrt: real -> real)
    requires |g.members| >= 1 && IsSqrt(sqrt)
    ensures var s := Aggregate(g, sqrt);
      s.key == g.key && s.games == |g.members| >= 1 && s.wins + s.losses == s.games &&
      (s.wins == 0 <==> forall i :: 0 <= i < |g.members| ==> !g.members[i].winner) &&
      1 <= s.heroes <= s.games &&
      0.0 <= s.score < 100.0 && (s.score == 0.0 <==> s.wins == 0)
  {
    var m := g.members;
    WinsPlusLosses(m);
    WinsExtremes(m);
    HeroNamesBound(m);
    ScoreBounds(Wins(m), Losses(m), sqrt(RootArg(Wins(m), Losses(m))));
  }

  lemma {:induction false} HeroNamesBound(g: seq<Participation>)
    ensures |g| >= 1 ==> |HeroNames(g)| >= 1
    ensures |HeroNames(g)| <= |g|
  {
    if g != [] {
      HeroNamesBound(g[1..]);
      assert HeroNames(g) == HeroNames(g[1..]) + {g[0].heroName};
    } else {
      assert HeroNames(g) == {};
    }
  }

  /** Means are arithmetic means: the mean times the group size is the sum. */
  lemma MeanTimesGames(g: seq<Participation>, f: Participation -> int)
    requires |g| >= 1
    ensures Mean(g, f) * |g| as real == Sum(g, f) as real
  {
  }

  // ---------------------------------------------------------------------------
  // The query pipeline
  // ---------------------------------------------------------------------------

  /** The aggregate rows, in ORDER BY order when the query has one. */
  function Ranked(rows: seq<Participation>, q: QueryState, groupBy: string, sqrt: real -> real): seq<Stats> {
    var stats := GroupStats(rows, q, groupBy, sqrt);
    match q.ordering
    case None => stats
    case Some(o) => SortBy(stats, s => Column(s, o.column), o.direction)
  }

  /** Runs the page query: ranked groups, then OFFSET and LIMIT, or the error negative paging raises. */
  function Execute(rows: seq<Participation>, q: QueryState, groupBy: string, sqrt: real -> real): Result<seq<Stats>, string> {
    var ranked := Ranked(rows, q, groupBy, sqrt);
    match PagingError(q)
    case Some(e) => Err(e)
    case None =>
      var skip: nat := if q.offset.Some? then q.offset.value else 0;
      var take: nat := if q.limit.Some? then q.limit.value else |ranked|;
      Ok(Page(ranked, skip, take))
  }

  /** Runs the count query: `(await countQuery.getRawMany()).length`. */
  function CountGroups(rows: seq<Participation>, q: QueryState, groupBy: string): nat {
    |GroupKeys(Selected(rows, q), groupBy)|
  }

  // ---------------------------------------------------------------------------
  // getRanking
  // ---------------------------------------------------------------------------

  const RankeableColumn: string := "game_player.rankeable"
  const SearchParam: string := "search"

  const RankingFilterColumns: seq<FilterColumn> := [
    FilterColumn("createdDate", DateColumn, "game_player.createdDate"),
    FilterColumn("gameMode", EnumColumn, "game_player.gameMode"),
    FilterColumn("heroSelectionMode", EnumColumn, "game_player.heroSelectionMode"),
    FilterColumn("ladder", ArrayColumn, "game_player.ladderNames")]

  const RankingSortColumns: seq<SortColumn> := [
    SortColumn("kills", "kills"),
    SortColumn("deaths", "deaths"),
    SortColumn("assists", "assists"),
    SortColumn("points", "points"),
    SortColumn("wins", "wins"),
    SortColumn("losses", "losses"),
    SortColumn("games", "games"),
    SortColumn("heroes", "heroes"),
    SortColumn("score", "score")]

  /** Both builders start from `game_player.rankeable = true`. */
  function RankeableOnly(): QueryState {
    EmptyQuery([IsTrue(RankeableColumn)])
  }

  /** The fallback ordering `getRanking` applies when the filter call's result is falsy. */
  const DefaultOrdering: Ordering := Ordering("score", Desc)

  /** The page query after the builder calls, or the TypeError the filter loop throws. */
  function PageQuery(req: Request, searchColumns: seq<string>): Result<QueryState, string> {
    var run := CompileRequest(RankeableOnly(), req, RankingFilterColumns, RankingSortColumns);
    if run.outcome.Threw? then Err(TypeError)
    else
      var ordered := OrderUnless(run.query, ReturnValue(run.outcome), DefaultOrdering);
      var q := ordered.(limit := Some(GetQueryInt(req.query, "take", 10)), offset := Some(GetQueryInt(req.query, "skip", 0)));
      if QueryTruthy(req.query, SearchParam) then
        Ok(q.(conditions := q.conditions + [AnyLike(searchColumns, SearchParam)],
              parameters := q.parameters[SearchParam := Str("%" + QueryText(req.query[SearchParam]) + "%")]))
      else Ok(q)
  }

  /** The count query: the same filters, no sort columns, no search, no paging. */
  function CountQuery(req: Request): QueryState {
    CompileRequest(RankeableOnly(), req, RankingFilterColumns, []).query
  }

  /** `[data, count]` */
  datatype Listing = Listing(page: seq<Stats>, count: nat)

  /** What `getRanking` resolves to, or the error it rejects with. */
  function RankingOf(req: Request, rows: seq<Participation>, groupBy: string, countGroupBy: string,
                     searchColumns: seq<string>, sqrt: real -> real): Result<Listing, string>
  {
    match PageQuery(req, searchColumns)
    case Err(e) => Err(e)
    case Ok(q) =>
      match Execute(rows, q, groupBy, sqrt)
      case Err(e) => Err(e)
      case Ok(page) => Ok(Listing(page, CountGroups(rows, CountQuery(req), countGroupBy)))
  }

  /**
   * `getRanking(req, groupBy, selects, queryString)`: builds the page query
   * step by step, runs it on `rows`, then builds and runs the count query.
   * `groupBy` and `countGroupBy` are the two GROUP BY expressions, and
   * `searchColumns` the columns `queryString` matches against `:search`.
   */
  method GetRanking(req: Request, rows: seq<Participation>, groupBy: string, countGroupBy: string,
                    searchColumns: seq<string>, sqrt: real -> real)
    returns (result: Result<Listing, string>)
    ensures result == RankingOf(req, rows, groupBy, countGroupBy, searchColumns, sqrt)
  {
    var query := new QueryBuilder([IsTrue(RankeableColumn)]);
    var outcome := FilterQueryFromRequest(req, query, RankingFilterColumns, RankingSortColumns);
    if outcome.Threw? {
      return Err(TypeError);
    }
    OrderByUnless(query, ReturnValue(outcome), DefaultOrdering);
    query.Limit(GetQueryInt(req.query, "take", 10));
    query.Offset(GetQueryInt(req.query, "skip", 0));
    if QueryTruthy(req.query, SearchParam) {
      query.AndWhere(AnyLike(searchColumns, SearchParam));
      query.SetParameter(SearchParam, Str("%" + QueryText(req.query[SearchParam]) + "%"));
    }
    var data := Execute(rows, query.State(), groupBy, sqrt);
    if data.Err? {
      return Err(data.error);
    }
    var countQuery := new QueryBuilder([IsTrue(RankeableColumn)]);
    var _ := FilterQueryFromRequest(req, countQuery, RankingFilterColumns, []);
    var count := CountGroups(rows, countQuery.State(), countGroupBy);
    return Ok(Listing(data.value, count));
  }

  // ---------------------------------------------------------------------------
  // What the two queries select
  // ---------------------------------------------------------------------------

  predicate IsRankeableRow(r: Record) {
    RankeableColumn in r && r[RankeableColumn] == SBool(true)
  }

  /** The row is rankeable and meets every demand of the request's filters. */
  predicate PassesFilters(req: Request, r: Record) {
    IsRankeableRow(r) && MeetsAll(Filters(req), RankingFilterColumns, r)
  }

  /** Without a truthy `search` every row matches; with one, some search column is LIKE `%search%`. */
  predicate MatchesSearch(req: Request, searchColumns: seq<string>, r: Record) {
    !QueryTruthy(req.query, SearchParam) ||
    exists i :: 0 <= i < |searchColumns| && TextAt(r, searchColumns[i]).Some? &&
      Like("%" + QueryText(req.query[SearchParam]) + "%", TextAt(r, searchColumns[i]).value)
  }

  /** No filter column of the ranking binds `search`. */
  lemma SearchNotWritten(fs: seq<FilterDescriptor>)
    ensures SearchParam !in FiltersWrites(fs, RankingFilterColumns)
  {
    var cols := RankingFilterColumns;
    forall n | n in FiltersWrites(fs, cols) ensures n != SearchParam {
      var i, j :| 0 <= i < |fs| && 0 <= j < |cols| && fs[i].id == cols[j].name && n in Writes(fs[i], cols[j]);
      RankingColumnWrites(fs[i], j);
    }
  }

  lemma RankingColumnWrites(f: FilterDescriptor, j: int)
    requires 0 <= j < |RankingFilterColumns| && f.id == RankingFilterColumns[j].name
    ensures SearchParam !in Writes(f, RankingFilterColumns[j])
  {
    assert RankingFilterColumns[j].name in {"createdDate", "gameMode", "heroSelectionMode", "ladder"};
  }

  lemma RankeableOnlySelects(r: Record)
    ensures Selects(RankeableOnly(), r) <==> IsRankeableRow(r)
  {
    var q := RankeableOnly();
    assert |q.conditions| == 1 && q.conditions[0] == IsTrue(RankeableColumn);
    assert Selects(q, r) <==> Holds(q.conditions[0], q.parameters, r);
  }

  lemma RankingRegistryWellFormed()
    ensures WellFormedRegistry(RankingFilterColumns)
  {
    var cols := RankingFilterColumns;
    assert forall j :: 0 <= j < |cols| ==> cols[j].name in {"createdDate", "gameMode", "heroSelectionMode", "ladder"};
    assert forall j :: 0 <= j < |cols| && cols[j].kind == DateColumn ==> j == 0;
  }

  /** After the filter loop, both builders select the rows that pass the filters. */
  lemma CompiledRankingFilters(req: Request, r: Record)
    requires DistinctIds(Filters(req))
    requires !CompileFilters(Compiled(RankeableOnly(), false, false), Filters(req), RankingFilterColumns).threw
    ensures var c := CompileFilters(Compiled(RankeableOnly(), false, false), Filters(req), RankingFilterColumns);
      ReadsWithin(c.query, FiltersWrites(Filters(req), RankingFilterColumns)) &&
      (Selects(c.query, r) <==> PassesFilters(req, r))
  {
    RankingRegistryWellFormed();
    assert ReadsWithin(RankeableOnly(), {});
    FiltersMeaningFrom(Compiled(RankeableOnly(), false, false), Filters(req), RankingFilterColumns, r);
    RankeableOnlySelects(r);
  }

  /**
   * With distinct descriptor ids, the page query selects exactly the
   * rankeable rows that meet every filter and match the search, and the
   * count query the same rows without the search.
   */
  lemma PageQuerySelects(req: Request, searchColumns: seq<string>, r: Record)
    requires DistinctIds(Filters(req)) && PageQuery(req, searchColumns).Ok?
    ensures Selects(PageQuery(req, searchColumns).value, r) <==> PassesFilters(req, r) && MatchesSearch(req, searchColumns, r)
    ensures Selects(CountQuery(req), r) <==> PassesFilters(req, r)
  {
    var fs, cols := Filters(req), RankingFilterColumns;
    var c := CompileFilters(Compiled(RankeableOnly(), false, false), fs, cols);
    CompiledRankingFilters(req, r);
    NoSortColumns(RankeableOnly(), req, cols, RankingSortColumns);
    var run := CompileRequest(RankeableOnly(), req, cols, RankingSortColumns);
    var ordered := OrderUnless(run.query, ReturnValue(run.outcome), DefaultOrdering);
    var base := ordered.(limit := Some(GetQueryInt(req.query, "take", 10)), offset := Some(GetQueryInt(req.query, "skip", 0)));
    assert base.conditions == c.query.conditions && base.parameters == c.query.parameters;
    assert CountQuery(req).conditions == c.query.conditions && CountQuery(req).parameters == c.query.parameters;
    if QueryTruthy(req.query, SearchParam) {
      var text := Str("%" + QueryText(req.query[SearchParam]) + "%");
      var params := base.parameters[SearchParam := text];
      SearchNotWritten(fs);
      ExtendSelects(base, AnyLike(searchColumns, SearchParam), params, FiltersWrites(fs, cols), {SearchParam}, r);
      assert ParamText(params, SearchParam) == Some(text.s);
      assert PageQuery(req, searchColumns).value == base.(conditions := base.conditions + [AnyLike(searchColumns, SearchParam)], parameters := params);
    } else {
      assert PageQuery(req, searchColumns).value == base;
    }
  }

  // ---------------------------------------------------------------------------
  // What the pipeline returns
  // ---------------------------------------------------------------------------

  /** Each aggregate row's counts agree, and its score lies in [0, 100), 0 exactly without wins. */
  predicate ConsistentStats(s: Stats) {
    s.games >= 1 && s.wins + s.losses == s.games && 1 <= s.heroes <= s.games &&
    0.0 <= s.score < 100.0 && (s.score == 0.0 <==> s.wins == 0)
  }

  /** The aggregate row of every group, in group order: each carries its group's key and counts its rows. */
  function AggregateAll(gs: seq<Group>, sqrt: real -> real): (stats: seq<Stats>)
    requires forall i :: 0 <= i < |gs| ==> |gs[i].members| >= 1
    ensures |stats| == |gs|
    ensures forall i :: 0 <= i < |gs| ==> stats[i] == Aggregate(gs[i], sqrt)
    ensures forall i :: 0 <= i < |gs| ==> stats[i].key == gs[i].key && stats[i].games == |gs[i].members| >= 1
  {
    seq(|gs|, i requires 0 <= i < |gs| => Aggregate(gs[i], sqrt))
  }

  /** The aggregate rows before ORDER BY, one per group in first-appearance order. */
  function GroupStats(rows: seq<Participation>, q: QueryState, groupBy: string, sqrt: real -> real): seq<Stats> {
    GroupByPartitions(Selected(rows, q), groupBy);
    AggregateAll(GroupBy(Selected(rows, q), groupBy), sqrt)
  }

  /** Every aggregate row before ORDER BY carries the key of some selected row. */
  lemma UnorderedKeysSelected(rows: seq<Participation>, q: QueryState, groupBy: string, sqrt: real -> real)
    ensures |GroupStats(rows, q, groupBy, sqrt)| == |GroupKeys(Selected(rows, q), groupBy)|
    ensures forall s :: s in GroupStats(rows, q, groupBy, sqrt) ==>
      exists p :: p in rows && Selects(q, RecordOf(p)) && KeyOf(p, groupBy) == s.key
  {
    var sel := Selected(rows, q);
    var gs := GroupBy(sel, groupBy);
    GroupByPartitions(sel, groupBy);
    var stats := GroupStats(rows, q, groupBy, sqrt);
    assert |stats| == |gs|;
    forall s | s in stats ensures exists p :: p in rows && Selects(q, RecordOf(p)) && KeyOf(p, groupBy) == s.key {
      var i :| 0 <= i < |stats| && stats[i] == s;
      AggregateKey(gs[i], sqrt);
      var p := gs[i].members[0];
      assert p in gs[i].members;
      assert p in sel && KeyOf(p, groupBy) == gs[i].key;
    }
  }

  /** Every selected row's key has its aggregate row before ORDER BY. */
  lemma UnorderedKeysCovered(rows: seq<Participation>, q: QueryState, groupBy: string, sqrt: real -> real)
    ensures forall p :: p in rows && Selects(q, RecordOf(p)) ==>
      exists s :: s in GroupStats(rows, q, groupBy, sqrt) && s.key == KeyOf(p, groupBy)
  {
    var sel := Selected(rows, q);
    var gs := GroupBy(sel, groupBy);
    GroupByPartitions(sel, groupBy);
    var stats := GroupStats(rows, q, groupBy, sqrt);
    forall p | p in rows && Selects(q, RecordOf(p)) ensures exists s :: s in stats && s.key == KeyOf(p, groupBy) {
      assert p in sel;
      var i :| 0 <= i < |gs| && gs[i].key == KeyOf(p, groupBy);
      AggregateKey(gs[i], sqrt);
      assert stats[i] in stats;
    }
  }

  /** With a true square root, every aggregate row is consistent. */
  lemma UnorderedConsistent(rows: seq<Participation>, q: QueryState, groupBy: string, sqrt: real -> real)
    requires IsSqrt(sqrt)
    ensures forall s :: s in GroupStats(rows, q, groupBy, sqrt) ==> ConsistentStats(s)
  {
    GroupByPartitions(Selected(rows, q), groupBy);
    AggregateAllConsistent(GroupBy(Selected(rows, q), groupBy), sqrt);
  }

  /** With a true square root, the aggregate of non-empty groups is consistent. */
  lemma AggregateAllConsistent(gs: seq<Group>, sqrt: real -> real)
    requires IsSqrt(sqrt) && forall i :: 0 <= i < |gs| ==> |gs[i].members| >= 1
    ensures forall s :: s in AggregateAll(gs, sqrt) ==> ConsistentStats(s)
  {
    var stats := AggregateAll(gs, sqrt);
    forall s | s in stats ensures ConsistentStats(s) {
      var i :| 0 <= i < |stats| && stats[i] == s;
      AggregateSpec(gs[i], sqrt);
    }
  }

  /**
   * The ranked rows are one per group: a key appears exactly when some
   * selected row has it, their number is the number of groups, and with a
   * true square root every row is consistent.
   */
  lemma RankedSpec(rows: seq<Participation>, q: QueryState, groupBy: string, sqrt: real -> real)
    ensures var ranked := Ranked(rows, q, groupBy, sqrt);
      |ranked| == |GroupKeys(Selected(rows, q), groupBy)| &&
      (forall s :: s in ranked ==> exists p :: p in rows && Selects(q, RecordOf(p)) && KeyOf(p, groupBy) == s.key) &&
      (forall p :: p in rows && Selects(q, RecordOf(p)) ==> exists s :: s in ranked && s.key == KeyOf(p, groupBy)) &&
      (IsSqrt(sqrt) ==> forall s :: s in ranked ==> ConsistentStats(s))
  {
    var stats := GroupStats(rows, q, groupBy, sqrt);
    UnorderedKeysSelected(rows, q, groupBy, sqrt);
    UnorderedKeysCovered(rows, q, groupBy, sqrt);
    if IsSqrt(sqrt) { UnorderedConsistent(rows, q, groupBy, sqrt); }
    var ranked := Ranked(rows, q, groupBy, sqrt);
    assert multiset(ranked) == multiset(stats);
    assert |ranked| == |stats| by {
      assert |multiset(ranked)| == |multiset(stats)|;
    }
    assert forall s :: s in ranked <==> s in stats by {
      forall s ensures s in ranked <==> s in stats {
        assert s in ranked <==> s in multiset(ranked);
        assert s in stats <==> s in multiset(stats);
      }
    }
  }

  lemma AggregateKey(g: Group, sqrt: real -> real)
    requires |g.members| >= 1
    ensures Aggregate(g, sqrt).key == g.key
  {
  }

  lemma {:induction false} SelectedAgree(rows: seq<Participation>, q1: QueryState, q2: QueryState)
    requires forall p :: p in rows ==> (Selects(q1, RecordOf(p)) <==> Selects(q2, RecordOf(p)))
    ensures Selected(rows, q1) == Selected(rows, q2)
  {
    if rows != [] { SelectedAgree(rows[1..], q1, q2); }
  }

  lemma {:induction false} GroupKeysAgree(rows: seq<Participation>, c1: string, c2: string)
    requires forall p :: p in rows ==> KeyOf(p, c1) == KeyOf(p, c2)
    ensures GroupKeys(rows, c1) == GroupKeys(rows, c2)
    decreases |rows|
  {
    if rows != [] {
      GroupKeysAgree(rows[..|rows| - 1], c1, c2);
    }
  }

  /**
   * The count ignores `take`, `skip`, `search` and the sorting: two requests
   * with the same filters get the same count query.
   */
  lemma CountIgnoresPaging(req1: Request, req2: Request)
    requires req1.filters == req2.filters
    ensures CountQuery(req1) == CountQuery(req2)
  {
    NoSortColumns(RankeableOnly(), req1, RankingFilterColumns, []);
    NoSortColumns(RankeableOnly(), req2, RankingFilterColumns, []);
  }

  /**
   * Without a search, and when the count's GROUP BY takes the same value as
   * the page's on every row, the count is the number of ranked rows across
   * all pages.
   */
  lemma CountIsNumberOfGroups(req: Request, rows: seq<Participation>, groupBy: string, countGroupBy: string,
                              searchColumns: seq<string>, sqrt: real -> real)
    requires PageQuery(req, searchColumns).Ok? && !QueryTruthy(req.query, SearchParam)
    requires forall p :: p in rows ==> KeyOf(p, groupBy) == KeyOf(p, countGroupBy)
    ensures CountGroups(rows, CountQuery(req), countGroupBy) == |Ranked(rows, PageQuery(req, searchColumns).value, groupBy, sqrt)|
  {
    var q := PageQuery(req, searchColumns).value;
    NoSortColumns(RankeableOnly(), req, RankingFilterColumns, RankingSortColumns);
    assert q.conditions == CountQuery(req).conditions && q.parameters == CountQuery(req).parameters;
    SelectedAgree(rows, CountQuery(req), q);
    GroupKeysAgree(Selected(rows, q), countGroupBy, groupBy);
    RankedSpec(rows, q, groupBy, sqrt);
  }

  /**
   * `getRanking` rejects with the TypeError exactly when the filter loop
   * throws, and otherwise exactly when `take` or `skip` is negative, with
   * the OFFSET error whenever `skip` is.
   */
  lemma RankingErrors(req: Request, rows: seq<Participation>, groupBy: string, countGroupBy: string,
                      searchColumns: seq<string>, sqrt: real -> real)
    ensures var result := RankingOf(req, rows, groupBy, countGroupBy, searchColumns, sqrt);
      (result == Err(TypeError) <==> CompileRequest(RankeableOnly(), req, RankingFilterColumns, RankingSortColumns).outcome.Threw?) &&
      (PageQuery(req, searchColumns).Ok? ==>
        var take, skip := GetQueryInt(req.query, "take", 10), GetQueryInt(req.query, "skip", 0);
        (result.Err? <==> take < 0 || skip < 0) &&
        (skip < 0 ==> result == Err(NegativeOffset)) &&
        (skip >= 0 && take < 0 ==> result == Err(NegativeLimit)))
  {
    if PageQuery(req, searchColumns).Ok? {
      var q := PageQuery(req, searchColumns).value;
      assert q.limit == Some(GetQueryInt(req.query, "take", 10)) && q.offset == Some(GetQueryInt(req.query, "skip", 0));
      assert NegativeLimit != TypeError && NegativeOffset != TypeError;
    }
  }

  /**
   * A page holds at most `take` rows (10 when `take` is absent): the ranked
   * rows from position `skip` on.
   */
  lemma RankingPage(req: Request, rows: seq<Participation>, groupBy: string, countGroupBy: string,
                    searchColumns: seq<string>, sqrt: real -> real)
    requires RankingOf(req, rows, groupBy, countGroupBy, searchColumns, sqrt).Ok?
    ensures var page := RankingOf(req, rows, groupBy, countGroupBy, searchColumns, sqrt).value.page;
      var take, skip := GetQueryInt(req.query, "take", 10), GetQueryInt(req.query, "skip", 0);
      var ranked := Ranked(rows, PageQuery(req, searchColumns).value, groupBy, sqrt);
      |page| <= take && ("take" !in req.query ==> |page| <= 10) &&
      (0 <= skip <= |ranked| ==> page == ranked[skip..if skip + take <= |ranked| then skip + take else |ranked|]) &&
      (skip >= |ranked| ==> page == [])
  {
    GetQueryIntSpec(req.query, "take", 10);
    PageQueryPaging(req, searchColumns);
    var q := PageQuery(req, searchColumns).value;
    var take, skip := GetQueryInt(req.query, "take", 10), GetQueryInt(req.query, "skip", 0);
    assert Execute(rows, q, groupBy, sqrt).Ok?;
    assert RankingOf(req, rows, groupBy, countGroupBy, searchColumns, sqrt).value.page == Execute(rows, q, groupBy, sqrt).value;
    ExecutePage(rows, q, groupBy, sqrt, take, skip);
  }

  /** A query paged by non-negative `take` and `skip` runs to that page of the ranked groups. */
  lemma ExecutePage(rows: seq<Participation>, q: QueryState, groupBy: string, sqrt: real -> real, take: int, skip: int)
    requires q.limit == Some(take) && q.offset == Some(skip)
    requires Execute(rows, q, groupBy, sqrt).Ok?
    ensures take >= 0 && skip >= 0
    ensures Execute(rows, q, groupBy, sqrt).value == Page(Ranked(rows, q, groupBy, sqrt), skip, take)
  {
  }

  /** The page query pages by `take` and `skip`, read with their defaults. */
  lemma PageQueryPaging(req: Request, searchColumns: seq<string>)
    requires PageQuery(req, searchColumns).Ok?
    ensures PageQuery(req, searchColumns).value.limit == Some(GetQueryInt(req.query, "take", 10))
    ensures PageQuery(req, searchColumns).value.offset == Some(GetQueryInt(req.query, "skip", 0))
  {
  }

  /**
   * The `orderBy("score", "DESC")` fallback never runs, because the call
   * always returns an array, and arrays are truthy: the page query's
   * ordering is the one the sort descriptors set. Without a sort descriptor
   * naming a ranking column the page query has no ORDER BY and the groups
   * come in first-appearance order; otherwise the last match decides the
   * ordering.
   */
  lemma DefaultOrderingNeverApplied(req: Request, searchColumns: seq<string>)
    requires PageQuery(req, searchColumns).Ok?
    ensures var run := CompileRequest(RankeableOnly(), req, RankingFilterColumns, RankingSortColumns);
      run.outcome.Returned? && Truthy(ReturnValue(run.outcome)) &&
      PageQuery(req, searchColumns).value.ordering == run.query.ordering
    ensures var q := PageQuery(req, searchColumns).value;
      ((forall i, j :: !SortMatch(Sorting(req), RankingSortColumns, i, j)) ==> q.ordering == None) &&
      ((exists i, j :: SortMatch(Sorting(req), RankingSortColumns, i, j)) ==>
        exists i, j :: LastSortMatch(Sorting(req), RankingSortColumns, i, j) &&
          q.ordering == Some(Ordering(RankingSortColumns[j].alias, DirectionOf(Sorting(req)[i].desc))))
    ensures forall rows, groupBy, sqrt ::
      (forall i, j :: !SortMatch(Sorting(req), RankingSortColumns, i, j)) ==>
        |Ranked(rows, PageQuery(req, searchColumns).value, groupBy, sqrt)| == |GroupBy(Selected(rows, PageQuery(req, searchColumns).value), groupBy)|
  {
    var st0 := Compiled(RankeableOnly(), false, false);
    var c := CompileFilters(st0, Filters(req), RankingFilterColumns);
    FiltersOnlyAppend(st0, Filters(req), RankingFilterColumns);
    SortingSpec(SortState(c.query.ordering, false), Sorting(req), RankingSortColumns);
  }
}
