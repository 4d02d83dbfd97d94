/**
 * The game route, server/src/routes/game.ts: validation of a submitted
 * match, the rankeable rule, the propagation of the match's fields onto
 * its participations, and the filtered, sorted, paginated listing.
 *
 * The enum declarations (shared/enums.ts) are not part of this model: the
 * sets of accepted enum values are a parameter of the validation, and the
 * rankeable rule compares against the enum members by their names.
 */
module Games {

  import opened Wrappers
  import opened Text
  import opened Query
  import opened Filter
  import opened FilterMeaning

  // ---------------------------------------------------------------------------
  // Entities
  // ---------------------------------------------------------------------------

  /** The fields of a participation as submitted; no handler changes them. */
  datatype PlayerEntry = PlayerEntry(
    state: string,
    steamId: int,
    heroName: string,
    kills: int,
    deaths: int,
    assists: int,
    points: int,
    level: int,
    team: string,
    winner: bool,
    items: seq<string>)

  /** A `GamePlayer` entity: the submitted entry plus the fields copied from its game. */
  class GamePlayer {
    var entry: PlayerEntry
    var createdDate: string
    var rankeable: bool
    var gameMode: string
    var heroSelectionMode: string
    var ladderNames: seq<string>

    constructor (entry: PlayerEntry)
      ensures this.entry == entry && ladderNames == []
    {
      this.entry := entry;
      createdDate := "";
      rankeable := false;
      gameMode := "";
      heroSelectionMode := "";
      ladderNames := [];
    }
  }

  /** A `Game` entity; its primary key never changes. */
  class Game {
    const id: int
    var createdDate: string
    var players: seq<GamePlayer>
    var gameMode: string
    var heroSelectionMode: string
    var durationSeconds: int
    var winnerTeam: string
    var rankeable: bool
    var balance: Option<string>
    var ladderNames: seq<string>

    constructor (id: int, players: seq<GamePlayer>)
      ensures this.id == id && this.players == players && ladderNames == []
    {
      this.id := id;
      createdDate := "";
      this.players := players;
      gameMode := "";
      heroSelectionMode := "";
      durationSeconds := 0;
      winnerTeam := "";
      rankeable := false;
      balance := None;
      ladderNames := [];
    }
  }

  // ---------------------------------------------------------------------------
  // Validation
  // ---------------------------------------------------------------------------

  /** The values of the `GameMode`, `HeroSelectionMode`, `Team` and `PlayerState` enums. */
  datatype Enums = Enums(gameModes: set<string>, heroSelectionModes: set<string>, teams: set<string>, playerStates: set<string>)

  /** `isIn` the enum's values and `notEmpty`. */
  predicate EnumField(v: string, values: set<string>) {
    v in values && v != ""
  }

  /** The `players.*` rules: enum state and team, at most 20 items, each with a non-empty name. */
  predicate ValidPlayer(e: PlayerEntry, enums: Enums) {
    EnumField(e.state, enums.playerStates) && EnumField(e.team, enums.teams) &&
    |e.items| <= 20 && forall k :: 0 <= k < |e.items| ==> e.items[k] != ""
  }

  /** The whole schema: enum fields, between 1 and 9 players, and every player valid. */
  predicate ValidGame(game: Game, enums: Enums)
    reads game, game.players
  {
    EnumField(game.gameMode, enums.gameModes) &&
    EnumField(game.heroSelectionMode, enums.heroSelectionModes) &&
    EnumField(game.winnerTeam, enums.teams) &&
    1 <= |game.players| <= 9 &&
    forall i :: 0 <= i < |game.players| ==> ValidPlayer(game.players[i].entry, enums)
  }

  // ---------------------------------------------------------------------------
  // The rankeable rule
  // ---------------------------------------------------------------------------

  const Point30: string := "POINT_30"
  const Point45: string := "POINT_45"
  const Point60: string := "POINT_60"
  const Normal: string := "NORMAL"
  const Connected: string := "CONNECTED"

  function States(players: seq<GamePlayer>): (states: seq<string>)
    reads players
    ensures |states| == |players|
    ensures forall i :: 0 <= i < |players| ==> states[i] == players[i].entry.state
  {
    seq(|players|, i requires 0 <= i < |players| reads players => players[i].entry.state)
  }

  /** `players.filter(p => p.state === CONNECTED).length` */
  function CountConnected(states: seq<string>): nat {
    if states == [] then 0
    else CountConnected(states[..|states| - 1]) + (if states[|states| - 1] == Connected then 1 else 0)
  }

  /** The rule of the POST handler, condition by condition. */
  predicate IsRankeable(states: seq<string>, gameMode: string, durationSeconds: int) {
    CountConnected(states) == 9 &&
    ((gameMode == Point30 && durationSeconds >= 25 * 60) ||
     (gameMode == Point45 && durationSeconds >= 40 * 60) ||
     (gameMode == Point60 && durationSeconds >= 55 * 60) ||
     (gameMode == Normal && durationSeconds >= 15 * 60))
  }

  /** The minimum duration, in seconds, of a rankeable game of each mode. */
  function MinimumDuration(gameMode: string): (seconds: Option<int>)
    ensures seconds.Some? <==> gameMode in {Point30, Point45, Point60, Normal}
  {
    if gameMode == Point30 then Some(1500)
    else if gameMode == Point45 then Some(2400)
    else if gameMode == Point60 then Some(3300)
    else if gameMode == Normal then Some(900)
    else None
  }

  /**
   * A game is rankeable exactly when nine players are connected and the
   * duration reaches its mode's minimum; any other mode is never rankeable.
   */
  lemma RankeableByThreshold(states: seq<string>, gameMode: string, durationSeconds: int)
    ensures IsRankeable(states, gameMode, durationSeconds) <==>
      CountConnected(states) == 9 && MinimumDuration(gameMode).Some? && durationSeconds >= MinimumDuration(gameMode).value
  {
  }

  lemma {:induction false} CountConnectedBound(states: seq<string>)
    ensures CountConnected(states) <= |states|
    ensures CountConnected(states) == |states| <==> forall i :: 0 <= i < |states| ==> states[i] == Connected
    decreases |states|
  {
    if states != [] {
      var init := states[..|states| - 1];
      CountConnectedBound(init);
      assert forall i :: 0 <= i < |init| ==> init[i] == states[i];
    }
  }

  /** With at most nine players, a rankeable game has exactly nine, all connected. */
  lemma RankeableMeansFullLobby(states: seq<string>, gameMode: string, durationSeconds: int)
    requires |states| <= 9 && IsRankeable(states, gameMode, durationSeconds)
    ensures |states| == 9 && forall i :: 0 <= i < |states| ==> states[i] == Connected
  {
    CountConnectedBound(states);
  }

  // ---------------------------------------------------------------------------
  // POST /
  // ---------------------------------------------------------------------------

  /** The fields the handler copies from the game onto one participation. */
  predicate Propagated(game: Game, p: GamePlayer)
    reads game, p
  {
    p.createdDate == game.createdDate && p.rankeable == game.rankeable &&
    p.gameMode == game.gameMode && p.heroSelectionMode == game.heroSelectionMode &&
    p.ladderNames == []
  }

  /** One iteration of the loop: the participation takes the game's fields. */
  method PropagateTo(game: Game, p: GamePlayer)
    modifies p
    ensures Propagated(game, p) && p.entry == old(p.entry)
  {
    p.createdDate := game.createdDate;
    p.rankeable := game.rankeable;
    p.gameMode := game.gameMode;
    p.heroSelectionMode := game.heroSelectionMode;
    p.ladderNames := [];
  }

  /** The `for (const player of game.players)` loop. */
  method PropagateAll(game: Game)
    modifies game.players
    ensures forall j :: 0 <= j < |game.players| ==> Propagated(game, game.players[j])
    ensures forall j :: 0 <= j < |game.players| ==> game.players[j].entry == old(game.players[j].entry)
  {
    var players := game.players;
    for i := 0 to |players|
      invariant game.players == players
      invariant forall j :: 0 <= j < i ==> Propagated(game, players[j])
      invariant forall j :: 0 <= j < |players| ==> players[j].entry == old(players[j].entry)
    {
      PropagateTo(game, players[i]);
    }
  }

  /**
   * `POST /` on the decoded body `game`: 400 when the schema fails, with
   * nothing changed; otherwise the rankeable rule is set, the game's ladder
   * names cleared, and every participation takes the game's date, flag and
   * modes with no ladder names. No participation is added or removed, and
   * the submitted entries stay as they were. Saving and the 201 response
   * body are I/O.
   */
  method PostGame(game: Game, enums: Enums) returns (status: int)
    modifies game, game.players
    ensures status == (if old(ValidGame(game, enums)) then 201 else 400)
    ensures status == 400 ==> unchanged(game) && forall j :: 0 <= j < |game.players| ==> unchanged(game.players[j])
    ensures status == 201 ==>
      game.rankeable == IsRankeable(old(States(game.players)), game.gameMode, game.durationSeconds) &&
      game.ladderNames == []
    ensures status == 201 ==>
      game.players == old(game.players) && game.createdDate == old(game.createdDate) &&
      game.gameMode == old(game.gameMode) && game.heroSelectionMode == old(game.heroSelectionMode) &&
      game.durationSeconds == old(game.durationSeconds) && game.winnerTeam == old(game.winnerTeam) &&
      game.balance == old(game.balance)
    ensures status == 201 ==> forall j :: 0 <= j < |game.players| ==>
      Propagated(game, game.players[j]) && game.players[j].entry == old(game.players[j].entry)
  {
    if !ValidGame(game, enums) {
      return 400;
    }
    ghost var states := States(game.players);
    game.rankeable := IsRankeable(States(game.players), game.gameMode, game.durationSeconds);
    game.ladderNames := [];
    PropagateAll(game);
    assert states == old(States(game.players));
    return 201;
  }

  // ---------------------------------------------------------------------------
  // GET /
  // ---------------------------------------------------------------------------

  /** A stored game as the listing query sees it. */
  datatype GameRow = GameRow(
    id: int,
    createdDate: string,
    gameMode: string,
    heroSelectionMode: string,
    durationSeconds: int,
    rankeable: bool,
    balance: Option<string>,
    ladderNames: seq<string>)

  function GameRecord(g: GameRow): Record {
    map[
      "game.id" := SInt(g.id),
      "game.createdDate" := SText(g.createdDate),
      "game.gameMode" := SText(g.gameMode),
      "game.heroSelectionMode" := SText(g.heroSelectionMode),
      "game.durationSeconds" := SInt(g.durationSeconds),
      "game.rankeable" := SBool(g.rankeable),
      "game.balance" := if g.balance.Some? then SText(g.balance.value) else SNull,
      "game.ladderNames" := STextArray(g.ladderNames)]
  }

  const GameFilterColumns: seq<FilterColumn> := [
    FilterColumn("createdDate", DateColumn, "game.createdDate"),
    FilterColumn("gameMode", EnumColumn, "game.gameMode"),
    FilterColumn("heroSelectionMode", EnumColumn, "game.heroSelectionMode"),
    FilterColumn("rankeable", BooleanColumn, "game.rankeable"),
    FilterColumn("balance", StringColumn, "game.balance"),
    FilterColumn("ladder", ArrayColumn, "game.ladderNames")]

  const GameSortColumns: seq<SortColumn> := [
    SortColumn("createdDate", "game.createdDate"),
    SortColumn("durationSeconds", "game.durationSeconds"),
    SortColumn("rankeable", "game.rankeable"),
    SortColumn("balance", "game.balance")]

  /** The fallback ordering `GET /` applies when the filter call's result is falsy. */
  const DefaultOrdering: Ordering := Ordering("game.createdDate", Desc)

  /** The listing query after the builder calls, or the TypeError the filter loop throws. */
  function ListQuery(req: Request): Result<QueryState, string> {
    var run := CompileRequest(EmptyQuery([]), req, GameFilterColumns, GameSortColumns);
    if run.outcome.Threw? then Err(TypeError)
    else
      var ordered := OrderUnless(run.query, ReturnValue(run.outcome), DefaultOrdering);
      Ok(ordered.(limit := Some(GetQueryInt(req.query, "take", 10)), offset := Some(GetQueryInt(req.query, "skip", 0))))
  }

  /** The stored games the conditions select, in stored order. */
  function SelectedGames(rows: seq<GameRow>, q: QueryState): (kept: seq<GameRow>)
    ensures |kept| <= |rows|
    ensures forall g :: g in kept <==> g in rows && Selects(q, GameRecord(g))
  {
    if rows == [] then []
    else (if Selects(q, GameRecord(rows[0])) then [rows[0]] else []) + SelectedGames(rows[1..], q)
  }

  function ColumnOf(g: GameRow, alias: string): SqlValue {
    var r := GameRecord(g);
    if alias in r then r[alias] else SNull
  }

  /** The selected games in ORDER BY order when the query has one. */
  function OrderedGames(rows: seq<GameRow>, q: QueryState): seq<GameRow> {
    var kept := SelectedGames(rows, q);
    match q.ordering
    case None => kept
    case Some(o) => SortBy(kept, g => ColumnOf(g, o.column), o.direction)
  }

  /** `{ games, count }` */
  datatype GameListing = GameListing(games: seq<GameRow>, count: nat)

  /**
   * `getManyAndCount`: one page of the ordered games, and the number of all
   * selected games, or the error negative paging raises.
   */
  function ListGames(req: Request, rows: seq<GameRow>): Result<GameListing, string> {
    match ListQuery(req)
    case Err(e) => Err(e)
    case Ok(q) =>
      match PagingError(q)
      case Some(e) => Err(e)
      case None => Ok(GameListing(Page(OrderedGames(rows, q), q.offset.value, q.limit.value), |SelectedGames(rows, q)|))
  }

  /** `GET /`: the builder calls of the handler, then the query on the stored games. */
  method GetGames(req: Request, rows: seq<GameRow>) returns (result: Result<GameListing, string>)
    ensures result == ListGames(req, rows)
  {
    var query := new QueryBuilder([]);
    var outcome := FilterQueryFromRequest(req, query, GameFilterColumns, GameSortColumns);
    if outcome.Threw? {
      return Err(TypeError);
    }
    OrderByUnless(query, ReturnValue(outcome), DefaultOrdering);
    query.Limit(GetQueryInt(req.query, "take", 10));
    query.Offset(GetQueryInt(req.query, "skip", 0));
    var q := query.State();
    var paging := PagingError(q);
    if paging.Some? {
      return Err(paging.value);
    }
    return Ok(GameListing(Page(OrderedGames(rows, q), q.offset.value, q.limit.value), |SelectedGames(rows, q)|));
  }

  // ---------------------------------------------------------------------------
  // Properties of the listing
  // ---------------------------------------------------------------------------

  lemma {:induction false} SelectedGamesAgree(rows: seq<GameRow>, q1: QueryState, q2: QueryState)
    requires q1.conditions == q2.conditions && q1.parameters == q2.parameters
    ensures SelectedGames(rows, q1) == SelectedGames(rows, q2)
  {
    if rows != [] { SelectedGamesAgree(rows[1..], q1, q2); }
  }

  /** A page holds at most `take` games (10 when absent), all of them selected. */
  lemma GamePageSpec(req: Request, rows: seq<GameRow>)
    requires ListGames(req, rows).Ok?
    ensures var listing, q := ListGames(req, rows).value, ListQuery(req).value;
      |listing.games| <= GetQueryInt(req.query, "take", 10) &&
      ("take" !in req.query ==> |listing.games| <= 10) &&
      (forall g :: g in listing.games ==> g in rows && Selects(q, GameRecord(g)))
  {
    GetQueryIntSpec(req.query, "take", 10);
    var q := ListQuery(req).value;
    OrderedGamesSelected(rows, q);
    PageWithin(OrderedGames(rows, q), q.offset.value, q.limit.value);
  }

  /** Ordering the selected games neither adds nor drops one. */
  lemma OrderedGamesSelected(rows: seq<GameRow>, q: QueryState)
    ensures forall g :: g in OrderedGames(rows, q) ==> g in rows && Selects(q, GameRecord(g))
  {
    var ordered, kept := OrderedGames(rows, q), SelectedGames(rows, q);
    if q.ordering.Some? {
      forall g | g in ordered ensures g in kept {
        assert g in multiset(ordered);
      }
    }
  }

  /**
   * The count is the number of selected games and depends on the filters
   * alone, not on `take`, `skip` or the sorting.
   */
  lemma GameCountSpec(req: Request, other: Request, rows: seq<GameRow>)
    requires ListGames(req, rows).Ok? && ListGames(other, rows).Ok? && req.filters == other.filters
    ensures ListGames(req, rows).value.count == |SelectedGames(rows, ListQuery(req).value)|
    ensures ListGames(req, rows).value.count == ListGames(other, rows).value.count
  {
    NoSortColumns(EmptyQuery([]), req, GameFilterColumns, GameSortColumns);
    NoSortColumns(EmptyQuery([]), other, GameFilterColumns, GameSortColumns);
    SelectedGamesAgree(rows, ListQuery(req).value, ListQuery(other).value);
  }

  /**
   * `GET /` rejects with the TypeError exactly when the filter loop throws,
   * and otherwise exactly when `take` or `skip` is negative, with the OFFSET
   * error whenever `skip` is.
   */
  lemma GameErrors(req: Request, rows: seq<GameRow>)
    ensures ListGames(req, rows) == Err(TypeError) <==>
      CompileRequest(EmptyQuery([]), req, GameFilterColumns, GameSortColumns).outcome.Threw?
    ensures ListQuery(req).Ok? ==>
      var take, skip := GetQueryInt(req.query, "take", 10), GetQueryInt(req.query, "skip", 0);
      (ListGames(req, rows).Err? <==> take < 0 || skip < 0) &&
      (skip < 0 ==> ListGames(req, rows) == Err(NegativeOffset)) &&
      (skip >= 0 && take < 0 ==> ListGames(req, rows) == Err(NegativeLimit))
  {
    if ListQuery(req).Ok? {
      var q := ListQuery(req).value;
      assert q.limit == Some(GetQueryInt(req.query, "take", 10)) && q.offset == Some(GetQueryInt(req.query, "skip", 0));
    }
  }

  lemma GameRegistryWellFormed()
    ensures WellFormedRegistry(GameFilterColumns)
  {
    var cols := GameFilterColumns;
    assert forall j :: 0 <= j < |cols| ==> cols[j].name in {"createdDate", "gameMode", "heroSelectionMode", "rankeable", "balance", "ladder"};
    assert forall j :: 0 <= j < |cols| && cols[j].kind == DateColumn ==> j == 0;
  }

  /** With distinct descriptor ids, the listing selects exactly the games meeting every filter. */
  lemma ListQuerySelects(req: Request, g: GameRow)
    requires DistinctIds(Filters(req)) && ListQuery(req).Ok?
    ensures Selects(ListQuery(req).value, GameRecord(g)) <==> MeetsAll(Filters(req), GameFilterColumns, GameRecord(g))
  {
    GameRegistryWellFormed();
    assert ReadsWithin(EmptyQuery([]), {});
    CompiledFiltersMeaning(EmptyQuery([]), Filters(req), GameFilterColumns, GameRecord(g));
  }

  /**
   * The `rankeable` filter: a truthy value keeps the rankeable games when it
   * is the string "true" and the other games for any other value.
   */
  lemma RankeableFilter(v: JsValue, g: GameRow)
    ensures MeetsDescriptor(FilterDescriptor("rankeable", v), GameFilterColumns, GameRecord(g)) <==>
      !Truthy(v) || g.rankeable == (v == Str("true"))
  {
    var f := FilterDescriptor("rankeable", v);
    var cols, r := GameFilterColumns, GameRecord(g);
    assert forall j :: 0 <= j < |cols| && cols[j].name == f.id ==> j == 3;
    assert MeetsDescriptor(f, cols, r) <==> (Truthy(v) ==> Demands(f, cols[3], r));
    assert r["game.rankeable"] == SBool(g.rankeable);
  }

  /** The `balance` filter with a term free of LIKE wildcards keeps the games whose balance contains it. */
  lemma BalanceFilter(t: string, g: GameRow)
    requires t != "" && Literal(t)
    ensures MeetsDescriptor(FilterDescriptor("balance", Str(t)), GameFilterColumns, GameRecord(g)) <==>
      g.balance.Some? && Contains(g.balance.value, t)
  {
    var f := FilterDescriptor("balance", Str(t));
    var cols := GameFilterColumns;
    assert forall j :: 0 <= j < |cols| && cols[j].name == f.id ==> j == 4;
    StringFilterMeaning(f, cols[4], GameRecord(g));
    assert TextAt(GameRecord(g), "game.balance") == (if g.balance.Some? then Some(g.balance.value) else None);
  }

  /**
   * The `orderBy("game.createdDate", "DESC")` fallback never runs, because
   * the filter call returns an array, and arrays are truthy: the listing's
   * ordering is the one the sort descriptors set. Without a sort descriptor
   * naming a listing column the query has no ORDER BY and the games come in
   * stored order; otherwise the last match decides the ordering.
   */
  lemma DefaultOrderingNeverApplied(req: Request, rows: seq<GameRow>)
    requires ListQuery(req).Ok?
    ensures var run := CompileRequest(EmptyQuery([]), req, GameFilterColumns, GameSortColumns);
      run.outcome.Returned? && Truthy(ReturnValue(run.outcome)) &&
      ListQuery(req).value.ordering == run.query.ordering
    ensures (forall i, j :: !SortMatch(Sorting(req), GameSortColumns, i, j)) ==>
      ListQuery(req).value.ordering == None &&
      OrderedGames(rows, ListQuery(req).value) == SelectedGames(rows, ListQuery(req).value)
    ensures (exists i, j :: SortMatch(Sorting(req), GameSortColumns, i, j)) ==>
      exists i, j :: LastSortMatch(Sorting(req), GameSortColumns, i, j) &&
        ListQuery(req).value.ordering == Some(Ordering(GameSortColumns[j].alias, DirectionOf(Sorting(req)[i].desc)))
  {
    var st0 := Compiled(EmptyQuery([]), false, false);
    var c := CompileFilters(st0, Filters(req), GameFilterColumns);
    FiltersOnlyAppend(st0, Filters(req), GameFilterColumns);
    SortingSpec(SortState(c.query.ordering, false), Sorting(req), GameSortColumns);
  }
}
