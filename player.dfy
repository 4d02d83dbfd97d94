/**
 * The player route, server/src/routes/player.ts: the ranking grouped by
 * Steam id and searched by Steam id or player name. The route repeats the
 * body of `getRanking` inline with these arguments; the count query groups
 * by `game_player.playerSteamId`, which holds the same value as
 * `player.steamId` on every joined row.
 */
module Players {

  import opened Wrappers
  import opened Text
  import opened Query
  import opened Filter
  import opened FilterMeaning
  import opened Ranking

  const PlayerGroupBy: string := "player.steamId"
  const PlayerCountGroupBy: string := "game_player.playerSteamId"
  const PlayerSearchColumns: seq<string> := ["player.steamId::text", "player.name"]

  /** The decimal Steam id or the player name contains the term. */
  predicate SearchHits(p: Participation, t: string) {
    Contains(DecimalString(p.playerSteamId), t) || Contains(p.playerName, t)
  }

  /** `GET /`: `{ players, count }`, or the error the handler rejects with. */
  method GetPlayers(req: Request, rows: seq<Participation>, sqrt: real -> real) returns (result: Result<Listing, string>)
    ensures result == RankingOf(req, rows, PlayerGroupBy, PlayerCountGroupBy, PlayerSearchColumns, sqrt)
  {
    result := GetRanking(req, rows, PlayerGroupBy, PlayerCountGroupBy, PlayerSearchColumns, sqrt);
  }

  /**
   * With a search term free of LIKE wildcards, a participation reaches the
   * page query exactly when it passes the filters and either the decimal
   * Steam id or the player name contains the term.
   */
  lemma PlayerRowMatches(req: Request, p: Participation, t: string)
    requires DistinctIds(Filters(req)) && PageQuery(req, PlayerSearchColumns).Ok?
    requires SearchParam in req.query && req.query[SearchParam] == QString(t) && t != "" && Literal(t)
    ensures Selects(PageQuery(req, PlayerSearchColumns).value, RecordOf(p)) <==>
      PassesFilters(req, RecordOf(p)) && SearchHits(p, t)
  {
    var r := RecordOf(p);
    PageQuerySelects(req, PlayerSearchColumns, r);
    assert TextAt(r, PlayerSearchColumns[0]) == Some(DecimalString(p.playerSteamId));
    assert TextAt(r, PlayerSearchColumns[1]) == Some(p.playerName);
    LikeSurroundedIsContains(t, DecimalString(p.playerSteamId));
    LikeSurroundedIsContains(t, p.playerName);
    assert MatchesSearch(req, PlayerSearchColumns, r) <==>
      Like("%" + t + "%", DecimalString(p.playerSteamId)) || Like("%" + t + "%", p.playerName);
  }

  /** Both GROUP BY expressions take the Steam id on every row. */
  lemma PlayerKeysAgree(rows: seq<Participation>)
    ensures forall p :: p in rows ==> KeyOf(p, PlayerGroupBy) == KeyOf(p, PlayerCountGroupBy) == SInt(p.playerSteamId)
  {
    forall p | p in rows ensures KeyOf(p, PlayerGroupBy) == KeyOf(p, PlayerCountGroupBy) == SInt(p.playerSteamId) {
      assert RecordOf(p)[PlayerGroupBy] == SInt(p.playerSteamId);
      assert RecordOf(p)[PlayerCountGroupBy] == SInt(p.playerSteamId);
    }
  }

  /**
   * Without a search, the count (grouped by `game_player.playerSteamId`) is
   * the number of players ranked across all pages (grouped by
   * `player.steamId`).
   */
  lemma PlayerCount(req: Request, rows: seq<Participation>, sqrt: real -> real)
    requires PageQuery(req, PlayerSearchColumns).Ok? && !QueryTruthy(req.query, SearchParam)
    ensures var listing := RankingOf(req, rows, PlayerGroupBy, PlayerCountGroupBy, PlayerSearchColumns, sqrt);
      listing.Ok? ==> listing.value.count == |Ranked(rows, PageQuery(req, PlayerSearchColumns).value, PlayerGroupBy, sqrt)|
  {
    PlayerKeysAgree(rows);
    CountIsNumberOfGroups(req, rows, PlayerGroupBy, PlayerCountGroupBy, PlayerSearchColumns, sqrt);
  }

  /**
   * Searching players: every ranked player has a participation that passes
   * the filters and whose Steam id or name contains the term, and every
   * such participation's player is ranked.
   */
  lemma PlayerSearch(req: Request, rows: seq<Participation>, sqrt: real -> real, t: string)
    requires DistinctIds(Filters(req)) && PageQuery(req, PlayerSearchColumns).Ok?
    requires SearchParam in req.query && req.query[SearchParam] == QString(t) && t != "" && Literal(t)
    ensures var ranked := Ranked(rows, PageQuery(req, PlayerSearchColumns).value, PlayerGroupBy, sqrt);
      (forall s :: s in ranked ==>
        exists p :: p in rows && s.key == SInt(p.playerSteamId) && PassesFilters(req, RecordOf(p)) && SearchHits(p, t)) &&
      (forall p :: p in rows && PassesFilters(req, RecordOf(p)) && SearchHits(p, t) ==>
        exists s :: s in ranked && s.key == SInt(p.playerSteamId))
  {
    var q := PageQuery(req, PlayerSearchColumns).value;
    var ranked := Ranked(rows, q, PlayerGroupBy, sqrt);
    RankedSpec(rows, q, PlayerGroupBy, sqrt);
    PlayerKeysAgree(rows);
    forall s | s in ranked
      ensures exists p :: p in rows && s.key == SInt(p.playerSteamId) && PassesFilters(req, RecordOf(p)) && SearchHits(p, t)
    {
      var p :| p in rows && Selects(q, RecordOf(p)) && KeyOf(p, PlayerGroupBy) == s.key;
      PlayerRowMatches(req, p, t);
    }
    forall p | p in rows && PassesFilters(req, RecordOf(p)) && SearchHits(p, t)
      ensures exists s :: s in ranked && s.key == SInt(p.playerSteamId)
    {
      PlayerRowMatches(req, p, t);
    }
  }
}
