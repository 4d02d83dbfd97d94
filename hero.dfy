/**
 * The hero route, server/src/routes/hero.ts: the ranking grouped by hero
 * name, searched by hero name.
 */
module Heroes {

  import opened Wrappers
  import opened Text
  import opened Query
  import opened Filter
  import opened FilterMeaning
  import opened Ranking

  const HeroGroupBy: string := "game_player.heroName"
  const HeroSearchColumns: seq<string> := ["game_player.heroName"]

  /** `GET /`: `{ heroes, count }` from `getRanking`, or the error it rejects with. */
  method GetHeroes(req: Request, rows: seq<Participation>, sqrt: real -> real) returns (result: Result<Listing, string>)
    ensures result == RankingOf(req, rows, HeroGroupBy, HeroGroupBy, HeroSearchColumns, sqrt)
  {
    result := GetRanking(req, rows, HeroGroupBy, HeroGroupBy, HeroSearchColumns, sqrt);
  }

  /**
   * With a search term free of LIKE wildcards, a participation reaches the
   * page query exactly when it passes the filters and its hero name
   * contains the term.
   */
  lemma HeroRowMatches(req: Request, p: Participation, t: string)
    requires DistinctIds(Filters(req)) && PageQuery(req, HeroSearchColumns).Ok?
    requires SearchParam in req.query && req.query[SearchParam] == QString(t) && t != "" && Literal(t)
    ensures Selects(PageQuery(req, HeroSearchColumns).value, RecordOf(p)) <==>
      PassesFilters(req, RecordOf(p)) && Contains(p.heroName, t)
  {
    var r := RecordOf(p);
    PageQuerySelects(req, HeroSearchColumns, r);
    assert TextAt(r, HeroSearchColumns[0]) == Some(p.heroName);
    LikeSurroundedIsContains(t, p.heroName);
    assert MatchesSearch(req, HeroSearchColumns, r) <==> Like("%" + t + "%", p.heroName);
  }

  lemma HeroKey(p: Participation)
    ensures KeyOf(p, HeroGroupBy) == SText(p.heroName)
  {
    assert RecordOf(p)[HeroGroupBy] == SText(p.heroName);
  }

  /**
   * Searching heroes: every ranked hero's name contains the term, and every
   * hero of a participation that passes the filters and whose name
   * contains the term is ranked.
   */
  lemma HeroSearch(req: Request, rows: seq<Participation>, sqrt: real -> real, t: string)
    requires DistinctIds(Filters(req)) && PageQuery(req, HeroSearchColumns).Ok?
    requires SearchParam in req.query && req.query[SearchParam] == QString(t) && t != "" && Literal(t)
    ensures var ranked := Ranked(rows, PageQuery(req, HeroSearchColumns).value, HeroGroupBy, sqrt);
      (forall s :: s in ranked ==> s.key.SText? && Contains(s.key.s, t)) &&
      (forall p :: p in rows && PassesFilters(req, RecordOf(p)) && Contains(p.heroName, t) ==>
        exists s :: s in ranked && s.key == SText(p.heroName))
  {
    var q := PageQuery(req, HeroSearchColumns).value;
    var ranked := Ranked(rows, q, HeroGroupBy, sqrt);
    RankedSpec(rows, q, HeroGroupBy, sqrt);
    forall s | s in ranked ensures s.key.SText? && Contains(s.key.s, t) {
      var p :| p in rows && Selects(q, RecordOf(p)) && KeyOf(p, HeroGroupBy) == s.key;
      HeroRowMatches(req, p, t);
      HeroKey(p);
    }
    forall p | p in rows && PassesFilters(req, RecordOf(p)) && Contains(p.heroName, t)
      ensures exists s :: s in ranked && s.key == SText(p.heroName)
    {
      HeroRowMatches(req, p, t);
      HeroKey(p);
    }
  }

  /** Without a search, the count is the number of heroes ranked across all pages. */
  lemma HeroCount(req: Request, rows: seq<Participation>, sqrt: real -> real)
    requires PageQuery(req, HeroSearchColumns).Ok? && !QueryTruthy(req.query, SearchParam)
    ensures var listing := RankingOf(req, rows, HeroGroupBy, HeroGroupBy, HeroSearchColumns, sqrt);
      listing.Ok? ==> listing.value.count == |Ranked(rows, PageQuery(req, HeroSearchColumns).value, HeroGroupBy, sqrt)|
  {
    CountIsNumberOfGroups(req, rows, HeroGroupBy, HeroGroupBy, HeroSearchColumns, sqrt);
  }
}
