/**
 * The ladder route, server/src/routes/ladder.ts: name validation, ladder
 * creation, the gate in front of the per-ladder routes, and adding a game
 * to a ladder or removing it.
 *
 * Password hashing and comparison (bcrypt) are parameters; the repository
 * lookups arrive as their results.
 */
module Ladders {

  import opened Wrappers
  import opened Text
  import opened Query
  import opened Filter
  import opened FilterMeaning
  import opened Games

  // ---------------------------------------------------------------------------
  // Set-like updates of a sequence
  // ---------------------------------------------------------------------------

  /** `if (!xs.includes(x)) xs.push(x)` */
  function AddIfAbsent<T(==)>(xs: seq<T>, x: T): seq<T> {
    if x in xs then xs else xs + [x]
  }

  /** `xs.filter((y) => y !== x)` */
  function RemoveAll<T(==)>(xs: seq<T>, x: T): seq<T> {
    if xs == [] then [] else (if xs[0] == x then [] else [xs[0]]) + RemoveAll(xs[1..], x)
  }

  predicate NoDuplicates<T(==)>(xs: seq<T>) {
    forall a, b :: 0 <= a < b < |xs| ==> xs[a] != xs[b]
  }

  /** `a` is `b` with some elements dropped, the rest in their order. */
  predicate IsSubsequence<T(==)>(a: seq<T>, b: seq<T>)
    decreases |b|
  {
    if a == [] then true
    else if b == [] then false
    else if a[0] == b[0] then IsSubsequence(a[1..], b[1..])
    else IsSubsequence(a, b[1..])
  }

  /**
   * Adding keeps the old elements as a prefix, adds `x` at most once, keeps
   * a duplicate-free sequence duplicate-free, and a second add changes
   * nothing.
   */
  lemma AddIfAbsentSpec<T>(xs: seq<T>, x: T)
    ensures var r := AddIfAbsent(xs, x);
      x in r && xs <= r && |r| <= |xs| + 1 &&
      (forall y :: y in r <==> y in xs || y == x) &&
      (NoDuplicates(xs) ==> NoDuplicates(r)) &&
      AddIfAbsent(r, x) == r
  {
  }

  /** Removing drops every `x` and nothing else. */
  lemma {:induction false} RemoveAllMembers<T>(xs: seq<T>, x: T)
    ensures forall y :: y in RemoveAll(xs, x) <==> y in xs && y != x
    ensures |RemoveAll(xs, x)| <= |xs|
    ensures x !in xs ==> RemoveAll(xs, x) == xs
  {
    if xs != [] {
      RemoveAllMembers(xs[1..], x);
      assert forall y :: y in xs <==> y == xs[0] || y in xs[1..];
    }
  }

  /** Removing keeps the order of what remains. */
  lemma {:induction false} RemoveAllKeepsOrder<T>(xs: seq<T>, x: T)
    ensures IsSubsequence(RemoveAll(xs, x), xs)
  {
    if xs != [] {
      RemoveAllKeepsOrder(xs[1..], x);
      var rest := RemoveAll(xs[1..], x);
      if xs[0] != x {
        var r := [xs[0]] + rest;
        assert r[0] == xs[0] && r[1..] == rest;
      } else {
        assert RemoveAll(xs, x) == rest;
        if rest != [] {
          RemoveAllMembers(xs[1..], x);
          assert rest[0] in rest;
          assert IsSubsequence(rest, xs) == IsSubsequence(rest, xs[1..]);
        }
      }
    }
  }

  /** A second removal changes nothing, and a duplicate-free sequence stays duplicate-free. */
  lemma {:induction false} RemoveAllIdempotent<T>(xs: seq<T>, x: T)
    ensures RemoveAll(RemoveAll(xs, x), x) == RemoveAll(xs, x)
    ensures NoDuplicates(xs) ==> NoDuplicates(RemoveAll(xs, x))
  {
    if xs != [] {
      RemoveAllIdempotent(xs[1..], x);
      RemoveAllMembers(xs[1..], x);
      var rest := RemoveAll(xs[1..], x);
      if xs[0] != x {
        var r := [xs[0]] + rest;
        assert RemoveAll(xs, x) == r;
        assert r[1..] == rest;
        assert RemoveAll(r, x) == [r[0]] + RemoveAll(r[1..], x);
        if NoDuplicates(xs) {
          assert NoDuplicates(xs[1..]);
          assert xs[0] !in xs[1..];
        }
      } else {
        assert RemoveAll(xs, x) == rest;
      }
    }
  }

  /**
   * Removing drops every `x` and nothing else, keeps the order of the rest,
   * keeps a duplicate-free sequence duplicate-free, changes nothing when
   * `x` is absent, and a second removal changes nothing.
   */
  lemma RemoveAllSpec<T>(xs: seq<T>, x: T)
    ensures var r := RemoveAll(xs, x);
      (forall y :: y in r <==> y in xs && y != x) &&
      |r| <= |xs| && IsSubsequence(r, xs) &&
      (NoDuplicates(xs) ==> NoDuplicates(r)) &&
      (x !in xs ==> r == xs) &&
      RemoveAll(r, x) == r
  {
    RemoveAllMembers(xs, x);
    RemoveAllKeepsOrder(xs, x);
    RemoveAllIdempotent(xs, x);
  }

  lemma {:induction false} RemoveAllAppend<T>(xs: seq<T>, ys: seq<T>, x: T)
    ensures RemoveAll(xs + ys, x) == RemoveAll(xs, x) + RemoveAll(ys, x)
  {
    if xs != [] {
      RemoveAllAppend(xs[1..], ys, x);
      assert (xs + ys)[1..] == xs[1..] + ys;
    } else {
      assert xs + ys == ys;
    }
  }

  /** Removing undoes adding: the result is the removal alone, and the original when `x` was absent. */
  lemma RemoveUndoesAdd<T>(xs: seq<T>, x: T)
    ensures RemoveAll(AddIfAbsent(xs, x), x) == RemoveAll(xs, x)
    ensures x !in xs ==> RemoveAll(AddIfAbsent(xs, x), x) == xs
  {
    RemoveAllAppend(xs, [x], x);
    assert RemoveAll([x], x) == [];
    RemoveAllSpec(xs, x);
  }

  // ---------------------------------------------------------------------------
  // Validation and creation
  // ---------------------------------------------------------------------------

  /** Between 3 and 20 characters, ASCII letters and digits only. */
  predicate ValidLadderName(s: string) {
    3 <= |s| <= 20 && forall i :: 0 <= i < |s| ==> IsAsciiUpper(s[i]) || IsAsciiLower(s[i]) || IsAsciiDigit(s[i])
  }

  /** The schema of `POST /`: a valid name and a non-empty passphrase, both strings. */
  predicate ValidLadderBody(name: JsValue, passphrase: JsValue) {
    name.Str? && name.s != "" && ValidLadderName(name.s) && passphrase.Str? && passphrase.s != ""
  }

  /** A stored ladder without its games. */
  datatype LadderRow = LadderRow(name: string, passphraseHash: string, numGames: nat)

  const LadderExistsMessage: string := "Ladder already exists"
  const LadderNotFoundMessage: string := "Ladder not found"
  const IncorrectPassphraseMessage: string := "Incorrect passphrase"
  const GameNotFoundMessage: string := "Game not found"

  datatype CreateReply = InvalidBody | AlreadyExists | Created(ladder: LadderRow)

  function CreateStatus(reply: CreateReply): int {
    match reply
    case InvalidBody => 400
    case AlreadyExists => 400
    case Created(_) => 201
  }

  /** `POST /`, given the names already stored and the hash function. */
  function CreateLadder(existing: set<string>, name: JsValue, passphrase: JsValue, hash: string -> string): CreateReply {
    if !ValidLadderBody(name, passphrase) then InvalidBody
    else if name.s in existing then AlreadyExists
    else Created(LadderRow(name.s, hash(passphrase.s), 0))
  }

  /**
   * A ladder is created exactly when the body is valid and the name is
   * new; it then has that valid name, the hashed passphrase and a game
   * count of 0.
   * A valid body with a taken name is the "Ladder already exists" case.
   */
  lemma CreateLadderSpec(existing: set<string>, name: JsValue, passphrase: JsValue, hash: string -> string)
    ensures var reply := CreateLadder(existing, name, passphrase, hash);
      (reply.Created? <==> ValidLadderBody(name, passphrase) && name.s !in existing) &&
      (reply.AlreadyExists? <==> ValidLadderBody(name, passphrase) && name.s in existing) &&
      (CreateStatus(reply) == 201 <==> reply.Created?) &&
      (reply.Created? ==>
        reply.ladder.name == name.s && ValidLadderName(reply.ladder.name) &&
        reply.ladder.passphraseHash == hash(passphrase.s) && reply.ladder.numGames == 0)
  {
  }

  /** Every valid ladder name is a literal LIKE pattern, and a non-empty one. */
  lemma ValidNameIsLiteral(s: string)
    requires ValidLadderName(s)
    ensures Literal(s) && s != ""
  {
    assert forall i :: 0 <= i < |s| ==> s[i] != '%' && s[i] != '_' && s[i] != '\\';
  }

  // ---------------------------------------------------------------------------
  // The gate of `/:ladder_name` and `/:ladder_name/games/:game_id`
  // ---------------------------------------------------------------------------

  datatype GateReply = LadderNotFound | IncorrectPassphrase | CompareRejects | GameNotFound | Proceed

  /** The HTTP status of each reply; a rejected bcrypt call sends none. */
  function GateStatus(reply: GateReply): Option<int> {
    match reply
    case LadderNotFound => Some(404)
    case IncorrectPassphrase => Some(400)
    case CompareRejects => None
    case GameNotFound => Some(404)
    case Proceed => None
  }

  /**
   * The two middlewares in order: the ladder lookup, the passphrase check on
   * `req.body.passphrase || ""` (bcrypt rejects a value that is not a
   * string), then the game lookup.
   */
  function Gate(ladderFound: bool, passphrase: JsValue, matches: string -> bool, gameFound: bool): GateReply {
    if !ladderFound then LadderNotFound
    else
      var given := if Truthy(passphrase) then passphrase else Str("");
      if !given.Str? then CompareRejects
      else if !matches(given.s) then IncorrectPassphrase
      else if !gameFound then GameNotFound
      else Proceed
  }

  /**
   * An unknown ladder is a 404 whatever the passphrase and the game; a
   * wrong passphrase is a 400 whatever the game; the handler runs only for
   * a known ladder, a matching passphrase and a known game. A missing
   * passphrase is compared as the empty string. The replies carry status
   * 404 exactly for an unknown ladder or, past a matching passphrase, an
   * unknown game; 400 exactly for a passphrase that does not match; and no
   * status when bcrypt rejects a non-string passphrase or the handler runs.
   */
  lemma GateOrder(ladderFound: bool, passphrase: JsValue, matches: string -> bool, gameFound: bool)
    ensures !ladderFound ==> Gate(ladderFound, passphrase, matches, gameFound) == LadderNotFound
    ensures ladderFound && passphrase.Str? && passphrase.s != "" && !matches(passphrase.s) ==>
      Gate(ladderFound, passphrase, matches, gameFound) == IncorrectPassphrase
    ensures ladderFound && !Truthy(passphrase) ==>
      Gate(ladderFound, passphrase, matches, gameFound) == (if !matches("") then IncorrectPassphrase else if gameFound then Proceed else GameNotFound)
    ensures Gate(ladderFound, passphrase, matches, gameFound) == Proceed <==>
      ladderFound && gameFound &&
      (if Truthy(passphrase) then passphrase.Str? && matches(passphrase.s) else matches(""))
    ensures var passes := if Truthy(passphrase) then passphrase.Str? && matches(passphrase.s) else matches("");
      var rejects := Truthy(passphrase) && !passphrase.Str?;
      var status := GateStatus(Gate(ladderFound, passphrase, matches, gameFound));
      (status == Some(404) <==> !ladderFound || (passes && !gameFound)) &&
      (status == Some(400) <==> ladderFound && !passes && !rejects) &&
      (status == None <==> ladderFound && (rejects || (passes && gameFound)))
  {
  }

  // ---------------------------------------------------------------------------
  // Adding and removing a game
  // ---------------------------------------------------------------------------

  /** A `Ladder` entity with its games loaded; its name never changes. */
  class Ladder {
    const name: string
    var passphrase: string
    var numGames: int
    var games: seq<Game>

    constructor (name: string, passphrase: string, games: seq<Game>)
      ensures this.name == name && this.passphrase == passphrase && this.games == games && numGames == |games|
    {
      this.name := name;
      this.passphrase := passphrase;
      this.games := games;
      numGames := |games|;
    }

    /** `numGames` is the number of games, and no game is listed twice. */
    predicate Consistent()
      reads this
    {
      numGames == |games| && NoDuplicates(Ids(games))
    }
  }

  /** The ids of the games, in order: an id is listed exactly when some game has it. */
  function Ids(gs: seq<Game>): (ids: seq<int>)
    ensures |ids| == |gs| && forall i :: 0 <= i < |gs| ==> ids[i] == gs[i].id
    ensures forall id :: id in ids <==> exists g :: g in gs && g.id == id
  {
    seq(|gs|, i requires 0 <= i < |gs| => gs[i].id)
  }

  /** `games.filter((game) => game.id !== id)` */
  function WithoutGame(gs: seq<Game>, id: int): seq<Game> {
    if gs == [] then [] else (if gs[0].id == id then [] else [gs[0]]) + WithoutGame(gs[1..], id)
  }

  /** Filtering the games by id filters their ids. */
  lemma {:induction false} WithoutGameIds(gs: seq<Game>, id: int)
    ensures Ids(WithoutGame(gs, id)) == RemoveAll(Ids(gs), id)
    ensures forall g :: g in WithoutGame(gs, id) <==> g in gs && g.id != id
  {
    if gs != [] {
      WithoutGameIds(gs[1..], id);
      assert Ids(gs)[1..] == Ids(gs[1..]);
      var head := if gs[0].id == id then [] else [gs[0]];
      assert Ids(head + WithoutGame(gs[1..], id)) == Ids(head) + Ids(WithoutGame(gs[1..], id));
    }
  }

  /** The game's fields other than its ladder names are as they were. */
  twostate predicate GameKeptExceptLadderNames(game: Game)
    reads game
  {
    game.createdDate == old(game.createdDate) && game.players == old(game.players) &&
    game.gameMode == old(game.gameMode) && game.heroSelectionMode == old(game.heroSelectionMode) &&
    game.durationSeconds == old(game.durationSeconds) && game.winnerTeam == old(game.winnerTeam) &&
    game.rankeable == old(game.rankeable) && game.balance == old(game.balance)
  }

  /** The participation's fields other than its ladder names are as they were. */
  twostate predicate PlayerKeptExceptLadderNames(p: GamePlayer)
    reads p
  {
    p.entry == old(p.entry) && p.createdDate == old(p.createdDate) && p.rankeable == old(p.rankeable) &&
    p.gameMode == old(p.gameMode) && p.heroSelectionMode == old(p.heroSelectionMode)
  }

  method AddNameTo(p: GamePlayer, name: string)
    modifies p
    ensures p.ladderNames == AddIfAbsent(old(p.ladderNames), name)
    ensures PlayerKeptExceptLadderNames(p)
  {
    if name !in p.ladderNames {
      p.ladderNames := p.ladderNames + [name];
    }
  }

  method RemoveNameFrom(p: GamePlayer, name: string)
    modifies p
    ensures p.ladderNames == RemoveAll(old(p.ladderNames), name)
    ensures PlayerKeptExceptLadderNames(p)
  {
    p.ladderNames := RemoveAll(p.ladderNames, name);
  }

  /** `for (const player of players) if (!player.ladderNames.includes(name)) player.ladderNames.push(name)` */
  method AddNameToAll(players: seq<GamePlayer>, name: string)
    modifies players
    ensures forall j :: 0 <= j < |players| ==>
      players[j].ladderNames == AddIfAbsent(old(players[j].ladderNames), name) &&
      PlayerKeptExceptLadderNames(players[j])
  {
    for i := 0 to |players|
      invariant forall j :: 0 <= j < i ==> players[j].ladderNames == AddIfAbsent(old(players[j].ladderNames), name)
      invariant forall j :: i <= j < |players| ==>
        players[j].ladderNames == old(players[j].ladderNames) ||
        players[j].ladderNames == AddIfAbsent(old(players[j].ladderNames), name)
      invariant forall j :: 0 <= j < |players| ==> PlayerKeptExceptLadderNames(players[j])
    {
      AddNameTo(players[i], name);
    }
  }

  /** `for (const player of players) player.ladderNames = player.ladderNames.filter((n) => n !== name)` */
  method RemoveNameFromAll(players: seq<GamePlayer>, name: string)
    modifies players
    ensures forall j :: 0 <= j < |players| ==>
      players[j].ladderNames == RemoveAll(old(players[j].ladderNames), name) &&
      PlayerKeptExceptLadderNames(players[j])
  {
    forall j | 0 <= j < |players| {
      RemoveAllIdempotent(players[j].ladderNames, name);
    }
    for i := 0 to |players|
      invariant forall j :: 0 <= j < i ==> players[j].ladderNames == RemoveAll(old(players[j].ladderNames), name)
      invariant forall j :: i <= j < |players| ==>
        players[j].ladderNames == old(players[j].ladderNames) ||
        players[j].ladderNames == RemoveAll(old(players[j].ladderNames), name)
      invariant forall j :: 0 <= j < |players| ==> PlayerKeptExceptLadderNames(players[j])
    {
      RemoveNameFrom(players[i], name);
    }
  }

  /**
   * `POST /:ladder_name/games/:game_id` after the gate: the game joins the
   * ladder unless a game with its id is there already; the ladder's name
   * joins the game's and every participation's ladder names unless already
   * present; `numGames` is recounted. Nothing else changes.
   */
  method AddGame(ladder: Ladder, game: Game)
    modifies ladder, game, game.players
    ensures ladder.games == (if game.id in old(Ids(ladder.games)) then old(ladder.games) else old(ladder.games) + [game])
    ensures Ids(ladder.games) == AddIfAbsent(old(Ids(ladder.games)), game.id)
    ensures old(NoDuplicates(Ids(ladder.games))) ==> ladder.Consistent()
    ensures ladder.numGames == |ladder.games| && ladder.passphrase == old(ladder.passphrase)
    ensures game.ladderNames == AddIfAbsent(old(game.ladderNames), ladder.name)
    ensures GameKeptExceptLadderNames(game)
    ensures forall j :: 0 <= j < |game.players| ==>
      game.players[j].ladderNames == AddIfAbsent(old(game.players[j].ladderNames), ladder.name) &&
      PlayerKeptExceptLadderNames(game.players[j])
  {
    if NoDuplicates(Ids(ladder.games)) {
      UpdatesKeepConsistent(Ids(ladder.games), game.id);
    }
    if game.id !in Ids(ladder.games) {
      assert Ids(ladder.games + [game]) == Ids(ladder.games) + [game.id];
      ladder.games := ladder.games + [game];
    }
    if ladder.name !in game.ladderNames {
      game.ladderNames := game.ladderNames + [ladder.name];
    }
    AddNameToAll(game.players, ladder.name);
    ladder.numGames := |ladder.games|;
  }

  /**
   * `DELETE /:ladder_name/games/:game_id` after the gate: every game with
   * that id leaves the ladder, the others keep their order; the ladder's
   * name leaves the game's and every participation's ladder names;
   * `numGames` is recounted. Nothing else changes.
   */
  method RemoveGame(ladder: Ladder, game: Game)
    modifies ladder, game, game.players
    ensures ladder.games == WithoutGame(old(ladder.games), game.id)
    ensures Ids(ladder.games) == RemoveAll(old(Ids(ladder.games)), game.id)
    ensures old(NoDuplicates(Ids(ladder.games))) ==> ladder.Consistent()
    ensures ladder.numGames == |ladder.games| && ladder.passphrase == old(ladder.passphrase)
    ensures game.ladderNames == RemoveAll(old(game.ladderNames), ladder.name)
    ensures GameKeptExceptLadderNames(game)
    ensures forall j :: 0 <= j < |game.players| ==>
      game.players[j].ladderNames == RemoveAll(old(game.players[j].ladderNames), ladder.name) &&
      PlayerKeptExceptLadderNames(game.players[j])
  {
    if NoDuplicates(Ids(ladder.games)) {
      UpdatesKeepConsistent(Ids(ladder.games), game.id);
    }
    WithoutGameIds(ladder.games, game.id);
    ladder.games := WithoutGame(ladder.games, game.id);
    game.ladderNames := RemoveAll(game.ladderNames, ladder.name);
    RemoveNameFromAll(game.players, ladder.name);
    ladder.numGames := |ladder.games|;
  }

  /** Adding or removing a game keeps the ladder consistent. */
  lemma UpdatesKeepConsistent(ids: seq<int>, id: int)
    requires NoDuplicates(ids)
    ensures NoDuplicates(AddIfAbsent(ids, id)) && NoDuplicates(RemoveAll(ids, id))
  {
    AddIfAbsentSpec(ids, id);
    RemoveAllSpec(ids, id);
  }

  // ---------------------------------------------------------------------------
  // Ladder names and the ladder filter
  // ---------------------------------------------------------------------------

  /**
   * The `ladder` filter with a ladder's name finds a game exactly when the
   * name is `public`, which the filter reads as "every ladder", or when the
   * game's stored ladder names hold the lower-cased name.
   */
  lemma LadderFilterMeaning(name: string, c: FilterColumn, r: Record, names: seq<string>)
    requires c.kind == ArrayColumn && c.name == LadderId
    requires c.alias in r && r[c.alias] == STextArray(names)
    ensures Demands(FilterDescriptor(LadderId, Str(name)), c, r) <==> name == PublicLadder || ToLower(name) in names
  {
  }

  /**
   * After a game is added to a ladder, whatever ladders it was on before,
   * the `ladder` filter with that ladder's name finds it exactly when the
   * name is `public`, has no capital letter, or was already stored in its
   * lower-cased form.
   */
  lemma {:induction false} LadderFilterFindsGameAddedTo(name: string, c: FilterColumn, r: Record, names: seq<string>)
    requires c.kind == ArrayColumn && c.name == LadderId
    requires c.alias in r && r[c.alias] == STextArray(AddIfAbsent(names, name))
    ensures Demands(FilterDescriptor(LadderId, Str(name)), c, r) <==>
      name == PublicLadder || (forall i :: 0 <= i < |name| ==> !IsAsciiUpper(name[i])) || ToLower(name) in names
  {
    LadderFilterMeaning(name, c, r, AddIfAbsent(names, name));
    ToLowerFixedIffNoUpper(name);
    assert ToLower(name) in AddIfAbsent(names, name) <==> ToLower(name) in names || ToLower(name) == name;
  }

  /**
   * A game added to one ladder only is found by the `ladder` filter with
   * that ladder's name exactly when the name has no capital letter (the
   * filter lowercases its value, the names are stored as given), or when
   * the name is `public`, which the filter reads as "every ladder".
   */
  lemma LadderFilterFindsAddedGame(name: string, c: FilterColumn, r: Record)
    requires ValidLadderName(name) && c.kind == ArrayColumn && c.name == LadderId
    requires c.alias in r && r[c.alias] == STextArray(AddIfAbsent([], name))
    ensures Demands(FilterDescriptor(LadderId, Str(name)), c, r) <==>
      name == PublicLadder || forall i :: 0 <= i < |name| ==> !IsAsciiUpper(name[i])
  {
    var f := FilterDescriptor(LadderId, Str(name));
    assert AddIfAbsent([], name) == [name];
    if name != PublicLadder {
      if exists i :: 0 <= i < |name| && IsAsciiUpper(name[i]) {
        CapitalisedLadderNeverMatches(f, c, r, name);
      } else {
        assert ToLower(name) == name;
      }
    }
  }
}
