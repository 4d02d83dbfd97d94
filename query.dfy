/**
 * The query-builder side of the server: decoded JSON values as a request
 * carries them, SQL values of stored rows, the conditions and orderings a
 * TypeORM `SelectQueryBuilder` accumulates, and what those conditions mean
 * when PostgreSQL evaluates them against a row.
 */
module Query {

  import opened Wrappers
  import opened Text

  // ---------------------------------------------------------------------------
  // JavaScript values (decoded JSON)
  // ---------------------------------------------------------------------------

  /** A value as JSON.parse returns it; numbers are integers in this model. */
  datatype JsValue =
    | Undefined
    | Null
    | Bool(b: bool)
    | Num(n: int)
    | Str(s: string)
    | Arr(items: seq<JsValue>)
    | Obj(fields: map<string, JsValue>)

  /** JavaScript truthiness: `undefined`, `null`, `false`, `0` and `""` are falsy; arrays and objects never are. */
  predicate Truthy(v: JsValue) {
    match v
    case Undefined => false
    case Null => false
    case Bool(b) => b
    case Num(n) => n != 0
    case Str(s) => s != ""
    case Arr(_) => true
    case Obj(_) => true
  }

  /**
   * `v[i]`: one-character strings for strings, elements for arrays, the
   * property named by the decimal digits of `i` for objects, `undefined`
   * otherwise.
   */
  function Index(v: JsValue, i: nat): JsValue {
    match v
    case Str(s) => if i < |s| then Str([s[i]]) else Undefined
    case Arr(items) => if i < |items| then items[i] else Undefined
    case Obj(fields) => if DecimalString(i) in fields then fields[DecimalString(i)] else Undefined
    case _ => Undefined
  }

  /**
   * `${v}`: the string conversion of a template literal (`Array.prototype.join(",")`
   * for arrays, `Object.prototype.toString` for plain objects).
   */
  function TemplateString(v: JsValue): string
    decreases v
  {
    match v
    case Undefined => "undefined"
    case Null => "null"
    case Bool(b) => if b then "true" else "false"
    case Num(n) => DecimalString(n)
    case Str(s) => s
    case Arr(items) =>
      Join(seq(|items|, i requires 0 <= i < |items| =>
        if items[i].Null? || items[i].Undefined? then "" else TemplateString(items[i])))
    case Obj(_) => "[object Object]"
  }

  function Join(parts: seq<string>): string {
    if parts == [] then ""
    else if |parts| == 1 then parts[0]
    else parts[0] + "," + Join(parts[1..])
  }

  // ---------------------------------------------------------------------------
  // SQL values and rows
  // ---------------------------------------------------------------------------

  /** A column value of a stored row; dates are kept as ISO-8601 text. */
  datatype SqlValue =
    | SNull
    | SBool(b: bool)
    | SInt(i: int)
    | SReal(r: real)
    | SText(s: string)
    | STextArray(items: seq<string>)

  /** A row: the value of each column, keyed by its qualified name (`game.gameMode`). */
  type Record = map<string, SqlValue>

  function TextAt(r: Record, column: string): Option<string> {
    if column in r && r[column].SText? then Some(r[column].s) else None
  }

  // ---------------------------------------------------------------------------
  // Conditions, orderings and the builder state
  // ---------------------------------------------------------------------------

  datatype Direction = Asc | Desc

  datatype Ordering = Ordering(column: string, direction: Direction)

  /** The WHERE conditions the server adds; `param` names a bound parameter. */
  datatype Condition =
    | Between(column: string, low: string, high: string)   // column BETWEEN :low AND :high
    | AtLeast(column: string, param: string)               // column >= :param
    | AtMost(column: string, param: string)                // column <= :param
    | LikeParam(column: string, param: string)             // column LIKE :param
    | EqualsParam(column: string, param: string)           // column = :param
    | ArrayHas(column: string, param: string)              // column @> ARRAY[:param]
    | AnyLike(columns: seq<string>, param: string)         // (c1 LIKE :param OR c2 LIKE :param ...)
    | IsTrue(column: string)                               // column = true

  /** Everything a builder has accumulated. `orderBy` keeps one ordering: a later call replaces it. */
  datatype QueryState = QueryState(
    conditions: seq<Condition>,
    parameters: map<string, JsValue>,
    ordering: Option<Ordering>,
    limit: Option<int>,
    offset: Option<int>)

  function EmptyQuery(base: seq<Condition>): QueryState {
    QueryState(base, map[], None, None, None)
  }

  /** A TypeORM `SelectQueryBuilder`, reduced to the state the server changes. */
  class QueryBuilder {
    var conditions: seq<Condition>
    var parameters: map<string, JsValue>
    var ordering: Option<Ordering>
    var limit: Option<int>
    var offset: Option<int>

    function State(): QueryState
      reads this
    {
      QueryState(conditions, parameters, ordering, limit, offset)
    }

    /** `createQueryBuilder(...)` with the builder's fixed conditions already added. */
    constructor (base: seq<Condition>)
      ensures State() == EmptyQuery(base)
    {
      conditions, parameters, ordering, limit, offset := base, map[], None, None, None;
    }

    /** `andWhere(c)`: one more conjunct. */
    method AndWhere(c: Condition)
      modifies this
      ensures State() == old(State()).(conditions := old(conditions) + [c])
    {
      conditions := conditions + [c];
    }

    /** `setParameter(name, v)`: a later value for the same name overwrites the earlier one. */
    method SetParameter(name: string, v: JsValue)
      modifies this
      ensures State() == old(State()).(parameters := old(parameters)[name := v])
    {
      parameters := parameters[name := v];
    }

    /** `orderBy(column, direction)`: replaces any ordering set before. */
    method OrderBy(column: string, direction: Direction)
      modifies this
      ensures State() == old(State()).(ordering := Some(Ordering(column, direction)))
    {
      ordering := Some(Ordering(column, direction));
    }

    /** `limit(n)` / `take(n)` */
    method Limit(n: int)
      modifies this
      ensures State() == old(State()).(limit := Some(n))
    {
      limit := Some(n);
    }

    /** `offset(n)` / `skip(n)` */
    method Offset(n: int)
      modifies this
      ensures State() == old(State()).(offset := Some(n))
    {
      offset := Some(n);
    }
  }

  // ---------------------------------------------------------------------------
  // What the conditions select
  // ---------------------------------------------------------------------------

  function ParamText(params: map<string, JsValue>, p: string): Option<string> {
    if p in params && params[p].Str? then Some(params[p].s) else None
  }

  /** `column LIKE :param` for one column. */
  predicate LikeHolds(column: string, param: string, params: map<string, JsValue>, r: Record) {
    TextAt(r, column).Some? && ParamText(params, param).Some? &&
    Like(ParamText(params, param).value, TextAt(r, column).value)
  }

  /** PostgreSQL's verdict on one condition for row `r`, given the bound parameters. */
  predicate Holds(c: Condition, params: map<string, JsValue>, r: Record) {
    match c
    case Between(column, low, high) =>
      TextAt(r, column).Some? && ParamText(params, low).Some? && ParamText(params, high).Some? &&
      LexLe(ParamText(params, low).value, TextAt(r, column).value) &&
      LexLe(TextAt(r, column).value, ParamText(params, high).value)
    case AtLeast(column, param) =>
      TextAt(r, column).Some? && ParamText(params, param).Some? &&
      LexLe(ParamText(params, param).value, TextAt(r, column).value)
    case AtMost(column, param) =>
      TextAt(r, column).Some? && ParamText(params, param).Some? &&
      LexLe(TextAt(r, column).value, ParamText(params, param).value)
    case LikeParam(column, param) =>
      LikeHolds(column, param, params, r)
    case EqualsParam(column, param) =>
      column in r && r[column].SBool? && param in params && params[param] == Bool(r[column].b)
    case ArrayHas(column, param) =>
      column in r && r[column].STextArray? && ParamText(params, param).Some? &&
      ParamText(params, param).value in r[column].items
    case AnyLike(columns, param) =>
      exists i :: 0 <= i < |columns| && LikeHolds(columns[i], param, params, r)
    case IsTrue(column) =>
      column in r && r[column] == SBool(true)
  }

  /** The row passes every condition of the query. */
  predicate Selects(q: QueryState, r: Record) {
    forall i :: 0 <= i < |q.conditions| ==> Holds(q.conditions[i], q.parameters, r)
  }

  /** The parameter names a condition reads. */
  function Reads(c: Condition): set<string> {
    match c
    case Between(_, low, high) => {low, high}
    case AtLeast(_, p) => {p}
    case AtMost(_, p) => {p}
    case LikeParam(_, p) => {p}
    case EqualsParam(_, p) => {p}
    case ArrayHas(_, p) => {p}
    case AnyLike(_, p) => {p}
    case IsTrue(_) => {}
  }

  /** A condition's verdict depends on the parameters it reads and on nothing else bound. */
  lemma HoldsFrame(c: Condition, p1: map<string, JsValue>, p2: map<string, JsValue>, r: Record)
    requires forall n :: n in Reads(c) ==> (n in p1 <==> n in p2) && (n in p1 ==> p1[n] == p2[n])
    ensures Holds(c, p1, r) <==> Holds(c, p2, r)
  {
    match c
    case AnyLike(columns, p) =>
      assert forall i :: 0 <= i < |columns| ==>
        (LikeHolds(columns[i], p, p1, r) <==> LikeHolds(columns[i], p, p2, r));
    case _ =>
  }

  // ---------------------------------------------------------------------------
  // ORDER BY, OFFSET and LIMIT
  // ---------------------------------------------------------------------------

  /** Sort classes of values; NULL sorts after every other value, as in PostgreSQL. */
  function Rank(v: SqlValue): nat {
    match v
    case SBool(_) => 0
    case SInt(_) => 1
    case SReal(_) => 1
    case SText(_) => 2
    case STextArray(_) => 3
    case SNull => 4
  }

  function Numeric(v: SqlValue): real
    requires v.SInt? || v.SReal?
  {
    if v.SInt? then v.i as real else v.r
  }

  /** The ascending order PostgreSQL uses for a column (text in code-unit order). */
  predicate SqlLe(a: SqlValue, b: SqlValue) {
    if Rank(a) != Rank(b) then Rank(a) < Rank(b)
    else match a
      case SBool(x) => !x || b.b
      case SInt(_) => Numeric(a) <= Numeric(b)
      case SReal(_) => Numeric(a) <= Numeric(b)
      case SText(s) => LexLe(s, b.s)
      case STextArray(_) => true
      case SNull => true
  }

  lemma SqlLeTotal(a: SqlValue, b: SqlValue)
    ensures SqlLe(a, b) || SqlLe(b, a)
  {
    if a.SText? && b.SText? { LexLeTotal(a.s, b.s); }
  }

  lemma SqlLeTransitive(a: SqlValue, b: SqlValue, c: SqlValue)
    requires SqlLe(a, b) && SqlLe(b, c)
    ensures SqlLe(a, c)
  {
    if a.SText? && b.SText? && c.SText? { LexLeTransitive(a.s, b.s, c.s); }
  }

  predicate InOrder(dir: Direction, a: SqlValue, b: SqlValue) {
    if dir == Asc then SqlLe(a, b) else SqlLe(b, a)
  }

  /** `xs` is ordered by `key` in direction `dir`. */
  ghost predicate SortedBy<T>(xs: seq<T>, key: T -> SqlValue, dir: Direction) {
    forall i, j :: 0 <= i < j < |xs| ==> InOrder(dir, key(xs[i]), key(xs[j]))
  }

  /** Places `x` before the first element it may precede, after all it may not. */
  function InsertBy<T>(x: T, s: seq<T>, key: T -> SqlValue, dir: Direction): (r: seq<T>)
    requires SortedBy(s, key, dir)
    ensures multiset(r) == multiset(s) + multiset{x}
    ensures SortedBy(r, key, dir)
  {
    if s == [] then [x]
    else if InOrder(dir, key(x), key(s[0])) then
      InsertFront(x, s, key, dir);
      [x] + s
    else
      var rest := InsertBy(x, s[1..], key, dir);
      InsertBehind(x, s, rest, key, dir);
      [s[0]] + rest
  }

  /** An element that may precede the head of a sorted sequence may precede all of it. */
  lemma InsertFront<T>(x: T, s: seq<T>, key: T -> SqlValue, dir: Direction)
    requires SortedBy(s, key, dir) && s != [] && InOrder(dir, key(x), key(s[0]))
    ensures SortedBy([x] + s, key, dir)
  {
    forall j | 0 <= j < |s| ensures InOrder(dir, key(x), key(s[j])) {
      if j > 0 {
        if dir == Asc { SqlLeTransitive(key(x), key(s[0]), key(s[j])); }
        else { SqlLeTransitive(key(s[j]), key(s[0]), key(x)); }
      }
    }
  }

  /** The head of a sorted sequence may precede `x` and its tail, so it may precede their merge. */
  lemma InsertBehind<T>(x: T, s: seq<T>, rest: seq<T>, key: T -> SqlValue, dir: Direction)
    requires SortedBy(s, key, dir) && s != [] && !InOrder(dir, key(x), key(s[0]))
    requires multiset(rest) == multiset(s[1..]) + multiset{x} && SortedBy(rest, key, dir)
    ensures multiset([s[0]] + rest) == multiset(s) + multiset{x}
    ensures SortedBy([s[0]] + rest, key, dir)
  {
    assert InOrder(dir, key(s[0]), key(x)) by { SqlLeTotal(key(x), key(s[0])); }
    assert s == [s[0]] + s[1..];
    forall k | 0 <= k < |rest| ensures InOrder(dir, key(s[0]), key(rest[k])) {
      var y := rest[k];
      assert y in multiset(rest);
      if y != x {
        assert y in multiset(s[1..]);
        var j :| 0 <= j < |s[1..]| && s[1..][j] == y;
        assert s[j + 1] == y;
      }
    }
    var r := [s[0]] + rest;
    forall a, b | 0 <= a < b < |r| ensures InOrder(dir, key(r[a]), key(r[b])) {
      if a > 0 { assert r[a] == rest[a - 1] && r[b] == rest[b - 1]; }
      else { assert r[b] == rest[b - 1]; }
    }
  }

  /** ORDER BY `key` in direction `dir`: a sorted permutation (ties keep their stored order). */
  function SortBy<T>(xs: seq<T>, key: T -> SqlValue, dir: Direction): (r: seq<T>)
    ensures multiset(r) == multiset(xs)
    ensures SortedBy(r, key, dir)
  {
    if xs == [] then []
    else
      assert xs == [xs[0]] + xs[1..];
      InsertBy(xs[0], SortBy(xs[1..], key, dir), key, dir)
  }

  /** OFFSET `skip` LIMIT `take`. */
  function Page<T>(xs: seq<T>, skip: nat, take: nat): (r: seq<T>)
    ensures |r| <= take
    ensures skip <= |xs| ==> r == xs[skip..if skip + take <= |xs| then skip + take else |xs|]
    ensures skip >= |xs| ==> r == []
  {
    if skip >= |xs| then [] else xs[skip..if skip + take <= |xs| then skip + take else |xs|]
  }

  /** A page holds only elements of the sequence it was cut from. */
  lemma PageWithin<T>(xs: seq<T>, skip: nat, take: nat)
    ensures forall x :: x in Page(xs, skip, take) ==> x in xs
  {
    if skip < |xs| {
      var end := if skip + take <= |xs| then skip + take else |xs|;
      forall x | x in Page(xs, skip, take) ensures x in xs {
        var k :| 0 <= k < |xs[skip..end]| && xs[skip..end][k] == x;
        assert xs[skip + k] == x;
      }
    }
  }

  // ---------------------------------------------------------------------------
  // Errors a handler rejects with
  // ---------------------------------------------------------------------------

  /** The error a JavaScript `TypeError` rejects the handler with. */
  const TypeError: string := "TypeError"

  /** The errors PostgreSQL raises for a negative OFFSET or LIMIT. */
  const NegativeOffset: string := "OFFSET must not be negative"
  const NegativeLimit: string := "LIMIT must not be negative"

  /**
   * The error running `q` raises over its paging: PostgreSQL evaluates OFFSET
   * before LIMIT, so a negative OFFSET is the one reported when both are.
   */
  function PagingError(q: QueryState): (e: Option<string>)
    ensures e.None? <==> (q.offset.None? || q.offset.value >= 0) && (q.limit.None? || q.limit.value >= 0)
    ensures q.offset.Some? && q.offset.value < 0 ==> e == Some(NegativeOffset)
    ensures e.Some? && e != Some(NegativeOffset) ==> e == Some(NegativeLimit)
  {
    if q.offset.Some? && q.offset.value < 0 then Some(NegativeOffset)
    else if q.limit.Some? && q.limit.value < 0 then Some(NegativeLimit)
    else None
  }
}
