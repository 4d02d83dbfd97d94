/**
 * The filter/sort compiler of server/src/helpers/filter.ts: request helpers
 * `getQueryInt` / `getQueryString`, and `filterQueryFromRequest`, which walks
 * decoded `{id, value}` filter descriptors against a registry of
 * `{name, type, alias}` columns and `{id, desc}` sort descriptors against a
 * sort registry, adding conditions, parameters and an ordering to a query
 * builder.
 *
 * The method is specified by spec functions that fold one step per
 * (descriptor, column) pair in loop order; the lemmas state what the folds
 * compute.
 */
module Filter {

  import opened Wrappers
  import opened Text
  import opened Query

  // ---------------------------------------------------------------------------
  // Registries, descriptors and requests
  // ---------------------------------------------------------------------------

  datatype ColumnType = DateColumn | EnumColumn | BooleanColumn | StringColumn | ArrayColumn

  /** `{ name, type, alias }`: a filter the client may name, and the column it constrains. */
  datatype FilterColumn = FilterColumn(name: string, kind: ColumnType, alias: string)

  /** `{ name, alias }`: a sort key the client may name, and the column or output it orders by. */
  datatype SortColumn = SortColumn(name: string, alias: string)

  /** `{ id, value }` as JSON.parse returns it. */
  datatype FilterDescriptor = FilterDescriptor(id: string, value: JsValue)

  /** `{ id, desc }` as JSON.parse returns it. */
  datatype SortDescriptor = SortDescriptor(id: string, desc: JsValue)

  /** A query-string value as Express decodes it: a string, a repeated key, or a nested object. */
  datatype QueryParam = QString(s: string) | QList(items: seq<string>) | QObject

  /**
   * An incoming request: its query-string values, and the decoded `filters`
   * and `sorting` lists (`None` when the parameter is absent or decodes to a
   * falsy value).
   */
  datatype Request = Request(
    query: map<string, QueryParam>,
    filters: Option<seq<FilterDescriptor>>,
    sorting: Option<seq<SortDescriptor>>)

  /** `(req.query.filters && JSON.parse(...)) || []` */
  function Filters(req: Request): (fs: seq<FilterDescriptor>)
    ensures req.filters.None? ==> fs == []
  {
    req.filters.GetOr([])
  }

  /** `(req.query.sorting && JSON.parse(...)) || []` */
  function Sorting(req: Request): (ss: seq<SortDescriptor>)
    ensures req.sorting.None? ==> ss == []
  {
    req.sorting.GetOr([])
  }

  // ---------------------------------------------------------------------------
  // getQueryString / getQueryInt
  // ---------------------------------------------------------------------------

  /** `(typeof req.query[key] === "string" && req.query[key]) || defaultValue` */
  function GetQueryString(query: map<string, QueryParam>, key: string, default: string): string {
    if key in query && query[key].QString? && query[key].s != "" then query[key].s else default
  }

  /** `(typeof req.query[key] === "string" && parseInt(req.query[key])) || defaultValue` */
  function GetQueryInt(query: map<string, QueryParam>, key: string, default: int): int {
    if key in query && query[key].QString? then
      match ParseInt(query[key].s)
      case Some(n) => if n != 0 then n else default
      case None => default
    else default
  }

  /** The string helper falls back exactly when the key is missing, not a string, or empty. */
  lemma GetQueryStringSpec(query: map<string, QueryParam>, key: string, default: string)
    ensures var r := GetQueryString(query, key, default);
      (key in query && query[key] == QString(r) && r != "") ||
      (r == default && !(key in query && query[key].QString? && query[key].s != ""))
  {
  }

  /**
   * The integer helper returns either the default or a non-zero integer that
   * parseInt read from a string value; it returns that integer whenever
   * parseInt reads one that is not zero, and falls back on a missing key, a
   * value that is not a string, 0 and NaN.
   */
  lemma GetQueryIntSpec(query: map<string, QueryParam>, key: string, default: int)
    ensures var r := GetQueryInt(query, key, default);
      r == default || (key in query && query[key].QString? && ParseInt(query[key].s) == Some(r) && r != 0)
    ensures key !in query || !query[key].QString? ==> GetQueryInt(query, key, default) == default
    ensures key in query && query[key].QString? ==>
      var parsed := ParseInt(query[key].s);
      (parsed.Some? && parsed.value != 0 ==> GetQueryInt(query, key, default) == parsed.value) &&
      (parsed == None || parsed == Some(0) ==> GetQueryInt(query, key, default) == default)
  {
  }

  /** A value written as a decimal integer is read back, unless it is zero. */
  lemma GetQueryIntReadsDecimal(query: map<string, QueryParam>, key: string, n: int, default: int)
    ensures GetQueryInt(query[key := QString(DecimalString(n))], key, default) == if n != 0 then n else default
  {
    ParseIntDecimalString(n);
  }

  /** `?take=0` and `?take=abc` both give the default page size. */
  lemma GetQueryIntZeroAndNaN(query: map<string, QueryParam>, key: string, default: int)
    ensures GetQueryInt(query[key := QString("0")], key, default) == default
    ensures GetQueryInt(query[key := QString("abc")], key, default) == default
  {
    GetQueryIntReadsDecimal(query, key, 0, default);
    ParseIntNoDigits();
  }

  /** `if (req.query[key])`: strings are truthy when non-empty; arrays and objects always are. */
  predicate QueryTruthy(query: map<string, QueryParam>, key: string) {
    key in query && (query[key].QString? ==> query[key].s != "")
  }

  /** `${req.query[key]}` for a present key: arrays join with `,`. */
  function QueryText(v: QueryParam): string {
    match v
    case QString(s) => s
    case QList(items) => Join(items)
    case QObject => "[object Object]"
  }

  // ---------------------------------------------------------------------------
  // One step of the filter loop
  // ---------------------------------------------------------------------------

  const StartParam: string := "start"
  const EndParam: string := "end"
  const LadderId: string := "ladder"
  const PublicLadder: string := "public"

  /** The builder state and the `isPublicLadder` flag; `threw` records a TypeError. */
  datatype Compiled = Compiled(query: QueryState, isPublicLadder: bool, threw: bool)

  function AddCondition(q: QueryState, c: Condition): QueryState {
    q.(conditions := q.conditions + [c])
  }

  function Bind(q: QueryState, name: string, v: JsValue): QueryState {
    q.(parameters := q.parameters[name := v])
  }

  /** `%` + value with its first space replaced by `_`, upper-cased, + `%`. */
  function EnumPattern(s: string): string {
    "%" + ToUpper(ReplaceFirst(s, ' ', '_')) + "%"
  }

  /** The body of the inner filter loop for one descriptor and one registered column. */
  function ApplyFilter(st: Compiled, f: FilterDescriptor, c: FilterColumn): Compiled {
    if st.threw || f.id != c.name || !Truthy(f.value) then st
    else match c.kind
      case DateColumn =>
        var low, high := Index(f.value, 0), Index(f.value, 1);
        if Truthy(low) && Truthy(high) then
          st.(query := Bind(Bind(AddCondition(st.query, Between(c.alias, StartParam, EndParam)), StartParam, low), EndParam, high))
        else if Truthy(low) then
          st.(query := Bind(AddCondition(st.query, AtLeast(c.alias, StartParam)), StartParam, low))
        else if Truthy(high) then
          st.(query := Bind(AddCondition(st.query, AtMost(c.alias, EndParam)), EndParam, high))
        else st
      case EnumColumn =>
        // andWhere runs before the argument `value.replace(...)` is evaluated
        var q := AddCondition(st.query, LikeParam(c.alias, f.id));
        if f.value.Str? then st.(query := Bind(q, f.id, Str(EnumPattern(f.value.s))))
        else st.(query := q, threw := true)
      case BooleanColumn =>
        st.(query := Bind(AddCondition(st.query, EqualsParam(c.alias, f.id)), f.id, Bool(f.value == Str("true"))))
      case StringColumn =>
        st.(query := Bind(AddCondition(st.query, LikeParam(c.alias, f.id)), f.id, Str("%" + TemplateString(f.value) + "%")))
      case ArrayColumn =>
        if f.id == LadderId && f.value == Str(PublicLadder) then st.(isPublicLadder := true)
        else
          var q := AddCondition(st.query, ArrayHas(c.alias, f.id));
          if f.value.Str? then st.(query := Bind(q, f.id, Str(ToLower(f.value.s))))
          else st.(query := q, threw := true)
  }

  /** The inner loop: one descriptor against every registered column, in order. */
  function ApplyColumns(st: Compiled, f: FilterDescriptor, cols: seq<FilterColumn>): Compiled
    decreases |cols|
  {
    if cols == [] then st else ApplyFilter(ApplyColumns(st, f, cols[..|cols| - 1]), f, cols[|cols| - 1])
  }

  /** The outer loop: every descriptor, in order. */
  function CompileFilters(st: Compiled, fs: seq<FilterDescriptor>, cols: seq<FilterColumn>): Compiled
    decreases |fs|
  {
    if fs == [] then st else ApplyColumns(CompileFilters(st, fs[..|fs| - 1], cols), fs[|fs| - 1], cols)
  }

  // ---------------------------------------------------------------------------
  // The sort loop
  // ---------------------------------------------------------------------------

  datatype SortState = SortState(ordering: Option<Ordering>, hasSorting: bool)

  function DirectionOf(desc: JsValue): Direction {
    if Truthy(desc) then Desc else Asc
  }

  /** The body of the inner sort loop: a match replaces the ordering. */
  function ApplySort(st: SortState, s: SortDescriptor, c: SortColumn): SortState {
    if s.id == c.name then SortState(Some(Ordering(c.alias, DirectionOf(s.desc))), true) else st
  }

  function SortColumns(st: SortState, s: SortDescriptor, cols: seq<SortColumn>): SortState
    decreases |cols|
  {
    if cols == [] then st else ApplySort(SortColumns(st, s, cols[..|cols| - 1]), s, cols[|cols| - 1])
  }

  function CompileSorting(st: SortState, ss: seq<SortDescriptor>, cols: seq<SortColumn>): SortState
    decreases |ss|
  {
    if ss == [] then st else SortColumns(CompileSorting(st, ss[..|ss| - 1], cols), ss[|ss| - 1], cols)
  }

  // ---------------------------------------------------------------------------
  // filterQueryFromRequest
  // ---------------------------------------------------------------------------

  /** What the call returns: the pair `[hasSorting, isPublicLadder]`, or a thrown TypeError. */
  datatype Outcome = Returned(hasSorting: bool, isPublicLadder: bool) | Threw

  /**
   * The returned pair as the caller sees it: a two-element array, which is
   * truthy whatever its flags, so a caller's `if (!filterQueryFromRequest(...))`
   * fallback never runs.
   */
  function ReturnValue(o: Outcome): (v: JsValue)
    requires o.Returned?
    ensures Truthy(v)
    ensures Index(v, 0) == Bool(o.hasSorting) && Index(v, 1) == Bool(o.isPublicLadder)
  {
    Arr([Bool(o.hasSorting), Bool(o.isPublicLadder)])
  }

  /** `if (!result) query.orderBy(fallback)`, on the builder's state. */
  function OrderUnless(q: QueryState, result: JsValue, fallback: Ordering): QueryState {
    if Truthy(result) then q else q.(ordering := Some(fallback))
  }

  /** A caller's fallback ordering, applied only when the filter call's result is falsy. */
  method OrderByUnless(query: QueryBuilder, result: JsValue, fallback: Ordering)
    modifies query
    ensures query.State() == OrderUnless(old(query.State()), result, fallback)
  {
    if !Truthy(result) {
      query.OrderBy(fallback.column, fallback.direction);
    }
  }

  datatype Run = Run(query: QueryState, outcome: Outcome)

  /** The whole call on a builder in state `q`. */
  function CompileRequest(q: QueryState, req: Request, fcols: seq<FilterColumn>, scols: seq<SortColumn>): Run {
    var c := CompileFilters(Compiled(q, false, false), Filters(req), fcols);
    if c.threw then Run(c.query, Threw)
    else
      var s := CompileSorting(SortState(c.query.ordering, false), Sorting(req), scols);
      Run(c.query.(ordering := s.ordering), Returned(s.hasSorting, c.isPublicLadder))
  }

  lemma ThrewSticksColumns(st: Compiled, f: FilterDescriptor, cols: seq<FilterColumn>)
    requires st.threw
    ensures ApplyColumns(st, f, cols) == st
    decreases |cols|
  {
    if cols != [] { ThrewSticksColumns(st, f, cols[..|cols| - 1]); }
  }

  lemma ThrewSticksFilters(st: Compiled, fs: seq<FilterDescriptor>, cols: seq<FilterColumn>)
    requires st.threw
    ensures CompileFilters(st, fs, cols) == st
    decreases |fs|
  {
    if fs != [] {
      ThrewSticksFilters(st, fs[..|fs| - 1], cols);
      ThrewSticksColumns(st, fs[|fs| - 1], cols);
    }
  }

  /** Once a column step throws, the rest of the inner loop changes nothing. */
  lemma {:induction false} ThrewPrefixColumns(st: Compiled, f: FilterDescriptor, cols: seq<FilterColumn>, k: nat)
    requires k <= |cols| && ApplyColumns(st, f, cols[..k]).threw
    ensures ApplyColumns(st, f, cols) == ApplyColumns(st, f, cols[..k])
    decreases |cols|
  {
    if k < |cols| {
      assert cols[..|cols| - 1][..k] == cols[..k];
      ThrewPrefixColumns(st, f, cols[..|cols| - 1], k);
    } else {
      assert cols[..k] == cols;
    }
  }

  /** Once a descriptor throws, the rest of the outer loop changes nothing. */
  lemma {:induction false} ThrewPrefixFilters(st: Compiled, fs: seq<FilterDescriptor>, cols: seq<FilterColumn>, k: nat)
    requires k <= |fs| && CompileFilters(st, fs[..k], cols).threw
    ensures CompileFilters(st, fs, cols) == CompileFilters(st, fs[..k], cols)
    decreases |fs|
  {
    if k < |fs| {
      assert fs[..|fs| - 1][..k] == fs[..k];
      ThrewPrefixFilters(st, fs[..|fs| - 1], cols, k);
      ThrewSticksColumns(CompileFilters(st, fs[..k], cols), fs[|fs| - 1], cols);
    } else {
      assert fs[..k] == fs;
    }
  }

  /**
   * The body of the inner filter loop: descriptor `requestFilter` against
   * column `filterColumn`, reporting whether a non-string value made the
   * call throw.
   */
  method ApplyFilterColumn(query: QueryBuilder, isPublicLadder: bool, requestFilter: FilterDescriptor, filterColumn: FilterColumn)
    returns (isPublic: bool, threw: bool)
    modifies query
    ensures Compiled(query.State(), isPublic, threw) ==
      ApplyFilter(Compiled(old(query.State()), isPublicLadder, false), requestFilter, filterColumn)
  {
    isPublic, threw := isPublicLadder, false;
    if requestFilter.id != filterColumn.name || !Truthy(requestFilter.value) {
      return;
    }
    match filterColumn.kind {
      case DateColumn =>
        var low, high := Index(requestFilter.value, 0), Index(requestFilter.value, 1);
        if Truthy(low) && Truthy(high) {
          query.AndWhere(Between(filterColumn.alias, StartParam, EndParam));
          query.SetParameter(StartParam, low);
          query.SetParameter(EndParam, high);
        } else if Truthy(low) {
          query.AndWhere(AtLeast(filterColumn.alias, StartParam));
          query.SetParameter(StartParam, low);
        } else if Truthy(high) {
          query.AndWhere(AtMost(filterColumn.alias, EndParam));
          query.SetParameter(EndParam, high);
        }
      case EnumColumn =>
        query.AndWhere(LikeParam(filterColumn.alias, requestFilter.id));
        if !requestFilter.value.Str? {
          // `value.replace` is not a function
          return isPublic, true;
        }
        query.SetParameter(requestFilter.id, Str(EnumPattern(requestFilter.value.s)));
      case BooleanColumn =>
        query.AndWhere(EqualsParam(filterColumn.alias, requestFilter.id));
        query.SetParameter(requestFilter.id, Bool(requestFilter.value == Str("true")));
      case StringColumn =>
        query.AndWhere(LikeParam(filterColumn.alias, requestFilter.id));
        query.SetParameter(requestFilter.id, Str("%" + TemplateString(requestFilter.value) + "%"));
      case ArrayColumn =>
        if requestFilter.id == LadderId && requestFilter.value == Str(PublicLadder) {
          return true, false;
        }
        query.AndWhere(ArrayHas(filterColumn.alias, requestFilter.id));
        if !requestFilter.value.Str? {
          // `value.toLowerCase` is not a function
          return isPublic, true;
        }
        query.SetParameter(requestFilter.id, Str(ToLower(requestFilter.value.s)));
    }
  }

  /**
   * `filterQueryFromRequest(req, { query, filterColumns, sortColumns })`:
   * nested loops that add AND-ed conditions and named parameters to the
   * builder, then set the ordering from the last matching sort descriptor.
   */
  method FilterQueryFromRequest(req: Request, query: QueryBuilder,
                                filterColumns: seq<FilterColumn>, sortColumns: seq<SortColumn>)
    returns (outcome: Outcome)
    modifies query
    ensures query.State() == CompileRequest(old(query.State()), req, filterColumns, sortColumns).query
    ensures outcome == CompileRequest(old(query.State()), req, filterColumns, sortColumns).outcome
  {
    var filters := Filters(req);
    var sorting := Sorting(req);
    ghost var start := Compiled(query.State(), false, false);
    var isPublicLadder := false;
    for i := 0 to |filters|
      invariant CompileFilters(start, filters[..i], filterColumns) == Compiled(query.State(), isPublicLadder, false)
    {
      var requestFilter := filters[i];
      ghost var before := CompileFilters(start, filters[..i], filterColumns);
      for j := 0 to |filterColumns|
        invariant ApplyColumns(before, requestFilter, filterColumns[..j]) == Compiled(query.State(), isPublicLadder, false)
      {
        var filterColumn := filterColumns[j];
        assert filterColumns[..j + 1][..j] == filterColumns[..j];
        var threw;
        isPublicLadder, threw := ApplyFilterColumn(query, isPublicLadder, requestFilter, filterColumn);
        if threw {
          ThrewPrefixColumns(before, requestFilter, filterColumns, j + 1);
          assert filters[..i + 1][..i] == filters[..i];
          ThrewPrefixFilters(start, filters, filterColumns, i + 1);
          return Threw;
        }
      }
      assert filterColumns[..|filterColumns|] == filterColumns;
      assert filters[..i + 1][..i] == filters[..i];
    }
    assert filters[..|filters|] == filters;
    var hasSorting := false;
    ghost var sortStart := SortState(query.ordering, false);
    for i := 0 to |sorting|
      invariant CompileSorting(sortStart, sorting[..i], sortColumns) == SortState(query.ordering, hasSorting)
      invariant query.State() == CompileFilters(start, filters, filterColumns).query.(ordering := query.ordering)
    {
      var sort := sorting[i];
      ghost var before := CompileSorting(sortStart, sorting[..i], sortColumns);
      for j := 0 to |sortColumns|
        invariant SortColumns(before, sort, sortColumns[..j]) == SortState(query.ordering, hasSorting)
        invariant query.State() == CompileFilters(start, filters, filterColumns).query.(ordering := query.ordering)
      {
        var sortColumn := sortColumns[j];
        assert sortColumns[..j + 1][..j] == sortColumns[..j];
        if sort.id == sortColumn.name {
          query.OrderBy(sortColumn.alias, if Truthy(sort.desc) then Desc else Asc);
          hasSorting := true;
        }
      }
      assert sortColumns[..|sortColumns|] == sortColumns;
      assert sorting[..i + 1][..i] == sorting[..i];
    }
    assert sorting[..|sorting|] == sorting;
    return Returned(hasSorting, isPublicLadder);
  }

  // ---------------------------------------------------------------------------
  // Which descriptors matter
  // ---------------------------------------------------------------------------

  /** The descriptor names a registered column and carries a truthy value. */
  predicate Relevant(f: FilterDescriptor, cols: seq<FilterColumn>) {
    Truthy(f.value) && exists j :: 0 <= j < |cols| && cols[j].name == f.id
  }

  /** A descriptor that names no registered column, or whose value is falsy, leaves the state alone. */
  lemma {:induction false} IrrelevantDescriptorIgnored(st: Compiled, f: FilterDescriptor, cols: seq<FilterColumn>)
    requires !Relevant(f, cols)
    ensures ApplyColumns(st, f, cols) == st
    decreases |cols|
  {
    if cols != [] {
      var init := cols[..|cols| - 1];
      forall j | 0 <= j < |init| ensures init[j] == cols[j] { }
      IrrelevantDescriptorIgnored(st, f, init);
    }
  }

  /** The descriptors that are relevant, in request order. */
  function KeepRelevant(fs: seq<FilterDescriptor>, cols: seq<FilterColumn>): (r: seq<FilterDescriptor>)
    ensures forall f :: f in r <==> f in fs && Relevant(f, cols)
    decreases |fs|
  {
    if fs == [] then []
    else
      assert fs == fs[..|fs| - 1] + [fs[|fs| - 1]];
      KeepRelevant(fs[..|fs| - 1], cols) + if Relevant(fs[|fs| - 1], cols) then [fs[|fs| - 1]] else []
  }

  /** Compiling a request is compiling only its relevant descriptors. */
  lemma {:induction false} OnlyRelevantDescriptorsCount(st: Compiled, fs: seq<FilterDescriptor>, cols: seq<FilterColumn>)
    ensures CompileFilters(st, fs, cols) == CompileFilters(st, KeepRelevant(fs, cols), cols)
    decreases |fs|
  {
    if fs != [] {
      var init, last := fs[..|fs| - 1], fs[|fs| - 1];
      var kept := KeepRelevant(init, cols);
      OnlyRelevantDescriptorsCount(st, init, cols);
      if Relevant(last, cols) {
        assert (kept + [last])[..|kept + [last]| - 1] == kept;
      } else {
        assert KeepRelevant(fs, cols) == kept;
        IrrelevantDescriptorIgnored(CompileFilters(st, init, cols), last, cols);
      }
    }
  }

  // ---------------------------------------------------------------------------
  // The public-ladder flag
  // ---------------------------------------------------------------------------

  /** `{ id: "ladder", value: "public" }` */
  predicate IsPublicSentinel(f: FilterDescriptor) {
    f.id == LadderId && f.value == Str(PublicLadder)
  }

  /** The registry has an array column named `ladder`. */
  predicate HasLadderArray(cols: seq<FilterColumn>) {
    exists j :: 0 <= j < |cols| && cols[j].name == LadderId && cols[j].kind == ArrayColumn
  }

  lemma {:induction false} PublicFlagColumns(st: Compiled, f: FilterDescriptor, cols: seq<FilterColumn>)
    requires !ApplyColumns(st, f, cols).threw
    ensures !st.threw
    ensures ApplyColumns(st, f, cols).isPublicLadder <==> st.isPublicLadder || (IsPublicSentinel(f) && HasLadderArray(cols))
    decreases |cols|
  {
    if cols != [] {
      var init := cols[..|cols| - 1];
      forall j | 0 <= j < |init| ensures init[j] == cols[j] { }
      PublicFlagColumns(st, f, init);
      var c := cols[|cols| - 1];
      PublicFlagStep(ApplyColumns(st, f, init), f, c);
      if IsPublicSentinel(f) && c.name == LadderId && c.kind == ArrayColumn {
        assert HasLadderArray(cols);
      } else if IsPublicSentinel(f) && HasLadderArray(cols) {
        var j :| 0 <= j < |cols| && cols[j].name == LadderId && cols[j].kind == ArrayColumn;
        assert j < |init|;
      }
    }
  }

  /** One step sets the flag exactly for the sentinel against the `ladder` array column. */
  lemma PublicFlagStep(st: Compiled, f: FilterDescriptor, c: FilterColumn)
    requires !ApplyFilter(st, f, c).threw
    ensures !st.threw
    ensures ApplyFilter(st, f, c).isPublicLadder <==>
      st.isPublicLadder || (IsPublicSentinel(f) && c.name == LadderId && c.kind == ArrayColumn)
  {
  }

  /**
   * Without a thrown TypeError, the second returned flag is set exactly when
   * some descriptor is `{ ladder, "public" }` and the registry has an array
   * column named `ladder`.
   */
  lemma {:induction false} PublicFlagFilters(st: Compiled, fs: seq<FilterDescriptor>, cols: seq<FilterColumn>)
    requires !CompileFilters(st, fs, cols).threw
    ensures !st.threw
    ensures CompileFilters(st, fs, cols).isPublicLadder <==>
      st.isPublicLadder || (HasLadderArray(cols) && exists i :: 0 <= i < |fs| && IsPublicSentinel(fs[i]))
    decreases |fs|
  {
    if fs != [] {
      var init := fs[..|fs| - 1];
      forall i | 0 <= i < |init| ensures init[i] == fs[i] { }
      PublicFlagColumns(CompileFilters(st, init, cols), fs[|fs| - 1], cols);
      PublicFlagFilters(st, init, cols);
      if HasLadderArray(cols) && (exists i :: 0 <= i < |fs| && IsPublicSentinel(fs[i])) && !IsPublicSentinel(fs[|fs| - 1]) {
        var i :| 0 <= i < |fs| && IsPublicSentinel(fs[i]);
        assert i < |init|;
      }
    }
  }

  /**
   * The sentinel adds no condition and binds no parameter when every column
   * named `ladder` is an array column.
   */
  lemma {:induction false} SentinelLeavesQuery(st: Compiled, f: FilterDescriptor, cols: seq<FilterColumn>)
    requires IsPublicSentinel(f)
    requires forall j :: 0 <= j < |cols| && cols[j].name == LadderId ==> cols[j].kind == ArrayColumn
    ensures ApplyColumns(st, f, cols).query == st.query
    ensures ApplyColumns(st, f, cols).threw == st.threw
    decreases |cols|
  {
    if cols != [] {
      var init := cols[..|cols| - 1];
      forall j | 0 <= j < |init| ensures init[j] == cols[j] { }
      SentinelLeavesQuery(st, f, init);
    }
  }

  /** Whether a TypeError is thrown depends on the descriptors and the registry, not on the builder. */
  lemma {:induction false} ThrowsIndependentOfQuery(q1: QueryState, q2: QueryState, fs: seq<FilterDescriptor>, cols: seq<FilterColumn>)
    ensures CompileFilters(Compiled(q1, false, false), fs, cols).threw == CompileFilters(Compiled(q2, false, false), fs, cols).threw
    ensures CompileFilters(Compiled(q1, false, false), fs, cols).isPublicLadder == CompileFilters(Compiled(q2, false, false), fs, cols).isPublicLadder
  {
    ThrowsIndependentFilters(Compiled(q1, false, false), Compiled(q2, false, false), fs, cols);
  }

  lemma {:induction false} ThrowsIndependentColumns(s1: Compiled, s2: Compiled, f: FilterDescriptor, cols: seq<FilterColumn>)
    requires s1.threw == s2.threw && s1.isPublicLadder == s2.isPublicLadder
    ensures ApplyColumns(s1, f, cols).threw == ApplyColumns(s2, f, cols).threw
    ensures ApplyColumns(s1, f, cols).isPublicLadder == ApplyColumns(s2, f, cols).isPublicLadder
    decreases |cols|
  {
    if cols != [] { ThrowsIndependentColumns(s1, s2, f, cols[..|cols| - 1]); }
  }

  lemma {:induction false} ThrowsIndependentFilters(s1: Compiled, s2: Compiled, fs: seq<FilterDescriptor>, cols: seq<FilterColumn>)
    requires s1.threw == s2.threw && s1.isPublicLadder == s2.isPublicLadder
    ensures CompileFilters(s1, fs, cols).threw == CompileFilters(s2, fs, cols).threw
    ensures CompileFilters(s1, fs, cols).isPublicLadder == CompileFilters(s2, fs, cols).isPublicLadder
    decreases |fs|
  {
    if fs != [] {
      ThrowsIndependentFilters(s1, s2, fs[..|fs| - 1], cols);
      ThrowsIndependentColumns(CompileFilters(s1, fs[..|fs| - 1], cols), CompileFilters(s2, fs[..|fs| - 1], cols), fs[|fs| - 1], cols);
    }
  }

  /** A TypeError needs a relevant enum or array descriptor whose value is not a string. */
  lemma {:induction false} ThrowNeedsNonString(st: Compiled, fs: seq<FilterDescriptor>, cols: seq<FilterColumn>)
    requires !st.threw
    requires forall i :: 0 <= i < |fs| ==> fs[i].value.Str? || !Relevant(fs[i], cols)
    ensures !CompileFilters(st, fs, cols).threw
    decreases |fs|
  {
    if fs != [] {
      var init, last := fs[..|fs| - 1], fs[|fs| - 1];
      forall i | 0 <= i < |init| ensures init[i] == fs[i] { }
      ThrowNeedsNonString(st, init, cols);
      if last.value.Str? {
        StringValueNeverThrows(CompileFilters(st, init, cols), last, cols);
      } else {
        IrrelevantDescriptorIgnored(CompileFilters(st, init, cols), last, cols);
      }
    }
  }

  lemma {:induction false} StringValueNeverThrows(st: Compiled, f: FilterDescriptor, cols: seq<FilterColumn>)
    requires !st.threw && f.value.Str?
    ensures !ApplyColumns(st, f, cols).threw
    decreases |cols|
  {
    if cols != [] { StringValueNeverThrows(st, f, cols[..|cols| - 1]); }
  }

  // ---------------------------------------------------------------------------
  // What the sort loop computes
  // ---------------------------------------------------------------------------

  /** Sort descriptor `i` names sort column `j`. */
  predicate SortMatch(ss: seq<SortDescriptor>, cols: seq<SortColumn>, i: int, j: int) {
    0 <= i < |ss| && 0 <= j < |cols| && ss[i].id == cols[j].name
  }

  /** `(i, j)` is the last matching pair in loop order. */
  ghost predicate LastSortMatch(ss: seq<SortDescriptor>, cols: seq<SortColumn>, i: int, j: int) {
    SortMatch(ss, cols, i, j) &&
    forall i', j' :: SortMatch(ss, cols, i', j') ==> i' < i || (i' == i && j' <= j)
  }

  lemma {:induction false} SortColumnsSpec(st: SortState, s: SortDescriptor, cols: seq<SortColumn>)
    ensures var r := SortColumns(st, s, cols);
      (r.hasSorting <==> st.hasSorting || exists j :: 0 <= j < |cols| && s.id == cols[j].name) &&
      ((forall j :: 0 <= j < |cols| ==> s.id != cols[j].name) ==> r == st) &&
      ((exists j :: 0 <= j < |cols| && s.id == cols[j].name) ==>
        exists j :: 0 <= j < |cols| && s.id == cols[j].name &&
          (forall j' :: j < j' < |cols| ==> s.id != cols[j'].name) &&
          r.ordering == Some(Ordering(cols[j].alias, DirectionOf(s.desc))))
    decreases |cols|
  {
    if cols != [] {
      var init, c := cols[..|cols| - 1], cols[|cols| - 1];
      forall j | 0 <= j < |init| ensures init[j] == cols[j] { }
      SortColumnsSpec(st, s, init);
      if s.id == c.name {
        assert 0 <= |cols| - 1 < |cols| && s.id == cols[|cols| - 1].name;
      } else if exists j :: 0 <= j < |cols| && s.id == cols[j].name {
        var j0 :| 0 <= j0 < |cols| && s.id == cols[j0].name;
        assert j0 < |init|;
        var j :| 0 <= j < |init| && s.id == init[j].name &&
          (forall j' :: j < j' < |init| ==> s.id != init[j'].name) &&
          SortColumns(st, s, init).ordering == Some(Ordering(init[j].alias, DirectionOf(s.desc)));
        assert forall j' :: j < j' < |cols| ==> s.id != cols[j'].name;
      }
    }
  }

  /**
   * The sort loop: the flag is set iff some descriptor names a sort column;
   * with no match the ordering is left alone; otherwise the last matching
   * pair in loop order decides the column, and the direction is DESC iff its
   * `desc` is truthy.
   */
  lemma {:induction false} SortingSpec(st: SortState, ss: seq<SortDescriptor>, cols: seq<SortColumn>)
    ensures var r := CompileSorting(st, ss, cols);
      (r.hasSorting <==> st.hasSorting || exists i, j :: SortMatch(ss, cols, i, j)) &&
      ((forall i, j :: !SortMatch(ss, cols, i, j)) ==> r == st) &&
      ((exists i, j :: SortMatch(ss, cols, i, j)) ==>
        exists i, j :: LastSortMatch(ss, cols, i, j) &&
          r.ordering == Some(Ordering(cols[j].alias, DirectionOf(ss[i].desc))))
    decreases |ss|
  {
    if ss != [] {
      var init, s := ss[..|ss| - 1], ss[|ss| - 1];
      var n := |ss| - 1;
      SortMatchPrefix(ss, cols);
      var mid := CompileSorting(st, init, cols);
      SortingSpec(st, init, cols);
      SortColumnsSpec(mid, s, cols);
      if exists j :: 0 <= j < |cols| && s.id == cols[j].name {
        var j :| 0 <= j < |cols| && s.id == cols[j].name &&
          (forall j' :: j < j' < |cols| ==> s.id != cols[j'].name) &&
          SortColumns(mid, s, cols).ordering == Some(Ordering(cols[j].alias, DirectionOf(s.desc)));
        LastDescriptorDecides(ss, cols, j);
        assert SortMatch(ss, cols, n, j);
      } else {
        SortMatchesWithoutLast(ss, cols);
        if exists i, j :: SortMatch(ss, cols, i, j) {
          var i0, j0 :| SortMatch(ss, cols, i0, j0);
          assert SortMatch(init, cols, i0, j0);
          var i, j :| LastSortMatch(init, cols, i, j) &&
            mid.ordering == Some(Ordering(cols[j].alias, DirectionOf(init[i].desc)));
          EarlierDescriptorDecides(ss, cols, i, j);
        } else {
          forall i, j | 0 <= i < |init| && 0 <= j < |cols| ensures !SortMatch(init, cols, i, j) {
            assert !SortMatch(ss, cols, i, j);
          }
        }
        assert CompileSorting(st, ss, cols) == mid;
      }
    }
  }

  /** When the last descriptor names no column, the matches are those of the earlier descriptors. */
  lemma SortMatchesWithoutLast(ss: seq<SortDescriptor>, cols: seq<SortColumn>)
    requires ss != [] && forall j :: 0 <= j < |cols| ==> ss[|ss| - 1].id != cols[j].name
    ensures forall i, j :: SortMatch(ss[..|ss| - 1], cols, i, j) <==> SortMatch(ss, cols, i, j)
  {
    SortMatchPrefix(ss, cols);
  }

  /** The matches among the first `|ss| - 1` descriptors are those of `ss` with a smaller index. */
  lemma SortMatchPrefix(ss: seq<SortDescriptor>, cols: seq<SortColumn>)
    requires ss != []
    ensures forall i, j :: SortMatch(ss[..|ss| - 1], cols, i, j) <==> SortMatch(ss, cols, i, j) && i < |ss| - 1
  {
    var init := ss[..|ss| - 1];
    forall i | 0 <= i < |init| ensures init[i] == ss[i] { }
  }

  /** When the last descriptor names a column, its last such column is the last matching pair. */
  lemma LastDescriptorDecides(ss: seq<SortDescriptor>, cols: seq<SortColumn>, j: int)
    requires ss != [] && 0 <= j < |cols| && ss[|ss| - 1].id == cols[j].name
    requires forall j' :: j < j' < |cols| ==> ss[|ss| - 1].id != cols[j'].name
    ensures LastSortMatch(ss, cols, |ss| - 1, j)
  {
  }

  /** When the last descriptor names no column, the last matching pair is that of the earlier ones. */
  lemma EarlierDescriptorDecides(ss: seq<SortDescriptor>, cols: seq<SortColumn>, i: int, j: int)
    requires ss != [] && LastSortMatch(ss[..|ss| - 1], cols, i, j)
    requires forall j' :: 0 <= j' < |cols| ==> ss[|ss| - 1].id != cols[j'].name
    ensures LastSortMatch(ss, cols, i, j)
  {
    SortMatchPrefix(ss, cols);
  }

  // ---------------------------------------------------------------------------
  // What the call leaves in place
  // ---------------------------------------------------------------------------

  lemma {:induction false} ColumnsOnlyAppend(st: Compiled, f: FilterDescriptor, cols: seq<FilterColumn>)
    ensures st.query.conditions <= ApplyColumns(st, f, cols).query.conditions
    ensures ApplyColumns(st, f, cols).query.ordering == st.query.ordering
    ensures ApplyColumns(st, f, cols).query.limit == st.query.limit
    ensures ApplyColumns(st, f, cols).query.offset == st.query.offset
    decreases |cols|
  {
    if cols != [] {
      var mid := ApplyColumns(st, f, cols[..|cols| - 1]);
      ColumnsOnlyAppend(st, f, cols[..|cols| - 1]);
      FilterOnlyAppends(mid, f, cols[|cols| - 1]);
    }
  }

  lemma FilterOnlyAppends(st: Compiled, f: FilterDescriptor, c: FilterColumn)
    ensures st.query.conditions <= ApplyFilter(st, f, c).query.conditions
    ensures ApplyFilter(st, f, c).query.ordering == st.query.ordering
    ensures ApplyFilter(st, f, c).query.limit == st.query.limit
    ensures ApplyFilter(st, f, c).query.offset == st.query.offset
  {
    if !st.threw && f.id == c.name && Truthy(f.value) {
      var q := st.query;
      match c.kind
      case DateColumn =>
        var q1 := AddCondition(q, Between(c.alias, StartParam, EndParam));
        assert q.conditions <= q1.conditions;
      case EnumColumn =>
        assert q.conditions <= AddCondition(q, LikeParam(c.alias, f.id)).conditions;
      case BooleanColumn =>
        assert q.conditions <= AddCondition(q, EqualsParam(c.alias, f.id)).conditions;
      case StringColumn =>
        assert q.conditions <= AddCondition(q, LikeParam(c.alias, f.id)).conditions;
      case ArrayColumn =>
        assert q.conditions <= AddCondition(q, ArrayHas(c.alias, f.id)).conditions;
    }
  }

  /**
   * The filter loop only appends: the builder's earlier conditions remain as
   * a prefix, and its ordering, limit and offset are untouched.
   */
  lemma {:induction false} FiltersOnlyAppend(st: Compiled, fs: seq<FilterDescriptor>, cols: seq<FilterColumn>)
    ensures st.query.conditions <= CompileFilters(st, fs, cols).query.conditions
    ensures CompileFilters(st, fs, cols).query.ordering == st.query.ordering
    ensures CompileFilters(st, fs, cols).query.limit == st.query.limit
    ensures CompileFilters(st, fs, cols).query.offset == st.query.offset
    decreases |fs|
  {
    if fs != [] {
      FiltersOnlyAppend(st, fs[..|fs| - 1], cols);
      ColumnsOnlyAppend(CompileFilters(st, fs[..|fs| - 1], cols), fs[|fs| - 1], cols);
    }
  }

  /**
   * With an empty sort registry the call reports no sorting and leaves the
   * builder's ordering as it was; the conditions and parameters do not
   * depend on the sort registry at all.
   */
  lemma NoSortColumns(q: QueryState, req: Request, fcols: seq<FilterColumn>, scols: seq<SortColumn>)
    ensures var run := CompileRequest(q, req, fcols, []);
      run.query.ordering == q.ordering &&
      (run.outcome.Returned? ==> !run.outcome.hasSorting)
    ensures var r1, r2 := CompileRequest(q, req, fcols, []), CompileRequest(q, req, fcols, scols);
      r1.query.conditions == r2.query.conditions && r1.query.parameters == r2.query.parameters &&
      r1.query.limit == r2.query.limit && r1.query.offset == r2.query.offset &&
      r1.outcome.Threw? == r2.outcome.Threw?
  {
    var c := CompileFilters(Compiled(q, false, false), Filters(req), fcols);
    FiltersOnlyAppend(Compiled(q, false, false), Filters(req), fcols);
    SortingSpec(SortState(c.query.ordering, false), Sorting(req), []);
  }

  /**
   * What the call returns: a TypeError, or `[hasSorting, isPublicLadder]`
   * where each flag is the property the loops test for.
   */
  lemma RequestOutcome(q: QueryState, req: Request, fcols: seq<FilterColumn>, scols: seq<SortColumn>)
    ensures var run := CompileRequest(q, req, fcols, scols);
      run.outcome.Returned? ==>
        (run.outcome.hasSorting <==> exists i, j :: SortMatch(Sorting(req), scols, i, j)) &&
        (run.outcome.isPublicLadder <==> HasLadderArray(fcols) && exists i :: 0 <= i < |Filters(req)| && IsPublicSentinel(Filters(req)[i]))
    ensures (forall i :: 0 <= i < |Filters(req)| ==> Filters(req)[i].value.Str? || !Relevant(Filters(req)[i], fcols)) ==>
      CompileRequest(q, req, fcols, scols).outcome.Returned?
  {
    var c := CompileFilters(Compiled(q, false, false), Filters(req), fcols);
    if !c.threw {
      PublicFlagFilters(Compiled(q, false, false), Filters(req), fcols);
      SortingSpec(SortState(c.query.ordering, false), Sorting(req), scols);
    }
    if forall i :: 0 <= i < |Filters(req)| ==> Filters(req)[i].value.Str? || !Relevant(Filters(req)[i], fcols) {
      ThrowNeedsNonString(Compiled(q, false, false), Filters(req), fcols);
    }
  }
}
