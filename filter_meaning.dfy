/**
 * What the conditions compiled by `filterQueryFromRequest` select.
 *
 * Each matched descriptor demands something of a row, stated on the
 * descriptor's own value rather than on bound parameter names (`Demands`).
 * Conditions read named parameters, and a later `setParameter` with the same
 * name rebinds them; so the compiled filters mean the conjunction of the
 * demands only when no step rebinds a parameter an earlier condition reads.
 * That holds when descriptor ids are distinct and the registry is well formed
 * (unique names, none of them `start` or `end`, at most one date column).
 */
module FilterMeaning {

  import opened Wrappers
  import opened Text
  import opened Query
  import opened Filter

  /** What descriptor `f`, matched against column `c`, demands of row `r`. */
  predicate Demands(f: FilterDescriptor, c: FilterColumn, r: Record) {
    var t := TextAt(r, c.alias);
    match c.kind
    case DateColumn =>
      var low, high := Index(f.value, 0), Index(f.value, 1);
      if Truthy(low) && Truthy(high) then
        t.Some? && low.Str? && high.Str? && LexLe(low.s, t.value) && LexLe(t.value, high.s)
      else if Truthy(low) then t.Some? && low.Str? && LexLe(low.s, t.value)
      else if Truthy(high) then t.Some? && high.Str? && LexLe(t.value, high.s)
      else true
    case EnumColumn =>
      f.value.Str? && t.Some? && Like(EnumPattern(f.value.s), t.value)
    case BooleanColumn =>
      c.alias in r && r[c.alias] == SBool(f.value == Str("true"))
    case StringColumn =>
      t.Some? && Like("%" + TemplateString(f.value) + "%", t.value)
    case ArrayColumn =>
      IsPublicSentinel(f) ||
      (f.value.Str? && c.alias in r && r[c.alias].STextArray? && ToLower(f.value.s) in r[c.alias].items)
  }

  /** The parameter names one step may bind. */
  function Writes(f: FilterDescriptor, c: FilterColumn): set<string> {
    if c.kind == DateColumn then {StartParam, EndParam} else {f.id}
  }

  /** Every condition of `q` reads only parameters in `names`. */
  predicate ReadsWithin(q: QueryState, names: set<string>) {
    forall k :: 0 <= k < |q.conditions| ==> Reads(q.conditions[k]) <= names
  }

  /** Appending a condition while rebinding no parameter the old conditions read. */
  lemma ExtendSelects(q: QueryState, c: Condition, params: map<string, JsValue>, names: set<string>, w: set<string>, r: Record)
    requires ReadsWithin(q, names) && Reads(c) <= w
    requires forall n :: n in names ==> (n in q.parameters <==> n in params) && (n in params ==> q.parameters[n] == params[n])
    ensures ReadsWithin(q.(conditions := q.conditions + [c], parameters := params), names + w)
    ensures Selects(q.(conditions := q.conditions + [c], parameters := params), r) <==> Selects(q, r) && Holds(c, params, r)
  {
    var q' := q.(conditions := q.conditions + [c], parameters := params);
    forall k | 0 <= k < |q.conditions|
      ensures Holds(q'.conditions[k], params, r) <==> Holds(q.conditions[k], q.parameters, r)
    {
      assert q'.conditions[k] == q.conditions[k];
      HoldsFrame(q.conditions[k], q.parameters, params, r);
    }
    assert q'.conditions[|q.conditions|] == c;
  }

  /** The hypotheses shared by the per-type step lemmas: a matched descriptor, no rebinding. */
  predicate StepReady(st: Compiled, f: FilterDescriptor, c: FilterColumn, names: set<string>) {
    !st.threw && f.id == c.name && Truthy(f.value) && ReadsWithin(st.query, names) && names !! Writes(f, c)
  }

  lemma StepDate(st: Compiled, f: FilterDescriptor, c: FilterColumn, names: set<string>, r: Record)
    requires StepReady(st, f, c, names) && c.kind == DateColumn
    ensures ReadsWithin(ApplyFilter(st, f, c).query, names + Writes(f, c))
    ensures Selects(ApplyFilter(st, f, c).query, r) <==> Selects(st.query, r) && Demands(f, c, r)
  {
    var q := st.query;
    var low, high := Index(f.value, 0), Index(f.value, 1);
    var w := Writes(f, c);
    if Truthy(low) && Truthy(high) {
      var p := q.parameters[StartParam := low][EndParam := high];
      assert ApplyFilter(st, f, c).query == q.(conditions := q.conditions + [Between(c.alias, StartParam, EndParam)], parameters := p);
      ExtendSelects(q, Between(c.alias, StartParam, EndParam), p, names, w, r);
    } else if Truthy(low) {
      var p := q.parameters[StartParam := low];
      assert ApplyFilter(st, f, c).query == q.(conditions := q.conditions + [AtLeast(c.alias, StartParam)], parameters := p);
      ExtendSelects(q, AtLeast(c.alias, StartParam), p, names, w, r);
    } else if Truthy(high) {
      var p := q.parameters[EndParam := high];
      assert ApplyFilter(st, f, c).query == q.(conditions := q.conditions + [AtMost(c.alias, EndParam)], parameters := p);
      ExtendSelects(q, AtMost(c.alias, EndParam), p, names, w, r);
    }
  }

  lemma StepEnum(st: Compiled, f: FilterDescriptor, c: FilterColumn, names: set<string>, r: Record)
    requires StepReady(st, f, c, names) && c.kind == EnumColumn && f.value.Str?
    ensures ReadsWithin(ApplyFilter(st, f, c).query, names + Writes(f, c))
    ensures Selects(ApplyFilter(st, f, c).query, r) <==> Selects(st.query, r) && Demands(f, c, r)
  {
    var q := st.query;
    var p := q.parameters[f.id := Str(EnumPattern(f.value.s))];
    assert ApplyFilter(st, f, c).query == q.(conditions := q.conditions + [LikeParam(c.alias, f.id)], parameters := p);
    ExtendSelects(q, LikeParam(c.alias, f.id), p, names, Writes(f, c), r);
  }

  lemma StepBoolean(st: Compiled, f: FilterDescriptor, c: FilterColumn, names: set<string>, r: Record)
    requires StepReady(st, f, c, names) && c.kind == BooleanColumn
    ensures ReadsWithin(ApplyFilter(st, f, c).query, names + Writes(f, c))
    ensures Selects(ApplyFilter(st, f, c).query, r) <==> Selects(st.query, r) && Demands(f, c, r)
  {
    var q := st.query;
    var p := q.parameters[f.id := Bool(f.value == Str("true"))];
    assert ApplyFilter(st, f, c).query == q.(conditions := q.conditions + [EqualsParam(c.alias, f.id)], parameters := p);
    ExtendSelects(q, EqualsParam(c.alias, f.id), p, names, Writes(f, c), r);
  }

  lemma StepString(st: Compiled, f: FilterDescriptor, c: FilterColumn, names: set<string>, r: Record)
    requires StepReady(st, f, c, names) && c.kind == StringColumn
    ensures ReadsWithin(ApplyFilter(st, f, c).query, names + Writes(f, c))
    ensures Selects(ApplyFilter(st, f, c).query, r) <==> Selects(st.query, r) && Demands(f, c, r)
  {
    var q := st.query;
    var p := q.parameters[f.id := Str("%" + TemplateString(f.value) + "%")];
    assert ApplyFilter(st, f, c).query == q.(conditions := q.conditions + [LikeParam(c.alias, f.id)], parameters := p);
    ExtendSelects(q, LikeParam(c.alias, f.id), p, names, Writes(f, c), r);
  }

  lemma StepArray(st: Compiled, f: FilterDescriptor, c: FilterColumn, names: set<string>, r: Record)
    requires StepReady(st, f, c, names) && c.kind == ArrayColumn && (f.value.Str? || IsPublicSentinel(f))
    ensures ReadsWithin(ApplyFilter(st, f, c).query, names + Writes(f, c))
    ensures Selects(ApplyFilter(st, f, c).query, r) <==> Selects(st.query, r) && Demands(f, c, r)
  {
    var q := st.query;
    if !IsPublicSentinel(f) {
      var p := q.parameters[f.id := Str(ToLower(f.value.s))];
      assert ApplyFilter(st, f, c).query == q.(conditions := q.conditions + [ArrayHas(c.alias, f.id)], parameters := p);
      ExtendSelects(q, ArrayHas(c.alias, f.id), p, names, Writes(f, c), r);
    }
  }

  /** One step of the inner loop adds exactly the demand of a matched descriptor. */
  lemma StepMeaning(st: Compiled, f: FilterDescriptor, c: FilterColumn, names: set<string>, r: Record)
    requires !ApplyFilter(st, f, c).threw
    requires ReadsWithin(st.query, names) && (f.id == c.name ==> names !! Writes(f, c))
    ensures ReadsWithin(ApplyFilter(st, f, c).query, names + if f.id == c.name then Writes(f, c) else {})
    ensures Selects(ApplyFilter(st, f, c).query, r) <==>
      Selects(st.query, r) && (f.id == c.name && Truthy(f.value) ==> Demands(f, c, r))
  {
    if st.threw || f.id != c.name || !Truthy(f.value) {
      assert ApplyFilter(st, f, c) == st;
    } else {
      match c.kind
      case DateColumn => StepDate(st, f, c, names, r);
      case EnumColumn => StepEnum(st, f, c, names, r);
      case BooleanColumn => StepBoolean(st, f, c, names, r);
      case StringColumn => StepString(st, f, c, names, r);
      case ArrayColumn => StepArray(st, f, c, names, r);
    }
  }

  // ---------------------------------------------------------------------------
  // Folding the steps
  // ---------------------------------------------------------------------------

  /** Column names are unique, none is `start` or `end`, and at most one column is a date. */
  predicate WellFormedRegistry(cols: seq<FilterColumn>) {
    (forall a, b :: 0 <= a < b < |cols| ==> cols[a].name != cols[b].name) &&
    (forall j :: 0 <= j < |cols| ==> cols[j].name != StartParam && cols[j].name != EndParam) &&
    (forall a, b :: 0 <= a < |cols| && 0 <= b < |cols| && cols[a].kind == DateColumn && cols[b].kind == DateColumn ==> a == b)
  }

  predicate DistinctIds(fs: seq<FilterDescriptor>) {
    forall a, b :: 0 <= a < b < |fs| ==> fs[a].id != fs[b].id
  }

  /** Every demand descriptor `f` places on row `r` through the columns named after it. */
  predicate MeetsDescriptor(f: FilterDescriptor, cols: seq<FilterColumn>, r: Record) {
    forall j :: 0 <= j < |cols| && cols[j].name == f.id && Truthy(f.value) ==> Demands(f, cols[j], r)
  }

  /** Every demand of every descriptor. */
  predicate MeetsAll(fs: seq<FilterDescriptor>, cols: seq<FilterColumn>, r: Record) {
    forall i :: 0 <= i < |fs| ==> MeetsDescriptor(fs[i], cols, r)
  }

  /** The names the inner loop may bind for descriptor `f`: its own id, or the two date bounds. */
  function DescriptorWrites(f: FilterDescriptor, cols: seq<FilterColumn>): (w: set<string>)
    ensures w <= {f.id, StartParam, EndParam}
  {
    set j, n | 0 <= j < |cols| && cols[j].name == f.id && n in Writes(f, cols[j]) :: n
  }

  /** The names the whole filter loop may bind: some descriptor's id, or the two date bounds. */
  function FiltersWrites(fs: seq<FilterDescriptor>, cols: seq<FilterColumn>): (w: set<string>)
    ensures forall n :: n in w && n != StartParam && n != EndParam ==> exists i :: 0 <= i < |fs| && fs[i].id == n
  {
    set i, j, n | 0 <= i < |fs| && 0 <= j < |cols| && fs[i].id == cols[j].name && n in Writes(fs[i], cols[j]) :: n
  }

  /** Running one more column adds exactly what that column binds, if it is named after the descriptor. */
  lemma DescriptorWritesSnoc(f: FilterDescriptor, cols: seq<FilterColumn>)
    requires cols != []
    ensures DescriptorWrites(f, cols) ==
      DescriptorWrites(f, cols[..|cols| - 1]) + if cols[|cols| - 1].name == f.id then Writes(f, cols[|cols| - 1]) else {}
  {
    var init, c := cols[..|cols| - 1], cols[|cols| - 1];
    forall n | n in DescriptorWrites(f, cols)
      ensures n in DescriptorWrites(f, init) + if c.name == f.id then Writes(f, c) else {}
    {
      var j :| 0 <= j < |cols| && cols[j].name == f.id && n in Writes(f, cols[j]);
      if j < |init| {
        assert init[j] == cols[j];
      }
    }
    forall n | n in DescriptorWrites(f, init) ensures n in DescriptorWrites(f, cols) {
      var j :| 0 <= j < |init| && init[j].name == f.id && n in Writes(f, init[j]);
      assert cols[j] == init[j];
    }
  }

  /** Running one more descriptor adds exactly what that descriptor binds. */
  lemma FiltersWritesSnoc(fs: seq<FilterDescriptor>, cols: seq<FilterColumn>)
    requires fs != []
    ensures FiltersWrites(fs, cols) == FiltersWrites(fs[..|fs| - 1], cols) + DescriptorWrites(fs[|fs| - 1], cols)
  {
    var init, f := fs[..|fs| - 1], fs[|fs| - 1];
    forall n | n in FiltersWrites(fs, cols) ensures n in FiltersWrites(init, cols) + DescriptorWrites(f, cols) {
      var i, j :| 0 <= i < |fs| && 0 <= j < |cols| && fs[i].id == cols[j].name && n in Writes(fs[i], cols[j]);
      if i < |init| {
        assert init[i] == fs[i];
      }
    }
    forall n | n in FiltersWrites(init, cols) ensures n in FiltersWrites(fs, cols) {
      var i, j :| 0 <= i < |init| && 0 <= j < |cols| && init[i].id == cols[j].name && n in Writes(init[i], cols[j]);
      assert fs[i] == init[i];
    }
  }

  /** Meeting a descriptor over a longer registry: the earlier columns' demands and the last column's. */
  lemma MeetsDescriptorSnoc(f: FilterDescriptor, cols: seq<FilterColumn>, r: Record)
    requires cols != []
    ensures MeetsDescriptor(f, cols, r) <==>
      MeetsDescriptor(f, cols[..|cols| - 1], r) &&
      (cols[|cols| - 1].name == f.id && Truthy(f.value) ==> Demands(f, cols[|cols| - 1], r))
  {
    var init := cols[..|cols| - 1];
    assert forall j :: 0 <= j < |init| ==> init[j] == cols[j];
  }

  lemma {:induction false} ColumnsMeaning(st: Compiled, f: FilterDescriptor, cols: seq<FilterColumn>, names: set<string>, r: Record)
    requires WellFormedRegistry(cols)
    requires !ApplyColumns(st, f, cols).threw
    requires ReadsWithin(st.query, names)
    requires forall j :: 0 <= j < |cols| && cols[j].name == f.id ==> names !! Writes(f, cols[j])
    ensures ReadsWithin(ApplyColumns(st, f, cols).query, names + DescriptorWrites(f, cols))
    ensures Selects(ApplyColumns(st, f, cols).query, r) <==> Selects(st.query, r) && MeetsDescriptor(f, cols, r)
    decreases |cols|
  {
    if cols != [] {
      var init, c := cols[..|cols| - 1], cols[|cols| - 1];
      assert forall j :: 0 <= j < |init| ==> init[j] == cols[j];
      var mid := ApplyColumns(st, f, init);
      assert !mid.threw;
      ColumnsMeaning(st, f, init, names, r);
      DescriptorWritesSnoc(f, cols);
      MeetsDescriptorSnoc(f, cols, r);
      if c.name == f.id {
        forall j | 0 <= j < |init| ensures init[j].name != f.id {
          assert init[j] == cols[j];
        }
        assert DescriptorWrites(f, init) == {};
        StepMeaning(mid, f, c, names, r);
      } else {
        StepMeaning(mid, f, c, names + DescriptorWrites(f, init), r);
      }
    }
  }

  /** No step rebinds a name an earlier step's condition reads. */
  lemma FreshWrites(fs: seq<FilterDescriptor>, cols: seq<FilterColumn>, j: int)
    requires WellFormedRegistry(cols) && DistinctIds(fs) && fs != []
    requires 0 <= j < |cols| && cols[j].name == fs[|fs| - 1].id
    ensures FiltersWrites(fs[..|fs| - 1], cols) !! Writes(fs[|fs| - 1], cols[j])
  {
    var init, f := fs[..|fs| - 1], fs[|fs| - 1];
    forall n | n in FiltersWrites(init, cols) ensures n !in Writes(f, cols[j]) {
      var i, k :| 0 <= i < |init| && 0 <= k < |cols| && init[i].id == cols[k].name && n in Writes(init[i], cols[k]);
      assert init[i].id != f.id by { assert init[i] == fs[i]; }
    }
  }

  lemma {:induction false} FiltersMeaningFrom(st: Compiled, fs: seq<FilterDescriptor>, cols: seq<FilterColumn>, r: Record)
    requires WellFormedRegistry(cols) && DistinctIds(fs)
    requires !CompileFilters(st, fs, cols).threw
    requires ReadsWithin(st.query, {})
    ensures ReadsWithin(CompileFilters(st, fs, cols).query, FiltersWrites(fs, cols))
    ensures Selects(CompileFilters(st, fs, cols).query, r) <==> Selects(st.query, r) && MeetsAll(fs, cols, r)
    decreases |fs|
  {
    if fs != [] {
      var init, f := fs[..|fs| - 1], fs[|fs| - 1];
      assert forall i :: 0 <= i < |init| ==> init[i] == fs[i];
      var mid := CompileFilters(st, init, cols);
      PublicFlagColumns(mid, f, cols);
      FiltersMeaningFrom(st, init, cols, r);
      FiltersWritesSnoc(fs, cols);
      forall j | 0 <= j < |cols| && cols[j].name == f.id ensures FiltersWrites(init, cols) !! Writes(f, cols[j]) {
        FreshWrites(fs, cols, j);
      }
      ColumnsMeaning(mid, f, cols, FiltersWrites(init, cols), r);
    }
  }

  /**
   * Over a well-formed registry, with distinct descriptor ids and base
   * conditions that read no parameter, the compiled query selects a row
   * exactly when the base query does and every matched descriptor's demand
   * holds.
   */
  lemma CompiledFiltersMeaning(q: QueryState, fs: seq<FilterDescriptor>, cols: seq<FilterColumn>, r: Record)
    requires WellFormedRegistry(cols) && DistinctIds(fs)
    requires ReadsWithin(q, {})
    requires !CompileFilters(Compiled(q, false, false), fs, cols).threw
    ensures Selects(CompileFilters(Compiled(q, false, false), fs, cols).query, r) <==> Selects(q, r) && MeetsAll(fs, cols, r)
  {
    FiltersMeaningFrom(Compiled(q, false, false), fs, cols, r);
  }

  // ---------------------------------------------------------------------------
  // Each column type
  // ---------------------------------------------------------------------------

  /** `%` and `\` are the characters that would make an enum value more than a pattern of single wildcards. */
  lemma EnumPatternKeepsNoRunWildcard(s: string)
    requires NoRunWildcard(s)
    ensures NoRunWildcard(ToUpper(ReplaceFirst(s, ' ', '_')))
  {
    ReplaceFirstSpec(s, ' ', '_');
    var m := ReplaceFirst(s, ' ', '_');
    assert forall i :: 0 <= i < |m| ==> m[i] == s[i] || m[i] == '_';
  }

  /**
   * Enum filter: the stored value contains the upper-cased request value,
   * with its first space replaced by `_`, where every `_` of that text matches
   * any one character.
   */
  lemma EnumFilterMeaning(f: FilterDescriptor, c: FilterColumn, r: Record)
    requires c.kind == EnumColumn && f.value.Str? && NoRunWildcard(f.value.s)
    ensures Demands(f, c, r) <==>
      TextAt(r, c.alias).Some? && ContainsLike(TextAt(r, c.alias).value, ToUpper(ReplaceFirst(f.value.s, ' ', '_')))
  {
    var v := ToUpper(ReplaceFirst(f.value.s, ' ', '_'));
    EnumPatternKeepsNoRunWildcard(f.value.s);
    if TextAt(r, c.alias).Some? {
      LikeSurroundedIsContainsLike(v, TextAt(r, c.alias).value);
    }
  }

  /** String filter: a value with no LIKE metacharacter matches exactly the texts containing it. */
  lemma StringFilterMeaning(f: FilterDescriptor, c: FilterColumn, r: Record)
    requires c.kind == StringColumn && f.value.Str? && Literal(f.value.s)
    ensures Demands(f, c, r) <==> TextAt(r, c.alias).Some? && Contains(TextAt(r, c.alias).value, f.value.s)
  {
    if TextAt(r, c.alias).Some? {
      LikeSurroundedIsContains(f.value.s, TextAt(r, c.alias).value);
    }
  }

  /** String filter: the value `_` is a wildcard and keeps every non-empty text. */
  lemma UnderscoreStringFilterKeepsAll(f: FilterDescriptor, c: FilterColumn, r: Record)
    requires c.kind == StringColumn && f.value == Str("_")
    requires TextAt(r, c.alias).Some? && TextAt(r, c.alias).value != []
    ensures Demands(f, c, r)
  {
    UnderscoreValueMatchesEveryNonEmptyText(TextAt(r, c.alias).value);
  }

  /** Array filter: a ladder name with a capital letter is never found, whatever the row holds. */
  lemma CapitalisedLadderNeverMatches(f: FilterDescriptor, c: FilterColumn, r: Record, name: string)
    requires c.kind == ArrayColumn && f.value == Str(name) && !IsPublicSentinel(f)
    requires exists i :: 0 <= i < |name| && IsAsciiUpper(name[i])
    requires c.alias in r && r[c.alias].STextArray?
    requires forall k :: 0 <= k < |r[c.alias].items| ==> r[c.alias].items[k] == name
    ensures !Demands(f, c, r)
  {
    UpperNeverEqualsLowered(name, f.value.s);
  }

  /**
   * Two descriptors with the same id bind one parameter: the earlier
   * condition reads the later value, so each demands the later value,
   * whatever the earlier one was.
   */
  lemma RepeatedIdRebinds(a: JsValue, b: JsValue)
    requires Truthy(a) && Truthy(b)
    ensures var cols := [FilterColumn("rankeable", BooleanColumn, "game.rankeable")];
      var fs := [FilterDescriptor("rankeable", a), FilterDescriptor("rankeable", b)];
      var q := CompileFilters(Compiled(EmptyQuery([]), false, false), fs, cols).query;
      q.conditions == [EqualsParam("game.rankeable", "rankeable"), EqualsParam("game.rankeable", "rankeable")] &&
      "rankeable" in q.parameters && q.parameters["rankeable"] == Bool(b == Str("true"))
  {
    var cols := [FilterColumn("rankeable", BooleanColumn, "game.rankeable")];
    var fs := [FilterDescriptor("rankeable", a), FilterDescriptor("rankeable", b)];
    var st0 := Compiled(EmptyQuery([]), false, false);
    assert cols[..0] == [];
    assert fs[..1] == [fs[0]];
    assert fs[..1][..0] == [];
    var st1 := ApplyFilter(st0, fs[0], cols[0]);
    assert ApplyColumns(st0, fs[0], cols) == st1;
    assert CompileFilters(st0, fs[..1], cols) == st1;
    assert ApplyColumns(st1, fs[1], cols) == ApplyFilter(st1, fs[1], cols[0]);
  }
}
