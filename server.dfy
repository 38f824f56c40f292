/** The HTTP handlers of backend/index.js: the list query builder of
    GET /api/confessions, the insert of POST /api/confessions and the
    filename guard of GET /api/file/:filename. The relational store is
    abstract: the table is a sequence of rows, a WHERE clause is a list of
    conditions over numbered placeholders, and executing a query evaluates
    those conditions against the bound values. */
module Server {
  import opened Wrappers
  import opened Text
  import opened Types
  import opened Query
  import Helpers

  // ------------------------------------------------------- the parameters

  /** The query string of GET /api/confessions; an absent parameter is None. */
  datatype ListParams = ListParams(
    page: Option<string>,
    limit: Option<string>,
    city: Option<string>,
    sex: Option<string>,
    ageMin: Option<string>,
    ageMax: Option<string>,
    search: Option<string>,
    sortBy: Option<string>,
    sortOrder: Option<string>)

  /** JavaScript truthiness of an optional string. */
  predicate Truthy(p: Option<string>) {
    p.Some? && p.value != ""
  }

  /** The five optional filters. */
  datatype Filter = CityFilter | SexFilter | AgeMinFilter | AgeMaxFilter | SearchFilter

  function Param(q: ListParams, f: Filter): Option<string> {
    match f
    case CityFilter => q.city
    case SexFilter => q.sex
    case AgeMinFilter => q.ageMin
    case AgeMaxFilter => q.ageMax
    case SearchFilter => q.search
  }

  /** A filter is applied exactly when its parameter is truthy. */
  predicate Supplied(q: ListParams, f: Filter) {
    Truthy(Param(q, f))
  }

  /** The filters whose parameters are truthy. */
  function SuppliedFilters(q: ListParams): (r: set<Filter>)
    ensures forall f :: f in r <==> Supplied(q, f)
  {
    (if Supplied(q, CityFilter) then {CityFilter} else {})
    + (if Supplied(q, SexFilter) then {SexFilter} else {})
    + (if Supplied(q, AgeMinFilter) then {AgeMinFilter} else {})
    + (if Supplied(q, AgeMaxFilter) then {AgeMaxFilter} else {})
    + (if Supplied(q, SearchFilter) then {SearchFilter} else {})
  }

  // ------------------------------------------------- SQL values and clauses

  /** A bound parameter: a string, or a number (None is NaN). */
  datatype SqlValue = Str(s: string) | Num(n: Option<int>)

  const NaN: SqlValue := Num(None)

  /** The value the handler binds for filter `f`: `%city%`, the gender as
      given, `Number(ageMin)`, `Number(ageMax)`, and `%search%` (bound twice). */
  function BoundValue(q: ListParams, f: Filter): SqlValue {
    match f
    case CityFilter => Str("%" + q.city.GetOr("") + "%")
    case SexFilter => Str(q.sex.GetOr(""))
    case AgeMinFilter => Num(ToNumber(q.ageMin.GetOr("")))
    case AgeMaxFilter => Num(ToNumber(q.ageMax.GetOr("")))
    case SearchFilter => Str("%" + q.search.GetOr("") + "%")
  }

  /** One ` AND ...` condition of the WHERE clause; `p` and `q` are the
      numbers of the placeholders it reads. */
  datatype Clause =
    | CityLike(p: nat)
    | SexEquals(p: nat)
    | AgeAtLeast(p: nat)
    | AgeAtMost(p: nat)
    | DescriptionOrCityLike(p: nat, q: nat)

  function FilterOf(c: Clause): Filter {
    match c
    case CityLike(_) => CityFilter
    case SexEquals(_) => SexFilter
    case AgeAtLeast(_) => AgeMinFilter
    case AgeAtMost(_) => AgeMaxFilter
    case DescriptionOrCityLike(_, _) => SearchFilter
  }

  function Placeholders(c: Clause): seq<nat> {
    if c.DescriptionOrCityLike? then [c.p, c.q] else [c.p]
  }

  /** The placeholder numbers of a clause list, left to right. */
  function AllPlaceholders(cs: seq<Clause>): seq<nat> {
    if cs == [] then [] else AllPlaceholders(cs[..|cs| - 1]) + Placeholders(cs[|cs| - 1])
  }

  /** The placeholders read are `$1, $2, ..., $(idx-1)` in order, one per
      bound value, and `idx` is the next free number. */
  ghost predicate Numbered(cs: seq<Clause>, values: seq<SqlValue>, idx: nat) {
    var ps := AllPlaceholders(cs);
    && |ps| == |values|
    && idx == |values| + 1
    && forall i :: 0 <= i < |ps| ==> ps[i] == i + 1
  }

  /** The text of one condition; a placeholder is `$` and its number. */
  function Render(c: Clause): string {
    match c
    case CityLike(p) => " AND LOWER(city) LIKE LOWER($" + NatToString(p) + ")"
    case SexEquals(p) => " AND sex = $" + NatToString(p)
    case AgeAtLeast(p) => " AND age >= $" + NatToString(p)
    case AgeAtMost(p) => " AND age <= $" + NatToString(p)
    case DescriptionOrCityLike(p, q) =>
      " AND (LOWER(description) LIKE LOWER($" + NatToString(p)
      + ") OR LOWER(city) LIKE LOWER($" + NatToString(q) + "))"
  }

  /** The text of a WHERE clause: `WHERE 1=1` followed by each condition. */
  function RenderWhere(cs: seq<Clause>): string {
    if cs == [] then "WHERE 1=1" else RenderWhere(cs[..|cs| - 1]) + Render(cs[|cs| - 1])
  }

  // ------------------------------------------------ evaluating the clauses

  /** The value bound to placeholder `$p`, if there is one. */
  function ValueAt(values: seq<SqlValue>, p: nat): Option<SqlValue> {
    if 1 <= p <= |values| then Some(values[p - 1]) else None
  }

  /** `text LIKE pattern` for the patterns the handler builds: `%s%` is a
      substring test; other patterns compare whole strings. */
  predicate Like(text: string, pattern: string) {
    if |pattern| >= 2 && pattern[0] == '%' && pattern[|pattern| - 1] == '%'
    then Contains(text, pattern[1..|pattern| - 1])
    else text == pattern
  }

  /** `LOWER(text) LIKE LOWER(v)`; false unless `v` is a bound string. */
  predicate LikeLower(text: string, v: Option<SqlValue>) {
    v.Some? && v.value.Str? && Like(Lower(text), Lower(v.value.s))
  }

  /** Whether a row satisfies one condition under the bound values. A NULL
      description makes its LIKE unknown, so only the city can satisfy the
      search disjunction then. */
  predicate Eval(c: Clause, values: seq<SqlValue>, row: Confession) {
    match c
    case CityLike(p) => LikeLower(row.city, ValueAt(values, p))
    case SexEquals(p) =>
      var v := ValueAt(values, p);
      v.Some? && v.value.Str? && SexName(row.sex) == v.value.s
    case AgeAtLeast(p) =>
      var v := ValueAt(values, p);
      v.Some? && v.value.Num? && v.value.n.Some? && row.age >= v.value.n.value
    case AgeAtMost(p) =>
      var v := ValueAt(values, p);
      v.Some? && v.value.Num? && v.value.n.Some? && row.age <= v.value.n.value
    case DescriptionOrCityLike(p, q) =>
      || (row.description.Some? && LikeLower(row.description.value, ValueAt(values, p)))
      || LikeLower(row.city, ValueAt(values, q))
  }

  predicate AllHold(cs: seq<Clause>, values: seq<SqlValue>, row: Confession) {
    forall i :: 0 <= i < |cs| ==> Eval(cs[i], values, row)
  }

  /** The rows that satisfy every condition, in table order. */
  function Where(table: seq<Confession>, cs: seq<Clause>, values: seq<SqlValue>): seq<Confession> {
    if table == [] then []
    else (if AllHold(cs, values, table[0]) then [table[0]] else []) + Where(table[1..], cs, values)
  }

  predicate NoNaN(values: seq<SqlValue>) {
    forall i :: 0 <= i < |values| ==> values[i] != NaN
  }

  /** Both age bounds that are supplied are numbers. */
  predicate BoundsAreNumbers(q: ListParams) {
    && (Truthy(q.ageMin) ==> ToNumber(q.ageMin.value).Some?)
    && (Truthy(q.ageMax) ==> ToNumber(q.ageMax.value).Some?)
  }

  function NumberBound(p: Option<string>): Option<int> {
    if Truthy(p) then ToNumber(p.value) else None
  }

  /** The list parameters read as the shared filter criteria. */
  function ServerCriteria(q: ListParams): Criteria {
    Criteria(q.city.GetOr(""), q.sex.GetOr(""), NumberBound(q.ageMin), NumberBound(q.ageMax), q.search.GetOr(""))
  }

  // ------------------------------------------------------ placeholder facts

  lemma {:induction false} PlaceholderInAll(cs: seq<Clause>, i: nat, p: nat)
    requires i < |cs| && p in Placeholders(cs[i])
    ensures p in AllPlaceholders(cs)
  {
    var init := cs[..|cs| - 1];
    if i < |cs| - 1 {
      assert init[i] == cs[i];
      PlaceholderInAll(init, i, p);
    }
  }

  /** Under a consecutive numbering every clause reads bound values only. */
  lemma PlaceholdersInRange(cs: seq<Clause>, values: seq<SqlValue>, i: nat)
    requires Numbered(cs, values, |values| + 1) && i < |cs|
    ensures forall p :: p in Placeholders(cs[i]) ==> 1 <= p <= |values|
  {
    forall p | p in Placeholders(cs[i])
      ensures 1 <= p <= |values|
    {
      PlaceholderInAll(cs, i, p);
      var ps := AllPlaceholders(cs);
      var k :| 0 <= k < |ps| && ps[k] == p;
    }
  }

  lemma ValueAtExtend(values: seq<SqlValue>, extra: seq<SqlValue>, p: nat)
    requires 1 <= p <= |values|
    ensures ValueAt(values + extra, p) == ValueAt(values, p)
  {
  }

  /** Binding more values does not change what earlier clauses mean. */
  lemma HoldExtend(cs: seq<Clause>, values: seq<SqlValue>, extra: seq<SqlValue>, row: Confession)
    requires Numbered(cs, values, |values| + 1)
    ensures AllHold(cs, values + extra, row) == AllHold(cs, values, row)
  {
    forall i | 0 <= i < |cs|
      ensures Eval(cs[i], values + extra, row) == Eval(cs[i], values, row)
    {
      ClauseExtend(cs, values, extra, i);
    }
  }

  /** The placeholders of an earlier clause read the same values after more
      values are bound. */
  lemma ClauseExtend(cs: seq<Clause>, values: seq<SqlValue>, extra: seq<SqlValue>, i: nat)
    requires Numbered(cs, values, |values| + 1) && i < |cs|
    ensures ValueAt(values + extra, cs[i].p) == ValueAt(values, cs[i].p)
    ensures cs[i].DescriptionOrCityLike? ==> ValueAt(values + extra, cs[i].q) == ValueAt(values, cs[i].q)
  {
    PlaceholdersInRange(cs, values, i);
    assert cs[i].p in Placeholders(cs[i]);
    ValueAtExtend(values, extra, cs[i].p);
    if cs[i].DescriptionOrCityLike? {
      assert cs[i].q in Placeholders(cs[i]);
      ValueAtExtend(values, extra, cs[i].q);
    }
  }

  lemma WhereExtend(table: seq<Confession>, cs: seq<Clause>, values: seq<SqlValue>, extra: seq<SqlValue>)
    requires Numbered(cs, values, |values| + 1)
    ensures Where(table, cs, values + extra) == Where(table, cs, values)
  {
    if table != [] {
      HoldExtend(cs, values, extra, table[0]);
      WhereExtend(table[1..], cs, values, extra);
    }
  }

  /** When the conditions accept exactly the rows the criteria accept, the
      store selects exactly `Select(table, f)`. */
  lemma {:induction false} WhereIsSelect(table: seq<Confession>, cs: seq<Clause>, values: seq<SqlValue>, f: Criteria)
    requires forall row :: AllHold(cs, values, row) <==> Matches(row, f)
    ensures Where(table, cs, values) == Select(table, f)
  {
    if table != [] {
      WhereIsSelect(table[1..], cs, values, f);
    }
  }

  /** `LOWER(text) LIKE LOWER('%s%')` is a case-insensitive substring test. */
  lemma LikeLowerPattern(text: string, s: string)
    ensures LikeLower(text, Some(Str("%" + s + "%"))) <==> Contains(Lower(text), Lower(s))
  {
    var pat := "%" + s + "%";
    LowerAppend("%", s);
    LowerAppend("%" + s, "%");
    var lp := Lower(pat);
    assert lp == "%" + Lower(s) + "%";
    assert lp[1..|lp| - 1] == Lower(s);
  }

  // -------------------------------------------------- building the clause

  /** Every clause reads the value its filter binds. */
  predicate ClauseBinds(c: Clause, values: seq<SqlValue>, q: ListParams) {
    && ValueAt(values, c.p) == Some(BoundValue(q, FilterOf(c)))
    && (c.DescriptionOrCityLike? ==> ValueAt(values, c.q) == Some(BoundValue(q, SearchFilter)))
  }

  predicate Binds(cs: seq<Clause>, values: seq<SqlValue>, q: ListParams) {
    forall i :: 0 <= i < |cs| ==> ClauseBinds(cs[i], values, q)
  }

  /** The filters a clause list applies. */
  function UsedFilters(cs: seq<Clause>): set<Filter> {
    if cs == [] then {} else UsedFilters(cs[..|cs| - 1]) + {FilterOf(cs[|cs| - 1])}
  }

  /** The condition the handler appends for filter `f` when the next free
      placeholder is `$idx`. */
  function ClauseFor(f: Filter, idx: nat): (c: Clause)
    ensures FilterOf(c) == f
    ensures Placeholders(c) == if f == SearchFilter then [idx, idx + 1] else [idx]
  {
    match f
    case CityFilter => CityLike(idx)
    case SexFilter => SexEquals(idx)
    case AgeMinFilter => AgeAtLeast(idx)
    case AgeMaxFilter => AgeAtMost(idx)
    case SearchFilter => DescriptionOrCityLike(idx, idx + 1)
  }

  /** The values bound with it: the search pattern is bound twice. */
  function ValuesFor(q: ListParams, f: Filter): (r: seq<SqlValue>)
    ensures |r| == |Placeholders(ClauseFor(f, 0))|
    ensures forall i :: 0 <= i < |r| ==> r[i] == BoundValue(q, f)
  {
    if f == SearchFilter then [BoundValue(q, f), BoundValue(q, f)] else [BoundValue(q, f)]
  }

  /** The criteria applied by the filters in `done`. */
  function PartialCriteria(q: ListParams, done: set<Filter>): Criteria {
    Criteria(
      if CityFilter in done then q.city.GetOr("") else "",
      if SexFilter in done then q.sex.GetOr("") else "",
      if AgeMinFilter in done then NumberBound(q.ageMin) else None,
      if AgeMaxFilter in done then NumberBound(q.ageMax) else None,
      if SearchFilter in done then q.search.GetOr("") else "")
  }

  /** The state of the builder once the filters in `done` are handled. */
  ghost predicate Progress(
    q: ListParams, done: set<Filter>,
    whereClause: string, cs: seq<Clause>, values: seq<SqlValue>, idx: nat)
  {
    && Numbered(cs, values, idx)
    && whereClause == RenderWhere(cs)
    && UsedFilters(cs) == done * SuppliedFilters(q)
    && Binds(cs, values, q)
    && (NoNaN(values) <==> forall f :: f in done && Supplied(q, f) ==> BoundValue(q, f) != NaN)
    && (NoNaN(values) ==> forall row :: AllHold(cs, values, row) <==> Matches(row, PartialCriteria(q, done)))
  }

  lemma NoNaNAppend(values: seq<SqlValue>, extra: seq<SqlValue>)
    ensures NoNaN(values + extra) <==> NoNaN(values) && NoNaN(extra)
  {
    if NoNaN(values) && NoNaN(extra) {
      forall i | 0 <= i < |values + extra| ensures (values + extra)[i] != NaN {
        if i >= |values| {
          assert (values + extra)[i] == extra[i - |values|];
        }
      }
    }
    if NoNaN(values + extra) {
      forall i | 0 <= i < |extra| ensures extra[i] != NaN {
        assert (values + extra)[|values| + i] == extra[i];
      }
      forall i | 0 <= i < |values| ensures values[i] != NaN {
        assert (values + extra)[i] == values[i];
      }
    }
  }

  /** The check filter `f` makes on a row. */
  predicate FilterOk(row: Confession, q: ListParams, f: Filter) {
    match f
    case CityFilter => CityOk(row, q.city.GetOr(""))
    case SexFilter => SexOk(row, q.sex.GetOr(""))
    case AgeMinFilter => AgeAtLeastOk(row, NumberBound(q.ageMin))
    case AgeMaxFilter => AgeAtMostOk(row, NumberBound(q.ageMax))
    case SearchFilter => SearchOk(row, q.search.GetOr(""))
  }

  /** Handling one more filter conjoins its check. */
  lemma PartialAdd(q: ListParams, done: set<Filter>, f: Filter, row: Confession)
    requires f !in done
    ensures Matches(row, PartialCriteria(q, done + {f})) == (Matches(row, PartialCriteria(q, done)) && FilterOk(row, q, f))
  {
  }

  /** The condition appended for a supplied filter, over the values bound
      with it, makes the filter's check, unless its value is NaN. */
  lemma EvalClause(q: ListParams, f: Filter, values: seq<SqlValue>, row: Confession)
    requires Supplied(q, f) && BoundValue(q, f) != NaN
    ensures Eval(ClauseFor(f, |values| + 1), values + ValuesFor(q, f), row) == FilterOk(row, q, f)
  {
    var extra := ValuesFor(q, f);
    assert ValueAt(values + extra, |values| + 1) == Some(BoundValue(q, f));
    match f
    case CityFilter =>
      LikeLowerPattern(row.city, q.city.value);
    case SexFilter =>
    case AgeMinFilter =>
    case AgeMaxFilter =>
    case SearchFilter =>
      assert ValueAt(values + extra, |values| + 2) == Some(BoundValue(q, f));
      LikeLowerPattern(row.city, q.search.value);
      if row.description.Some? {
        LikeLowerPattern(row.description.value, q.search.value);
      }
  }

  /** Appending a condition that reads the next free placeholders keeps
      the numbering consecutive. */
  lemma StepNumbered(cs: seq<Clause>, values: seq<SqlValue>, c: Clause, extra: seq<SqlValue>)
    requires Numbered(cs, values, |values| + 1)
    requires |Placeholders(c)| == |extra|
    requires forall k :: 0 <= k < |extra| ==> Placeholders(c)[k] == |values| + 1 + k
    ensures Numbered(cs + [c], values + extra, |values| + |extra| + 1)
    ensures RenderWhere(cs + [c]) == RenderWhere(cs) + Render(c)
    ensures UsedFilters(cs + [c]) == UsedFilters(cs) + {FilterOf(c)}
  {
    assert (cs + [c])[..|cs|] == cs;
    assert AllPlaceholders(cs + [c]) == AllPlaceholders(cs) + Placeholders(c);
  }

  lemma StepBinds(q: ListParams, cs: seq<Clause>, values: seq<SqlValue>, f: Filter)
    requires Numbered(cs, values, |values| + 1) && Binds(cs, values, q)
    ensures Binds(cs + [ClauseFor(f, |values| + 1)], values + ValuesFor(q, f), q)
  {
    var cs' := cs + [ClauseFor(f, |values| + 1)];
    var extra := ValuesFor(q, f);
    forall i | 0 <= i < |cs'|
      ensures ClauseBinds(cs'[i], values + extra, q)
    {
      if i < |cs| {
        assert cs'[i] == cs[i];
        ClauseExtend(cs, values, extra, i);
      } else {
        assert ValueAt(values + extra, |values| + 1) == Some(BoundValue(q, f));
        if f == SearchFilter {
          assert ValueAt(values + extra, |values| + 2) == Some(BoundValue(q, f));
        }
      }
    }
  }

  lemma StepUsed(q: ListParams, done: set<Filter>, used: set<Filter>, f: Filter)
    requires used == done * SuppliedFilters(q) && Supplied(q, f)
    ensures used + {f} == (done + {f}) * SuppliedFilters(q)
  {
  }

  lemma StepNaN(q: ListParams, done: set<Filter>, values: seq<SqlValue>, f: Filter)
    requires NoNaN(values) <==> forall g :: g in done && Supplied(q, g) ==> BoundValue(q, g) != NaN
    requires Supplied(q, f)
    ensures NoNaN(values + ValuesFor(q, f)) <==> forall g :: g in done + {f} && Supplied(q, g) ==> BoundValue(q, g) != NaN
    ensures NoNaN(values + ValuesFor(q, f)) ==> NoNaN(values) && BoundValue(q, f) != NaN
  {
    var b := BoundValue(q, f);
    NoNaNAppend(values, ValuesFor(q, f));
    if f == SearchFilter {
      assert ValuesFor(q, f) == [b, b];
    } else {
      assert ValuesFor(q, f) == [b];
    }
    assert ValuesFor(q, f)[0] == b;
    assert NoNaN(ValuesFor(q, f)) <==> b != NaN;
  }

  lemma StepMeaning(q: ListParams, done: set<Filter>, cs: seq<Clause>, values: seq<SqlValue>, f: Filter)
    requires Numbered(cs, values, |values| + 1)
    requires f !in done && Supplied(q, f) && BoundValue(q, f) != NaN
    requires forall row :: AllHold(cs, values, row) <==> Matches(row, PartialCriteria(q, done))
    ensures forall row ::
      AllHold(cs + [ClauseFor(f, |values| + 1)], values + ValuesFor(q, f), row) <==> Matches(row, PartialCriteria(q, done + {f}))
  {
    var c := ClauseFor(f, |values| + 1);
    var extra := ValuesFor(q, f);
    var cs' := cs + [c];
    forall row
      ensures AllHold(cs', values + extra, row) <==> Matches(row, PartialCriteria(q, done + {f}))
    {
      HoldExtend(cs, values, extra, row);
      assert AllHold(cs', values + extra, row) <==> AllHold(cs, values + extra, row) && Eval(c, values + extra, row) by {
        assert forall i :: 0 <= i < |cs| ==> cs'[i] == cs[i];
        assert cs'[|cs|] == c;
      }
      PartialAdd(q, done, f, row);
      EvalClause(q, f, values, row);
    }
  }

  /** Handling a supplied filter: its condition is appended with the next
      free placeholders and its values are bound. */
  lemma Step(q: ListParams, done: set<Filter>, whereClause: string, cs: seq<Clause>, values: seq<SqlValue>, idx: nat, f: Filter)
    requires Progress(q, done, whereClause, cs, values, idx)
    requires f !in done && Supplied(q, f)
    ensures Progress(q, done + {f}, whereClause + Render(ClauseFor(f, idx)),
      cs + [ClauseFor(f, idx)], values + ValuesFor(q, f), idx + |ValuesFor(q, f)|)
  {
    var c := ClauseFor(f, idx);
    StepNumbered(cs, values, c, ValuesFor(q, f));
    StepBinds(q, cs, values, f);
    StepUsed(q, done, UsedFilters(cs), f);
    StepNaN(q, done, values, f);
    if NoNaN(values + ValuesFor(q, f)) {
      StepMeaning(q, done, cs, values, f);
    }
  }

  /** Skipping a filter that is not supplied changes nothing it accepts. */
  lemma Skip(q: ListParams, done: set<Filter>, whereClause: string, cs: seq<Clause>, values: seq<SqlValue>, idx: nat, f: Filter)
    requires Progress(q, done, whereClause, cs, values, idx)
    requires !Supplied(q, f)
    ensures Progress(q, done + {f}, whereClause, cs, values, idx)
  {
    PartialSkip(q, done, f);
    assert (done + {f}) * SuppliedFilters(q) == done * SuppliedFilters(q);
  }

  /** A filter whose parameter is not truthy adds no criterion. */
  lemma PartialSkip(q: ListParams, done: set<Filter>, f: Filter)
    requires !Supplied(q, f)
    ensures PartialCriteria(q, done + {f}) == PartialCriteria(q, done)
  {
  }

  /** The age bounds are numbers exactly when no supplied filter binds NaN. */
  lemma NumbersIffNoNaNBound(q: ListParams, all: set<Filter>)
    requires all == {CityFilter, SexFilter, AgeMinFilter, AgeMaxFilter, SearchFilter}
    ensures BoundsAreNumbers(q) <==> forall f :: f in all && Supplied(q, f) ==> BoundValue(q, f) != NaN
  {
    if !BoundsAreNumbers(q) {
      if Truthy(q.ageMin) && ToNumber(q.ageMin.value).None? {
        assert AgeMinFilter in all && Supplied(q, AgeMinFilter) && BoundValue(q, AgeMinFilter) == NaN;
      } else {
        assert AgeMaxFilter in all && Supplied(q, AgeMaxFilter) && BoundValue(q, AgeMaxFilter) == NaN;
      }
    }
  }

  /** The order in which the handler considers the filters. */
  const FilterOrder: seq<Filter> := [CityFilter, SexFilter, AgeMinFilter, AgeMaxFilter, SearchFilter]

  /** One filter's contribution: when supplied, its condition reading the
      next free placeholders and its values; otherwise nothing. */
  function PlanStep(q: ListParams, f: Filter, cs: seq<Clause>, values: seq<SqlValue>): (seq<Clause>, seq<SqlValue>) {
    if Supplied(q, f) then (cs + [ClauseFor(f, |values| + 1)], values + ValuesFor(q, f)) else (cs, values)
  }

  /** The conditions and values the filters `fs` contribute, taken in order. */
  function Plan(q: ListParams, fs: seq<Filter>): (seq<Clause>, seq<SqlValue>) {
    if fs == [] then ([], [])
    else
      var p := Plan(q, fs[..|fs| - 1]);
      PlanStep(q, fs[|fs| - 1], p.0, p.1)
  }

  /** Planning one more filter is one more `PlanStep`. */
  lemma PlanExtend(q: ListParams, fs: seq<Filter>, f: Filter, fs': seq<Filter>)
    requires fs' == fs + [f]
    ensures Plan(q, fs') == PlanStep(q, f, Plan(q, fs).0, Plan(q, fs).1)
  {
    assert fs'[..|fs|] == fs;
  }

  /** The filter of each condition, left to right. */
  function FiltersOf(cs: seq<Clause>): (r: seq<Filter>)
    ensures |r| == |cs|
  {
    if cs == [] then [] else FiltersOf(cs[..|cs| - 1]) + [FilterOf(cs[|cs| - 1])]
  }

  /** The supplied filters among `fs`, in their order. */
  function SuppliedInOrder(q: ListParams, fs: seq<Filter>): seq<Filter> {
    if fs == [] then []
    else SuppliedInOrder(q, fs[..|fs| - 1]) + (if Supplied(q, fs[|fs| - 1]) then [fs[|fs| - 1]] else [])
  }

  /** The plan holds one condition per supplied filter, in the filters'
      order. */
  lemma {:induction false} PlanFilters(q: ListParams, fs: seq<Filter>)
    ensures FiltersOf(Plan(q, fs).0) == SuppliedInOrder(q, fs)
  {
    if fs != [] {
      var init := fs[..|fs| - 1];
      var f := fs[|fs| - 1];
      PlanFilters(q, init);
      var p := Plan(q, init);
      if Supplied(q, f) {
        var cs := p.0 + [ClauseFor(f, |p.1| + 1)];
        assert cs[..|cs| - 1] == p.0;
      }
    }
  }

  /** Handles one filter: when its parameter is truthy, appends its
      condition, reading the next free placeholder `$idx`, and binds its
      values; otherwise leaves everything as it is. The text stays the
      rendering of the conditions, and `idx` stays one past the values. */
  method AddFilter(
    q: ListParams, f: Filter,
    whereClause: string, clauses: seq<Clause>, values: seq<SqlValue>, idx: nat)
    returns (whereClause': string, clauses': seq<Clause>, values': seq<SqlValue>, idx': nat)
    requires whereClause == RenderWhere(clauses) && idx == |values| + 1
    ensures whereClause' == RenderWhere(clauses') && idx' == |values'| + 1
    ensures (clauses', values') == PlanStep(q, f, clauses, values)
  {
    if !Supplied(q, f) {
      return whereClause, clauses, values, idx;
    }
    ghost var c := ClauseFor(f, idx);
    assert (clauses + [c])[..|clauses|] == clauses;
    var p := NatToString(idx);
    match f
    case CityFilter =>
      whereClause' := whereClause + (" AND LOWER(city) LIKE LOWER($" + p + ")");
      clauses', values', idx' := clauses + [CityLike(idx)], values + [Str("%" + q.city.value + "%")], idx + 1;
      assert whereClause' == whereClause + Render(c);
      assert values' == values + ValuesFor(q, f);
    case SexFilter =>
      whereClause' := whereClause + (" AND sex = $" + p);
      clauses', values', idx' := clauses + [SexEquals(idx)], values + [Str(q.sex.value)], idx + 1;
      assert whereClause' == whereClause + Render(c);
      assert values' == values + ValuesFor(q, f);
    case AgeMinFilter =>
      whereClause' := whereClause + (" AND age >= $" + p);
      clauses', values', idx' := clauses + [AgeAtLeast(idx)], values + [Num(ToNumber(q.ageMin.value))], idx + 1;
      assert whereClause' == whereClause + Render(c);
      assert values' == values + ValuesFor(q, f);
    case AgeMaxFilter =>
      whereClause' := whereClause + (" AND age <= $" + p);
      clauses', values', idx' := clauses + [AgeAtMost(idx)], values + [Num(ToNumber(q.ageMax.value))], idx + 1;
      assert whereClause' == whereClause + Render(c);
      assert values' == values + ValuesFor(q, f);
    case SearchFilter =>
      var pattern := "%" + q.search.value + "%";
      whereClause' := whereClause
        + (" AND (LOWER(description) LIKE LOWER($" + p
        + ") OR LOWER(city) LIKE LOWER($" + NatToString(idx + 1) + "))");
      clauses', values', idx' := clauses + [DescriptionOrCityLike(idx, idx + 1)], values + [Str(pattern), Str(pattern)], idx + 2;
      assert whereClause' == whereClause + Render(c);
      assert values' == values + ValuesFor(q, f);
  }

  /** The WHERE clause and its bound values for the list parameters, built
      filter by filter in the order city, gender, minimum age, maximum age,
      search. The conditions and values are exactly those of
      `Plan(q, FilterOrder)`: one condition per supplied filter, in that
      order. The result numbers its placeholders `$1, $2, ...`
      consecutively with one value each, applies exactly the supplied
      filters, binds each condition to its filter's value, has a NaN value
      exactly when an age bound is not a number, and, when none is, accepts
      exactly the rows the shared criteria accept. */
  method BuildWhere(q: ListParams) returns (whereClause: string, clauses: seq<Clause>, values: seq<SqlValue>, idx: nat)
    ensures Numbered(clauses, values, idx)
    ensures whereClause == RenderWhere(clauses)
    ensures UsedFilters(clauses) == SuppliedFilters(q)
    ensures Binds(clauses, values, q)
    ensures SuppliedFilters(q) == {} ==> whereClause == "WHERE 1=1" && values == []
    ensures NoNaN(values) <==> BoundsAreNumbers(q)
    ensures NoNaN(values) ==> forall row :: AllHold(clauses, values, row) <==> Matches(row, ServerCriteria(q))
    ensures (clauses, values) == Plan(q, FilterOrder)
    ensures FiltersOf(clauses) == SuppliedInOrder(q, FilterOrder)
  {
    whereClause, clauses, values, idx := "WHERE 1=1", [], [], 1;
    assert (clauses, values) == Plan(q, []);
    whereClause, clauses, values, idx := AddFilter(q, CityFilter, whereClause, clauses, values, idx);
    PlanExtend(q, [], CityFilter, [CityFilter]);
    whereClause, clauses, values, idx := AddFilter(q, SexFilter, whereClause, clauses, values, idx);
    PlanExtend(q, [CityFilter], SexFilter, [CityFilter, SexFilter]);
    whereClause, clauses, values, idx := AddFilter(q, AgeMinFilter, whereClause, clauses, values, idx);
    PlanExtend(q, [CityFilter, SexFilter], AgeMinFilter, [CityFilter, SexFilter, AgeMinFilter]);
    whereClause, clauses, values, idx := AddFilter(q, AgeMaxFilter, whereClause, clauses, values, idx);
    PlanExtend(q, [CityFilter, SexFilter, AgeMinFilter], AgeMaxFilter, [CityFilter, SexFilter, AgeMinFilter, AgeMaxFilter]);
    whereClause, clauses, values, idx := AddFilter(q, SearchFilter, whereClause, clauses, values, idx);
    PlanExtend(q, [CityFilter, SexFilter, AgeMinFilter, AgeMaxFilter], SearchFilter, FilterOrder);
    PlanComplete(q);
    PlanFilters(q, FilterOrder);
  }

  /** The plan of all five filters is the complete WHERE clause for the
      parameters, with the properties stated for `BuildWhere`. */
  lemma PlanComplete(q: ListParams)
    ensures var (cs, vs) := Plan(q, FilterOrder);
      && Numbered(cs, vs, |vs| + 1)
      && UsedFilters(cs) == SuppliedFilters(q)
      && Binds(cs, vs, q)
      && (SuppliedFilters(q) == {} ==> RenderWhere(cs) == "WHERE 1=1" && vs == [])
      && (NoNaN(vs) <==> BoundsAreNumbers(q))
      && (NoNaN(vs) ==> forall row :: AllHold(cs, vs, row) <==> Matches(row, ServerCriteria(q)))
  {
    var p := Plan(q, FilterOrder);
    PlanProgress(q);
    BuildComplete(q, {CityFilter, SexFilter, AgeMinFilter, AgeMaxFilter, SearchFilter}, RenderWhere(p.0), p.0, p.1, |p.1| + 1);
  }

  /** The builder state that the plan of the filters `fs` describes, once
      the filters in `done` are handled. */
  ghost predicate PlanState(q: ListParams, done: set<Filter>, fs: seq<Filter>) {
    var p := Plan(q, fs);
    Progress(q, done, RenderWhere(p.0), p.0, p.1, |p.1| + 1)
  }

  /** Handling one more filter extends the plan by that filter. */
  lemma PlanAdvance(q: ListParams, done: set<Filter>, fs: seq<Filter>, f: Filter, done': set<Filter>, fs': seq<Filter>)
    requires PlanState(q, done, fs) && f !in done
    requires done' == done + {f} && fs' == fs + [f]
    ensures PlanState(q, done', fs')
  {
    Advance(q, done, f, Plan(q, fs).0, Plan(q, fs).1);
    PlanExtend(q, fs, f, fs');
  }

  // The plans of the first one to four filters, each one step after the
  // previous, are builder states that have handled those filters.

  lemma PlanProgress1(q: ListParams)
    ensures PlanState(q, {CityFilter}, [CityFilter])
  {
    ProgressStart(q);
    assert Plan(q, []) == ([], []);
    PlanAdvance(q, {}, [], CityFilter, {CityFilter}, [CityFilter]);
  }

  lemma PlanProgress2(q: ListParams)
    ensures PlanState(q, {CityFilter, SexFilter}, [CityFilter, SexFilter])
  {
    PlanProgress1(q);
    PlanAdvance(q, {CityFilter}, [CityFilter], SexFilter, {CityFilter, SexFilter}, [CityFilter, SexFilter]);
  }

  lemma PlanProgress3(q: ListParams)
    ensures PlanState(q, {CityFilter, SexFilter, AgeMinFilter}, [CityFilter, SexFilter, AgeMinFilter])
  {
    PlanProgress2(q);
    PlanAdvance(q, {CityFilter, SexFilter}, [CityFilter, SexFilter], AgeMinFilter, {CityFilter, SexFilter, AgeMinFilter}, [CityFilter, SexFilter, AgeMinFilter]);
  }

  lemma PlanProgress4(q: ListParams)
    ensures PlanState(q, {CityFilter, SexFilter, AgeMinFilter, AgeMaxFilter}, [CityFilter, SexFilter, AgeMinFilter, AgeMaxFilter])
  {
    PlanProgress3(q);
    PlanAdvance(q, {CityFilter, SexFilter, AgeMinFilter}, [CityFilter, SexFilter, AgeMinFilter], AgeMaxFilter, {CityFilter, SexFilter, AgeMinFilter, AgeMaxFilter}, [CityFilter, SexFilter, AgeMinFilter, AgeMaxFilter]);
  }

  /** The plan of all five filters, rendered and numbered from `$1`, is the
      state of a builder that has handled every filter. */
  lemma PlanProgress(q: ListParams)
    ensures PlanState(q, {CityFilter, SexFilter, AgeMinFilter, AgeMaxFilter, SearchFilter}, FilterOrder)
  {
    PlanProgress4(q);
    PlanAdvance(q, {CityFilter, SexFilter, AgeMinFilter, AgeMaxFilter}, [CityFilter, SexFilter, AgeMinFilter, AgeMaxFilter], SearchFilter, {CityFilter, SexFilter, AgeMinFilter, AgeMaxFilter, SearchFilter}, FilterOrder);
  }

  /** Handling filter `f` on a builder state, as `PlanStep` describes it,
      gives the state of a builder that has also handled `f`. */
  lemma Advance(q: ListParams, done: set<Filter>, f: Filter, cs: seq<Clause>, vs: seq<SqlValue>)
    requires Progress(q, done, RenderWhere(cs), cs, vs, |vs| + 1)
    requires f !in done
    ensures var p := PlanStep(q, f, cs, vs);
      Progress(q, done + {f}, RenderWhere(p.0), p.0, p.1, |p.1| + 1)
  {
    if Supplied(q, f) {
      Step(q, done, RenderWhere(cs), cs, vs, |vs| + 1, f);
    } else {
      Skip(q, done, RenderWhere(cs), cs, vs, |vs| + 1, f);
    }
  }

  /** Before any filter is handled: "WHERE 1=1", no values, placeholder 1
      next, and every row accepted. */
  lemma ProgressStart(q: ListParams)
    ensures Progress(q, {}, "WHERE 1=1", [], [], 1)
  {
  }

  /** Once all five filters are handled, the builder's state is the
      complete WHERE clause for the parameters. */
  lemma BuildComplete(q: ListParams, done: set<Filter>, whereClause: string, clauses: seq<Clause>, values: seq<SqlValue>, idx: nat)
    requires done == {CityFilter, SexFilter, AgeMinFilter, AgeMaxFilter, SearchFilter}
    requires Progress(q, done, whereClause, clauses, values, idx)
    ensures Numbered(clauses, values, idx)
    ensures whereClause == RenderWhere(clauses)
    ensures UsedFilters(clauses) == SuppliedFilters(q)
    ensures Binds(clauses, values, q)
    ensures SuppliedFilters(q) == {} ==> whereClause == "WHERE 1=1" && values == []
    ensures NoNaN(values) <==> BoundsAreNumbers(q)
    ensures NoNaN(values) ==> forall row :: AllHold(clauses, values, row) <==> Matches(row, ServerCriteria(q))
  {
    assert PartialCriteria(q, done) == ServerCriteria(q);
    NumbersIffNoNaNBound(q, done);
  }

  // -------------------------------------------------------- sort and page

  /** The columns the handler accepts for ORDER BY. */
  const AllowedOrderFields: seq<string> := ["city", "sex", "age", "created_at"]

  /** The ORDER BY column: `sortBy` when it is on the allow-list, otherwise
      (absent or anything else) `created_at`. Only allow-listed text ever
      reaches the SQL. */
  function OrderField(sortBy: Option<string>): (r: Column)
    ensures ColumnName(r) in AllowedOrderFields
    ensures sortBy.Some? && sortBy.value in AllowedOrderFields ==> ColumnName(r) == sortBy.value
    ensures !(sortBy.Some? && sortBy.value in AllowedOrderFields) ==> r == CreatedAtCol
  {
    var s := sortBy.GetOr("created_at");
    if s == "city" then CityCol
    else if s == "sex" then SexCol
    else if s == "age" then AgeCol
    else CreatedAtCol
  }

  /** Ascending exactly for `sortOrder=asc`; descending otherwise, including
      when it is absent. */
  function OrderDirection(sortOrder: Option<string>): (r: SortOrder)
    ensures r == Asc <==> sortOrder == Some("asc")
  {
    if sortOrder.GetOr("desc") == "asc" then Asc else Desc
  }

  function DirectionSql(d: SortOrder): string {
    if d == Asc then "ASC" else "DESC"
  }

  /** `Number(p)` for a paging parameter, with its default when absent. */
  function NumberParam(p: Option<string>, default: int): Option<int> {
    match p
    case None => Some(default)
    case Some(s) => ToNumber(s)
  }

  function PageNumber(q: ListParams): Option<int> {
    NumberParam(q.page, 1)
  }

  function PageLimit(q: ListParams): Option<int> {
    NumberParam(q.limit, 10)
  }

  /** `(Number(page) - 1) * Number(limit)`, NaN (None) when either is. */
  function PageOffset(q: ListParams): Option<int> {
    if PageNumber(q).Some? && PageLimit(q).Some?
    then Some((PageNumber(q).value - 1) * PageLimit(q).value)
    else None
  }

  /** Without paging parameters the first ten rows are asked for. */
  lemma DefaultPaging(q: ListParams)
    requires q.page.None? && q.limit.None?
    ensures PageLimit(q) == Some(10) && PageOffset(q) == Some(0) && PageNumber(q) == Some(1)
  {
  }

  /** Page `n` of size `limit`, both written as decimals, starts at row
      `(n - 1) * limit`. */
  lemma PagingOfDecimals(q: ListParams, n: nat, limit: nat)
    requires q.page == Some(NatToString(n)) && q.limit == Some(NatToString(limit))
    ensures PageNumber(q) == Some(n) && PageLimit(q) == Some(limit)
    ensures PageOffset(q) == Some((n - 1) * limit)
  {
    ToNumberOfNat(n);
    ToNumberOfNat(limit);
  }

  // ------------------------------------------------------------ the store

  /** Why the store rejects a query: a NaN parameter, or a negative LIMIT or
      OFFSET. The handler answers each with status 500. */
  datatype StoreError = InvalidNumber | NegativeLimit | NegativeOffset

  /** `SELECT COUNT(*) FROM confessions <where>`. */
  function RunCount(table: seq<Confession>, cs: seq<Clause>, values: seq<SqlValue>): Result<nat, StoreError> {
    if !NoNaN(values) then Err(InvalidNumber) else Ok(|Where(table, cs, values)|)
  }

  /** `SELECT * ... <where> ORDER BY <col> <dir> LIMIT $l OFFSET $o`; rows
      that tie on the column keep their table order. */
  function RunData(
    table: seq<Confession>, cs: seq<Clause>, col: Column, dir: SortOrder,
    values: seq<SqlValue>, limitParam: nat, offsetParam: nat): Result<seq<Confession>, StoreError>
  {
    if !NoNaN(values) then Err(InvalidNumber)
    else
      var l := ValueAt(values, limitParam);
      var o := ValueAt(values, offsetParam);
      if l.None? || !l.value.Num? || l.value.n.None? || o.None? || !o.value.Num? || o.value.n.None? then Err(InvalidNumber)
      else if l.value.n.value < 0 then Err(NegativeLimit)
      else if o.value.n.value < 0 then Err(NegativeOffset)
      else Ok(Window(SortRows(Where(table, cs, values), col, dir), o.value.n.value, l.value.n.value))
  }

  /** The text of the data query (white space normalised). */
  function DataSql(whereClause: string, col: Column, dir: SortOrder, limitParam: nat): string {
    "SELECT * FROM confessions " + whereClause
    + " ORDER BY " + ColumnName(col) + " " + DirectionSql(dir)
    + " LIMIT $" + NatToString(limitParam) + " OFFSET $" + NatToString(limitParam + 1)
  }

  // ------------------------------------------------------------ audio URL

  function AudioUrl(protocol: string, host: string, path: string): string {
    protocol + "://" + host + "/uploads/" + path
  }

  function WithAudioUrl(row: Confession, protocol: string, host: string): ListedConfession {
    if Truthy(row.audioPath) then Listed(row, Some(AudioUrl(protocol, host, row.audioPath.value)))
    else Listed(row, None)
  }

  /** The rows in the same order, each unchanged, with a playback URL added
      exactly to those whose audio path is set. */
  function AddAudioUrls(rows: seq<Confession>, protocol: string, host: string): (r: seq<ListedConfession>)
    ensures |r| == |rows|
    ensures forall i :: 0 <= i < |rows| ==> r[i].row == rows[i]
    ensures forall i :: 0 <= i < |rows| ==> (r[i].audioUrl.Some? <==> Truthy(rows[i].audioPath))
    ensures forall i :: 0 <= i < |rows| && Truthy(rows[i].audioPath) ==>
      r[i].audioUrl == Some(AudioUrl(protocol, host, rows[i].audioPath.value))
  {
    seq(|rows|, i requires 0 <= i < |rows| => WithAudioUrl(rows[i], protocol, host))
  }

  // ------------------------------------------------- GET /api/confessions

  /** The parameters the store accepts: both age bounds and the paging
      parameters are numbers, and LIMIT and OFFSET are not negative. */
  predicate Servable(q: ListParams) {
    && BoundsAreNumbers(q)
    && PageLimit(q).Some? && PageOffset(q).Some?
    && PageLimit(q).value >= 0 && PageOffset(q).value >= 0
  }

  /** The page the handler answers with for servable parameters. */
  function ExpectedPage(table: seq<Confession>, q: ListParams, protocol: string, host: string): PaginationData
    requires Servable(q)
  {
    var matching := Select(table, ServerCriteria(q));
    var limit := PageLimit(q).value;
    var sorted := SortRows(matching, OrderField(q.sortBy), OrderDirection(q.sortOrder));
    PaginationData(
      AddAudioUrls(Window(sorted, PageOffset(q).value, limit), protocol, host),
      CeilDiv(|matching|, limit), PageNumber(q).value, |matching|)
  }

  /** The count query counts the rows the criteria select, unless a bound
      value is NaN. */
  lemma CountIsSelect(table: seq<Confession>, cs: seq<Clause>, vs: seq<SqlValue>, f: Criteria)
    requires NoNaN(vs) ==> forall row :: AllHold(cs, vs, row) <==> Matches(row, f)
    ensures RunCount(table, cs, vs) == if NoNaN(vs) then Ok(|Select(table, f)|) else Err(InvalidNumber)
  {
    if NoNaN(vs) {
      WhereIsSelect(table, cs, vs, f);
    }
  }

  /** The data query, with LIMIT and OFFSET bound after the filter values,
      returns the window of the selected rows in the requested order, or
      the store's objection to its parameters. */
  lemma DataIsWindow(
    table: seq<Confession>, cs: seq<Clause>, vs: seq<SqlValue>, f: Criteria,
    col: Column, dir: SortOrder, limit: Option<int>, offset: Option<int>)
    requires Numbered(cs, vs, |vs| + 1)
    requires NoNaN(vs) ==> forall row :: AllHold(cs, vs, row) <==> Matches(row, f)
    ensures RunData(table, cs, col, dir, vs + [Num(limit), Num(offset)], |vs| + 1, |vs| + 2)
      == if !NoNaN(vs) || limit.None? || offset.None? then Err(InvalidNumber)
         else if limit.value < 0 then Err(NegativeLimit)
         else if offset.value < 0 then Err(NegativeOffset)
         else Ok(Window(SortRows(Select(table, f), col, dir), offset.value, limit.value))
  {
    var extra := [Num(limit), Num(offset)];
    var values := vs + extra;
    NoNaNAppend(vs, extra);
    assert NoNaN(extra) <==> limit.Some? && offset.Some? by {
      assert extra[0] == Num(limit) && extra[1] == Num(offset);
    }
    assert ValueAt(values, |vs| + 1) == Some(Num(limit));
    assert ValueAt(values, |vs| + 2) == Some(Num(offset));
    if NoNaN(values) {
      WhereExtend(table, cs, vs, extra);
      WhereIsSelect(table, cs, vs, f);
    }
  }

  /** GET /api/confessions: builds the WHERE clause, counts the matching
      rows, then asks for one ordered page of them with LIMIT and OFFSET
      bound after the filter values, and adds the playback URLs. The answer
      is a page exactly when the store accepts the parameters, and then it
      is the requested window of the matching rows in the requested order,
      with their count and the page count; otherwise it is the store's
      error (status 500). */
  method GetConfessions(table: seq<Confession>, q: ListParams, protocol: string, host: string)
    returns (response: Result<PaginationData, StoreError>, countSql: string, dataSql: string,
             clauses: seq<Clause>, values: seq<SqlValue>)
    ensures |values| >= 2
    ensures Numbered(clauses, values[..|values| - 2], |values| - 1)
    ensures values[|values| - 2..] == [Num(PageLimit(q)), Num(PageOffset(q))]
    ensures countSql == "SELECT COUNT(*) FROM confessions " + RenderWhere(clauses)
    ensures dataSql == DataSql(RenderWhere(clauses), OrderField(q.sortBy), OrderDirection(q.sortOrder), |values| - 1)
    ensures response.Ok? <==> Servable(q)
    ensures response.Ok? ==> response.value == ExpectedPage(table, q, protocol, host)
  {
    var whereClause, cs, vs, idx := BuildWhere(q);
    clauses := cs;
    countSql := "SELECT COUNT(*) FROM confessions " + whereClause;
    var countResult := RunCount(table, cs, vs);
    CountIsSelect(table, cs, vs, ServerCriteria(q));

    var page := PageNumber(q);
    var limit := PageLimit(q);
    var offset := if page.Some? && limit.Some? then Some((page.value - 1) * limit.value) else None;
    var field := OrderField(q.sortBy);
    var direction := OrderDirection(q.sortOrder);
    dataSql := "SELECT * FROM confessions " + whereClause
      + " ORDER BY " + ColumnName(field) + " " + DirectionSql(direction)
      + " LIMIT $" + NatToString(idx) + " OFFSET $" + NatToString(idx + 1);
    values := vs + [Num(limit), Num(offset)];
    assert values[..|values| - 2] == vs;
    DataIsWindow(table, cs, vs, ServerCriteria(q), field, direction, limit, offset);

    if countResult.Err? {
      response := Err(countResult.error);
      return;
    }
    var total := countResult.value;
    var dataResult := RunData(table, cs, field, direction, values, idx, idx + 1);
    if dataResult.Err? {
      response := Err(dataResult.error);
      return;
    }
    var totalPages := CeilDiv(total, limit.value);
    response := Ok(PaginationData(AddAudioUrls(dataResult.value, protocol, host), totalPages, page.value, total));
  }

  /** Every row of a page is a stored row that passes the filters, and a
      page never holds more rows than the limit. */
  lemma PageRowsMatch(table: seq<Confession>, q: ListParams, protocol: string, host: string)
    requires Servable(q)
    ensures |ExpectedPage(table, q, protocol, host).confessions| <= PageLimit(q).value
    ensures forall x :: x in ExpectedPage(table, q, protocol, host).confessions ==>
      x.row in table && Matches(x.row, ServerCriteria(q))
  {
    var page := ExpectedPage(table, q, protocol, host);
    var matching := Select(table, ServerCriteria(q));
    var sorted := SortRows(matching, OrderField(q.sortBy), OrderDirection(q.sortOrder));
    var window := Window(sorted, PageOffset(q).value, PageLimit(q).value);
    forall x | x in page.confessions
      ensures x.row in table && Matches(x.row, ServerCriteria(q))
    {
      var i :| 0 <= i < |page.confessions| && page.confessions[i] == x;
      assert x.row == window[i];
      assert window[i] in multiset(sorted);
    }
  }

  /** Pages past the last start at or after the end of the rows. */
  lemma OffsetPastEnd(n: nat, page: int, limit: int)
    requires limit > 0 && page > CeilDiv(n, limit).value
    ensures (page - 1) * limit >= n
  {
    var k := CeilDiv(n, limit).value;
    CeilDivBounds(n, limit);
    assert n <= k * limit;
    assert (page - 1) * limit == (page - 1 - k) * limit + k * limit;
    assert (page - 1 - k) * limit >= 0 by {
      Helpers.MulNonNegative(page - 1 - k, limit);
    }
  }

  /** A page after the last one is empty, while the count is unchanged. */
  lemma PagePastLast(table: seq<Confession>, q: ListParams, protocol: string, host: string)
    requires Servable(q) && PageLimit(q).value > 0
    requires PageNumber(q).value > CeilDiv(|Select(table, ServerCriteria(q))|, PageLimit(q).value).value
    ensures ExpectedPage(table, q, protocol, host).confessions == []
    ensures ExpectedPage(table, q, protocol, host).total == |Select(table, ServerCriteria(q))|
  {
    var matching := Select(table, ServerCriteria(q));
    var sorted := SortRows(matching, OrderField(q.sortBy), OrderDirection(q.sortOrder));
    var page, limit := PageNumber(q).value, PageLimit(q).value;
    assert PageOffset(q).value == (page - 1) * limit;
    WindowPastLast(matching, sorted, page, limit, PageOffset(q).value, protocol, host);
  }

  /** The window of a page after the last one of a reordering of `matching`
      is empty. */
  lemma WindowPastLast(
    matching: seq<Confession>, sorted: seq<Confession>, page: int, limit: int, offset: nat,
    protocol: string, host: string)
    requires multiset(sorted) == multiset(matching)
    requires limit > 0 && page > CeilDiv(|matching|, limit).value && offset == (page - 1) * limit
    ensures AddAudioUrls(Window(sorted, offset, limit), protocol, host) == []
  {
    assert |sorted| == |matching| by {
      assert |multiset(sorted)| == |multiset(matching)|;
    }
    OffsetPastEnd(|sorted|, page, limit);
  }

  /** The server's page for given page and limit is the client's
      `paginateArray` page of the same ordered list. */
  lemma PageAgreesWithClient(table: seq<Confession>, q: ListParams, protocol: string, host: string)
    requires Servable(q) && PageNumber(q).value >= 1
    ensures ExpectedPage(table, q, protocol, host).confessions
      == AddAudioUrls(
           Helpers.PaginateArray(
             SortRows(Select(table, ServerCriteria(q)), OrderField(q.sortBy), OrderDirection(q.sortOrder)),
             PageNumber(q).value, PageLimit(q).value).items,
           protocol, host)
  {
    var sorted := SortRows(Select(table, ServerCriteria(q)), OrderField(q.sortBy), OrderDirection(q.sortOrder));
    var page := PageNumber(q).value;
    var limit := PageLimit(q).value;
    assert PageOffset(q).value == (page - 1) * limit;
    Helpers.PaginateIsWindow(sorted, page, limit);
  }

  // ---------------------------------------------------- POST /api/confessions

  /** The form fields of a submission; an absent field is None. */
  datatype PostBody = PostBody(city: Option<string>, sex: Option<string>, age: Option<string>, description: Option<string>)

  /** The stored upload of a voice submission. */
  datatype UploadedFile = UploadedFile(path: string)

  /** An INSERT: the column list and the bound values (None is NULL). */
  datatype InsertStatement = InsertStatement(columns: seq<string>, values: seq<Option<string>>)

  /** The value an INSERT binds to `column`, if it names the column. */
  function ColumnValue(ins: InsertStatement, column: string): Option<Option<string>>
    requires |ins.columns| == |ins.values|
    decreases |ins.columns|
  {
    if ins.columns == [] then None
    else if ins.columns[0] == column then Some(ins.values[0])
    else ColumnValue(InsertStatement(ins.columns[1..], ins.values[1..]), column)
  }

  lemma {:induction false} ColumnValueAt(ins: InsertStatement, column: string, i: nat)
    requires |ins.columns| == |ins.values| && i < |ins.columns| && ins.columns[i] == column
    requires forall j :: 0 <= j < i ==> ins.columns[j] != column
    ensures ColumnValue(ins, column) == Some(ins.values[i])
    decreases i
  {
    if i > 0 {
      ColumnValueAt(InsertStatement(ins.columns[1..], ins.values[1..]), column, i - 1);
    }
  }

  lemma {:induction false} ColumnValueAbsent(ins: InsertStatement, column: string)
    requires |ins.columns| == |ins.values| && column !in ins.columns
    ensures ColumnValue(ins, column) == None
    decreases |ins.columns|
  {
    if ins.columns != [] {
      ColumnValueAbsent(InsertStatement(ins.columns[1..], ins.values[1..]), column);
    }
  }

  /** The INSERT of POST /api/confessions. With an upload the description
      is never NULL (an absent or empty one is stored as "") and the upload's
      path is stored; without one the description is stored as given and
      no audio path is written. */
  function InsertFor(body: PostBody, file: Option<UploadedFile>): (r: InsertStatement)
    ensures |r.columns| == |r.values|
    ensures ColumnValue(r, "city") == Some(body.city)
    ensures ColumnValue(r, "sex") == Some(body.sex)
    ensures ColumnValue(r, "age") == Some(body.age)
    ensures file.Some? ==> ColumnValue(r, "audio_path") == Some(Some(file.value.path))
    ensures file.Some? ==> ColumnValue(r, "description") == Some(Some(if Truthy(body.description) then body.description.value else ""))
    ensures file.None? ==> ColumnValue(r, "audio_path") == None
    ensures file.None? ==> ColumnValue(r, "description") == Some(body.description)
  {
    match file
    case Some(f) =>
      var safeDesc := if Truthy(body.description) then body.description.value else "";
      var r := InsertStatement(["city", "sex", "age", "description", "audio_path"],
        [body.city, body.sex, body.age, Some(safeDesc), Some(f.path)]);
      ColumnValueAt(r, "city", 0);
      ColumnValueAt(r, "sex", 1);
      ColumnValueAt(r, "age", 2);
      ColumnValueAt(r, "description", 3);
      ColumnValueAt(r, "audio_path", 4);
      r
    case None =>
      var r := InsertStatement(["city", "sex", "age", "description"], [body.city, body.sex, body.age, body.description]);
      ColumnValueAt(r, "city", 0);
      ColumnValueAt(r, "sex", 1);
      ColumnValueAt(r, "age", 2);
      ColumnValueAt(r, "description", 3);
      ColumnValueAbsent(r, "audio_path");
      r
  }

  /** A voice submission never stores a NULL description. */
  lemma VoiceDescriptionNotNull(body: PostBody, f: UploadedFile)
    ensures ColumnValue(InsertFor(body, Some(f)), "description").Some?
    ensures ColumnValue(InsertFor(body, Some(f)), "description").value.Some?
  {
  }

  // ---------------------------------------------------- GET /api/file/:name

  /** An absolute path as its list of segments: `/srv/app` is
      `["srv", "app"]` and the root is `[]`. */
  type Path = seq<string>

  /** The outcomes of the file route: 400, 404, the file, or an exception
      that nothing catches (no response is sent). */
  datatype FileResponse = BadRequest(error: string) | NotFound(error: string) | SendFile(path: Path) | Uncaught(error: string)

  predicate HasSeparator(name: string) {
    '/' in name || '\\' in name
  }

  /** `path.join(dir, name)` for a name without separators: "" and "."
      name the directory itself, ".." its parent (the root is its own
      parent), and any other name the entry directly inside it. */
  function JoinPath(dir: Path, name: string): (r: Path)
    requires !HasSeparator(name)
    ensures name != "" && name != "." && name != ".." ==> r == dir + [name]
    ensures name == "" || name == "." ==> r == dir
    ensures name == ".." ==> r == if dir == [] then [] else dir[..|dir| - 1]
  {
    if name == "" || name == "." then dir
    else if name == ".." then (if dir == [] then [] else dir[..|dir| - 1])
    else dir + [name]
  }

  /** `p` lies strictly below the directory `dir`. */
  predicate Inside(p: Path, dir: Path) {
    |p| > |dir| && p[..|dir|] == dir
  }

  /** The route as written: after the separator guard it calls
      `fs.existsSync`, but `fs` is never imported, so every name that passes
      the guard ends in a ReferenceError. */
  function FileRouteAsWritten(cwd: Path, filename: string): (r: FileResponse)
    ensures r.BadRequest? <==> HasSeparator(filename)
    ensures !HasSeparator(filename) ==> r.Uncaught?
  {
    if HasSeparator(filename) then BadRequest("Invalid filename")
    else Uncaught("fs is not defined")
  }

  /** As written, the route never sends a file: not even an existing
      recording such as `1700000000000-confession.webm`. */
  lemma FileRouteAsWrittenNeverServes(cwd: Path, filename: string)
    ensures !FileRouteAsWritten(cwd, filename).SendFile?
    ensures FileRouteAsWritten(cwd, "1700000000000-confession.webm") == Uncaught("fs is not defined")
  {
    assert !HasSeparator("1700000000000-confession.webm");
  }

  /** The route with `fs` imported and the guard as written: a name with a
      separator is refused, a path that does not exist is 404, and
      otherwise `path.join(cwd, filename)` is sent. `fileExists` is the
      file system's answer. */
  function FileRoute(cwd: Path, filename: string, fileExists: Path -> bool): (r: FileResponse)
    ensures r.BadRequest? <==> HasSeparator(filename)
    ensures r.NotFound? <==> !HasSeparator(filename) && !fileExists(JoinPath(cwd, filename))
    ensures r.SendFile? <==> !HasSeparator(filename) && fileExists(JoinPath(cwd, filename))
    ensures r.SendFile? ==> r.path == JoinPath(cwd, filename) && fileExists(r.path)
    ensures !r.Uncaught?
  {
    if HasSeparator(filename) then BadRequest("Invalid filename")
    else
      var filePath := JoinPath(cwd, filename);
      if !fileExists(filePath) then NotFound("File not found") else SendFile(filePath)
  }

  /** The separator guard does not stop "..": `path.join` resolves it to
      the parent of the working directory, which exists, so the route sends
      a path outside the working directory. */
  lemma FileRouteEscapesWithDotDot(cwd: Path, fileExists: Path -> bool)
    requires cwd != [] && fileExists(cwd[..|cwd| - 1])
    ensures FileRoute(cwd, "..", fileExists) == SendFile(cwd[..|cwd| - 1])
    ensures !Inside(FileRoute(cwd, "..", fileExists).path, cwd)
  {
    assert !HasSeparator("..");
  }

  /** A name the route can serve: not empty, not "." or "..", and without
      a separator. */
  predicate PlainName(name: string) {
    name != "" && name != "." && name != ".." && !HasSeparator(name)
  }

  /** The route as its guard intends it: every name that is not a plain
      file name is refused with 400; the rest is as in `FileRoute`. */
  function SafeFileRoute(cwd: Path, filename: string, fileExists: Path -> bool): (r: FileResponse)
    ensures r.BadRequest? <==> !PlainName(filename)
    ensures r.NotFound? <==> PlainName(filename) && !fileExists(cwd + [filename])
    ensures r.SendFile? <==> PlainName(filename) && fileExists(cwd + [filename])
    ensures !r.Uncaught?
  {
    if !PlainName(filename) then BadRequest("Invalid filename")
    else
      var filePath := JoinPath(cwd, filename);
      if !fileExists(filePath) then NotFound("File not found") else SendFile(filePath)
  }

  /** For a plain name the corrected guard changes nothing. */
  lemma SafeFileRouteOnPlainNames(cwd: Path, filename: string, fileExists: Path -> bool)
    requires PlainName(filename)
    ensures SafeFileRoute(cwd, filename, fileExists) == FileRoute(cwd, filename, fileExists)
  {
  }

  /** With the corrected guard, a sent file is an existing entry directly
      inside the working directory, named by the request. */
  lemma FileRouteStaysInDirectory(cwd: Path, filename: string, fileExists: Path -> bool)
    requires SafeFileRoute(cwd, filename, fileExists).SendFile?
    ensures var p := SafeFileRoute(cwd, filename, fileExists).path;
      && fileExists(p)
      && Inside(p, cwd) && |p| == |cwd| + 1
      && p[|cwd|] == filename && PlainName(p[|cwd|])
  {
    var p := SafeFileRoute(cwd, filename, fileExists).path;
    assert p == cwd + [filename];
  }
}
