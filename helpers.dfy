/** The client's list helpers (src/utils/helpers.ts): truncating a text for a
    card, and filtering, sorting and paginating a list of confessions in the
    browser. Each is a pure function of its arguments. */
module Helpers {
  import opened Wrappers
  import opened Text
  import opened Types
  import opened Query

  // ------------------------------------------------------------- truncate

  /** The default `maxLength` of `truncateText`. */
  const DefaultMaxLength: int := 150

  function Max(a: int, b: int): int {
    if a >= b then a else b
  }

  /** `truncateText(text, maxLength)`: a text that fits is returned as it
      is; a longer one is cut to its first `maxLength` characters (none when
      `maxLength` is negative, as `substring` clamps) followed by "...". */
  function TruncateText(text: string, maxLength: int): (r: string)
    ensures |text| <= maxLength ==> r == text
    ensures |text| > maxLength ==>
      && |r| == Max(maxLength, 0) + 3
      && r[..|r| - 3] == text[..|r| - 3]
      && r[|r| - 3..] == "..."
  {
    if |text| <= maxLength then text else text[..Max(maxLength, 0)] + "..."
  }

  /** With the default limit, `truncateText` returns at most 153
      characters, and a text of at most 150 characters is returned whole. */
  lemma TruncateDefault(text: string)
    ensures |TruncateText(text, DefaultMaxLength)| <= 153
    ensures |text| <= 150 ==> TruncateText(text, DefaultMaxLength) == text
  {
  }

  // --------------------------------------------------------------- filter

  /** An age bound as the filter uses it: the empty string means none, and
      a text `parseInt` cannot read is NaN, which no comparison excludes. */
  function AgeBound(s: string): Option<int> {
    if s == "" then None else ParseInt(s)
  }

  function SexFilterText(sex: Option<Sex>): string {
    match sex
    case None => ""
    case Some(s) => SexName(s)
  }

  /** The filter bar's state read as criteria. */
  function ClientCriteria(f: SearchFilters): Criteria {
    Criteria(f.city, SexFilterText(f.sex), AgeBound(f.ageMin), AgeBound(f.ageMax), f.search)
  }

  /** `filterConfessions(confessions, filters)`: the confessions that pass
      every supplied filter, as a subsequence of the input in its order. */
  function FilterConfessions(cs: seq<Confession>, filters: SearchFilters): (r: seq<Confession>)
    ensures IsSubsequence(r, cs)
    ensures forall x :: x in r <==> x in cs && Matches(x, ClientCriteria(filters))
  {
    SelectIsSubsequence(cs, ClientCriteria(filters));
    Select(cs, ClientCriteria(filters))
  }

  /** A confession that passes the filters is kept as often as it occurs
      in the input; one that fails them is not kept at all. */
  lemma FilterKeepsCounts(cs: seq<Confession>, filters: SearchFilters)
    ensures forall x :: multiset(FilterConfessions(cs, filters))[x] == (if Matches(x, ClientCriteria(filters)) then multiset(cs)[x] else 0)
  {
    SelectCounts(cs, ClientCriteria(filters));
  }

  /** Each kept confession satisfies each supplied filter, spelled out:
      case-insensitive city substring, exact gender, inclusive age bounds
      (when they parse), and the search term in the city or description. */
  lemma FilterKeptSatisfies(cs: seq<Confession>, filters: SearchFilters, x: Confession)
    requires x in FilterConfessions(cs, filters)
    ensures x in cs
    ensures filters.city != "" ==> Contains(Lower(x.city), Lower(filters.city))
    ensures filters.sex.Some? ==> x.sex == filters.sex.value
    ensures filters.ageMin != "" && ParseInt(filters.ageMin).Some? ==> x.age >= ParseInt(filters.ageMin).value
    ensures filters.ageMax != "" && ParseInt(filters.ageMax).Some? ==> x.age <= ParseInt(filters.ageMax).value
    ensures filters.search != "" ==>
      || Contains(Lower(x.city), Lower(filters.search))
      || (x.description.Some? && Contains(Lower(x.description.value), Lower(filters.search)))
  {
    if filters.sex.Some? {
      match filters.sex.value
      case Male =>
      case Female =>
      case Other =>
    }
  }

  /** With every filter field empty, the whole input is returned. */
  lemma FilterNoFilters(cs: seq<Confession>, filters: SearchFilters)
    requires filters.city == "" && filters.sex.None? && filters.ageMin == ""
    requires filters.ageMax == "" && filters.search == ""
    ensures FilterConfessions(cs, filters) == cs
  {
    assert ClientCriteria(filters) == NoCriteria;
    SelectNoCriteria(cs);
  }

  /** Two criteria that accept the same rows select the same subsequence. */
  lemma {:induction false} SelectSameMatches(s: seq<Confession>, f: Criteria, g: Criteria)
    requires forall x :: Matches(x, f) == Matches(x, g)
    ensures Select(s, f) == Select(s, g)
  {
    if s != [] {
      SelectSameMatches(s[1..], f, g);
    }
  }

  /** A lower bound that `parseInt` reads as NaN filters nothing: the result
      is the same as with the bound left empty. */
  lemma FilterIgnoresNaNMinimum(cs: seq<Confession>, filters: SearchFilters)
    requires ParseInt(filters.ageMin).None?
    ensures FilterConfessions(cs, filters) == FilterConfessions(cs, filters.(ageMin := ""))
  {
    SelectSameMatches(cs, ClientCriteria(filters), ClientCriteria(filters.(ageMin := "")));
  }

  /** The same for an upper bound. */
  lemma FilterIgnoresNaNMaximum(cs: seq<Confession>, filters: SearchFilters)
    requires ParseInt(filters.ageMax).None?
    ensures FilterConfessions(cs, filters) == FilterConfessions(cs, filters.(ageMax := ""))
  {
    SelectSameMatches(cs, ClientCriteria(filters), ClientCriteria(filters.(ageMax := "")));
  }

  // ----------------------------------------------------------------- sort

  function KeyColumn(k: SortKey): Column {
    match k
    case CreatedAtKey => CreatedAtCol
    case AgeKey => AgeCol
    case CityKey => CityCol
  }

  /** `sortConfessions(confessions, sortBy, sortOrder)`: a sorted copy, so a
      permutation of the input in which every pair is in order (ascending,
      or descending through the negated comparison). The input itself, a
      value, is left as it was. */
  function SortConfessions(cs: seq<Confession>, sortBy: SortKey, sortOrder: SortOrder): (r: seq<Confession>)
    ensures multiset(r) == multiset(cs)
    ensures SortedBy(r, KeyColumn(sortBy), sortOrder)
  {
    SortRows(cs, KeyColumn(sortBy), sortOrder)
  }

  // ------------------------------------------------------------- paginate

  /** A page of an array, with the page count and the array's length. */
  datatype PageResult<T> = PageResult(items: seq<T>, totalPages: Option<int>, total: nat)

  /** An index argument of `Array.prototype.slice`: negative counts from
      the end; the result lies in 0..n. */
  function SliceIndex(i: int, n: nat): (r: nat)
    ensures r <= n
  {
    if i < 0 then Max(n + i, 0) else Min(i, n)
  }

  /** `array.slice(start, end)`. */
  function JsSlice<T>(s: seq<T>, start: int, end: int): seq<T> {
    var from := SliceIndex(start, |s|);
    var to := SliceIndex(end, |s|);
    if from < to then s[from..to] else []
  }

  /** A slice between two indices `limit` apart holds at most `limit`
      elements, whatever the sign of the start. */
  lemma JsSliceSpan<T>(s: seq<T>, start: int, limit: int)
    ensures limit >= 0 ==> |JsSlice(s, start, start + limit)| <= limit
  {
    var from := SliceIndex(start, |s|);
    var to := SliceIndex(start + limit, |s|);
    if from < to {
      assert |JsSlice(s, start, start + limit)| == to - from;
    }
  }

  /** `paginateArray(list, page, limit)`: never more than `limit` items
      when `limit` is not negative,
      the array's length as the total, and `Math.ceil(length / limit)` as
      the page count. */
  function PaginateArray<T>(list: seq<T>, page: int, limit: int): (r: PageResult<T>)
    ensures limit >= 0 ==> |r.items| <= limit
    ensures r.total == |list|
    ensures r.totalPages == CeilDiv(|list|, limit)
  {
    var startIndex := (page - 1) * limit;
    var endIndex := startIndex + limit;
    JsSliceSpan(list, startIndex, limit);
    PageResult(JsSlice(list, startIndex, endIndex), CeilDiv(|list|, limit), |list|)
  }

  /** For a page from 1 on, the items are exactly the LIMIT/OFFSET window
      the server returns for the same page: `array[(page-1)*limit ..
      min(page*limit, |list|)]`. */
  lemma PaginateIsWindow<T>(list: seq<T>, page: int, limit: int)
    requires page >= 1 && limit >= 0
    ensures (page - 1) * limit >= 0
    ensures PaginateArray(list, page, limit).items == Window(list, (page - 1) * limit, limit)
  {
    var start := (page - 1) * limit;
    assert start >= 0 by { MulNonNegative(page - 1, limit); }
  }

  lemma MulNonNegative(a: int, b: int)
    requires a >= 0 && b >= 0
    ensures a * b >= 0
  {
  }

  /** A page after the last one is empty. */
  lemma PaginatePastLastPage<T>(list: seq<T>, page: int, limit: int)
    requires limit > 0 && page > CeilDiv(|list|, limit).value
    ensures PaginateArray(list, page, limit).items == []
  {
    var k := CeilDiv(|list|, limit).value;
    CeilDivBounds(|list|, limit);
    assert |list| <= k * limit;
    assert (page - 1) * limit >= k * limit by {
      MulNonNegative(page - 1 - k, limit);
      assert (page - 1) * limit == (page - 1 - k) * limit + k * limit;
    }
  }
}
