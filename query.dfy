/** What a list query means, independently of who evaluates it: the filter
    predicate (shared by the client's `filterConfessions` and the server's
    WHERE clause), the order-preserving selection, the sort by one
    column, the LIMIT/OFFSET window and the page count. */
module Query {
  import opened Wrappers
  import opened Text
  import opened Types

  // --------------------------------------------------------------- filter

  /** The supplied filters after coercion. Empty strings and None mean "not
      supplied"; an age bound that did not parse as a number is None too. */
  datatype Criteria = Criteria(city: string, sex: string, ageMin: Option<int>, ageMax: Option<int>, search: string)

  const NoCriteria := Criteria("", "", None, None, "")

  /** Case-insensitive substring match of the city. */
  predicate CityOk(c: Confession, city: string) {
    city == "" || Contains(Lower(c.city), Lower(city))
  }

  /** Exact match of the gender's name. */
  predicate SexOk(c: Confession, sex: string) {
    sex == "" || SexName(c.sex) == sex
  }

  predicate AgeAtLeastOk(c: Confession, bound: Option<int>) {
    bound.None? || c.age >= bound.value
  }

  predicate AgeAtMostOk(c: Confession, bound: Option<int>) {
    bound.None? || c.age <= bound.value
  }

  /** The search term occurs, case-insensitively, in the city OR in the
      description; a missing description never matches. */
  predicate SearchOk(c: Confession, term: string) {
    term == ""
    || Contains(Lower(c.city), Lower(term))
    || (c.description.Some? && Contains(Lower(c.description.value), Lower(term)))
  }

  /** The filter predicate: the conjunction of every supplied filter. */
  predicate Matches(c: Confession, f: Criteria) {
    && CityOk(c, f.city)
    && SexOk(c, f.sex)
    && AgeAtLeastOk(c, f.ageMin)
    && AgeAtMostOk(c, f.ageMax)
    && SearchOk(c, f.search)
  }

  /** The rows of `s` that satisfy `f`, in their original order. */
  function Select(s: seq<Confession>, f: Criteria): (r: seq<Confession>)
    ensures |r| <= |s|
    ensures forall x :: x in r <==> x in s && Matches(x, f)
  {
    if s == [] then [] else (if Matches(s[0], f) then [s[0]] else []) + Select(s[1..], f)
  }

  /** The selection keeps each matching row as many times as it occurs in
      `s`, and no other row. */
  lemma {:induction false} SelectCounts(s: seq<Confession>, f: Criteria)
    ensures forall x :: multiset(Select(s, f))[x] == if Matches(x, f) then multiset(s)[x] else 0
  {
    if s != [] {
      SelectCounts(s[1..], f);
      assert s == [s[0]] + s[1..];
    }
  }

  /** `a` is obtained from `b` by deleting elements. */
  predicate IsSubsequence<T(==)>(a: seq<T>, b: seq<T>) {
    if a == [] then true
    else if b == [] then false
    else if a[0] == b[0] then IsSubsequence(a[1..], b[1..])
    else IsSubsequence(a, b[1..])
  }

  lemma {:induction false} SelectIsSubsequence(s: seq<Confession>, f: Criteria)
    ensures IsSubsequence(Select(s, f), s)
  {
    if s != [] {
      SelectIsSubsequence(s[1..], f);
      if Matches(s[0], f) {
        assert Select(s, f) == [s[0]] + Select(s[1..], f);
        assert Select(s, f)[1..] == Select(s[1..], f);
      } else {
        assert Select(s, f) == Select(s[1..], f);
        SubsequenceDrop(Select(s[1..], f), s[1..], s[0]);
      }
    }
  }

  lemma {:induction false} SubsequenceDrop<T>(a: seq<T>, b: seq<T>, y: T)
    requires IsSubsequence(a, b)
    ensures IsSubsequence(a, [y] + b)
    decreases |b|, 1
  {
    var yb := [y] + b;
    assert yb[1..] == b;
    if a != [] && a[0] == y {
      // a[1..] is a subsequence of a, which is a subsequence of b
      SubsequenceTail(a, b);
    }
  }

  lemma {:induction false} SubsequenceTail<T>(a: seq<T>, b: seq<T>)
    requires a != [] && IsSubsequence(a, b)
    ensures IsSubsequence(a[1..], b)
    decreases |b|, 0
  {
    if b != [] {
      if a[0] == b[0] {
        SubsequenceDrop(a[1..], b[1..], b[0]);
        assert [b[0]] + b[1..] == b;
      } else {
        SubsequenceTail(a, b[1..]);
        SubsequenceDrop(a[1..], b[1..], b[0]);
        assert [b[0]] + b[1..] == b;
      }
    }
  }

  /** When every row satisfies the filter, nothing is dropped. */
  lemma {:induction false} SelectAllMatching(s: seq<Confession>, f: Criteria)
    requires forall x :: x in s ==> Matches(x, f)
    ensures Select(s, f) == s
  {
    if s != [] {
      SelectAllMatching(s[1..], f);
      assert [s[0]] + s[1..] == s;
    }
  }

  /** Without any supplied filter, every row is kept. */
  lemma SelectNoCriteria(s: seq<Confession>)
    ensures Select(s, NoCriteria) == s
  {
    SelectAllMatching(s, NoCriteria);
  }

  // ----------------------------------------------------------------- sort

  /** The columns a list can be ordered by. */
  datatype Column = CityCol | SexCol | AgeCol | CreatedAtCol

  function ColumnName(c: Column): string {
    match c
    case CityCol => "city"
    case SexCol => "sex"
    case AgeCol => "age"
    case CreatedAtCol => "created_at"
  }

  /** `a` sorts no later than `b` by `col`, ascending. */
  predicate KeyLe(col: Column, a: Confession, b: Confession) {
    match col
    case CityCol => LexLe(a.city, b.city)
    case SexCol => LexLe(SexName(a.sex), SexName(b.sex))
    case AgeCol => a.age <= b.age
    case CreatedAtCol => a.createdAt <= b.createdAt
  }

  /** `a` may precede `b` in a list ordered by `col` in direction `order`:
      the comparison is negated for a descending order. */
  predicate Before(col: Column, order: SortOrder, a: Confession, b: Confession) {
    if order == Asc then KeyLe(col, a, b) else KeyLe(col, b, a)
  }

  lemma BeforeTotal(col: Column, order: SortOrder, a: Confession, b: Confession)
    ensures Before(col, order, a, b) || Before(col, order, b, a)
  {
    match col
    case CityCol => LexLeTotal(a.city, b.city);
    case SexCol => LexLeTotal(SexName(a.sex), SexName(b.sex));
    case AgeCol =>
    case CreatedAtCol =>
  }

  lemma BeforeTransitive(col: Column, order: SortOrder, a: Confession, b: Confession, c: Confession)
    requires Before(col, order, a, b) && Before(col, order, b, c)
    ensures Before(col, order, a, c)
  {
    match col
    case CityCol =>
      if order == Asc { LexLeTransitive(a.city, b.city, c.city); }
      else { LexLeTransitive(c.city, b.city, a.city); }
    case SexCol =>
      if order == Asc { LexLeTransitive(SexName(a.sex), SexName(b.sex), SexName(c.sex)); }
      else { LexLeTransitive(SexName(c.sex), SexName(b.sex), SexName(a.sex)); }
    case AgeCol =>
    case CreatedAtCol =>
  }

  /** Every pair of rows is in order. */
  predicate SortedBy(s: seq<Confession>, col: Column, order: SortOrder) {
    forall i, j :: 0 <= i < j < |s| ==> Before(col, order, s[i], s[j])
  }

  /** A row that may precede the head of a sorted list may precede all of it. */
  lemma BeforeAll(col: Column, order: SortOrder, x: Confession, s: seq<Confession>)
    requires SortedBy(s, col, order) && s != [] && Before(col, order, x, s[0])
    ensures forall z :: z in s ==> Before(col, order, x, z)
  {
    forall z | z in s
      ensures Before(col, order, x, z)
    {
      var j :| 0 <= j < |s| && s[j] == z;
      if j > 0 {
        BeforeTransitive(col, order, x, s[0], z);
      }
    }
  }

  /** A list whose head may precede every later row and whose tail is
      sorted, is sorted. */
  lemma SortedCons(col: Column, order: SortOrder, y: Confession, t: seq<Confession>)
    requires SortedBy(t, col, order)
    requires forall z :: z in t ==> Before(col, order, y, z)
    ensures SortedBy([y] + t, col, order)
  {
    var r := [y] + t;
    forall i, j | 0 <= i < j < |r|
      ensures Before(col, order, r[i], r[j])
    {
      if i > 0 {
        assert r[i] == t[i - 1] && r[j] == t[j - 1];
      } else {
        assert r[j] == t[j - 1] && r[j] in t;
      }
    }
  }

  /** Inserts `x` before the first row it may precede: rows that compare
      equal keep their relative order. */
  function Insert(x: Confession, s: seq<Confession>, col: Column, order: SortOrder): (r: seq<Confession>)
    requires SortedBy(s, col, order)
    ensures multiset(r) == multiset(s) + multiset{x}
    ensures SortedBy(r, col, order)
  {
    if s == [] then [x]
    else if Before(col, order, x, s[0]) then
      BeforeAll(col, order, x, s);
      SortedCons(col, order, x, s);
      [x] + s
    else
      BeforeTotal(col, order, x, s[0]);
      var rest := Insert(x, s[1..], col, order);
      assert forall z :: z in rest ==> z == x || z in s[1..] by {
        forall z | z in rest ensures z == x || z in s[1..] {
          assert z in multiset(rest);
        }
      }
      assert forall z :: z in s[1..] ==> Before(col, order, s[0], z) by {
        forall z | z in s[1..] ensures Before(col, order, s[0], z) {
          var j :| 0 <= j < |s[1..]| && s[1..][j] == z;
          assert s[j + 1] == z;
        }
      }
      SortedCons(col, order, s[0], rest);
      assert s == [s[0]] + s[1..];
      [s[0]] + rest
  }

  /** The sort of `s` by `col` in direction `order` (insertion sort):
      a permutation of `s` in which every pair of rows is in order. */
  function SortRows(s: seq<Confession>, col: Column, order: SortOrder): (r: seq<Confession>)
    ensures multiset(r) == multiset(s)
    ensures SortedBy(r, col, order)
  {
    if s == [] then []
    else
      assert s == [s[0]] + s[1..];
      Insert(s[0], SortRows(s[1..], col, order), col, order)
  }

  /** An ascending list is in non-decreasing key order; a descending one in
      non-increasing key order, for every pair of positions. */
  lemma SortRowsDirection(s: seq<Confession>, col: Column, order: SortOrder, i: int, j: int)
    requires 0 <= i < j < |SortRows(s, col, order)|
    ensures order == Asc ==> KeyLe(col, SortRows(s, col, order)[i], SortRows(s, col, order)[j])
    ensures order == Desc ==> KeyLe(col, SortRows(s, col, order)[j], SortRows(s, col, order)[i])
  {
  }

  // ----------------------------------------------------------- pagination

  function Min(a: int, b: int): int {
    if a <= b then a else b
  }

  /** `LIMIT limit OFFSET offset`: the rows from position `offset` on, at
      most `limit` of them. */
  function Window<T>(s: seq<T>, offset: nat, limit: nat): (r: seq<T>)
    ensures |r| <= limit
    ensures |r| == if offset >= |s| then 0 else Min(limit, |s| - offset)
    ensures forall i :: 0 <= i < |r| ==> r[i] == s[offset + i]
  {
    if offset >= |s| then [] else s[offset..Min(offset + limit, |s|)]
  }

  /** `Math.ceil(n / d)`, which is not finite (None) when `d` is 0. */
  function CeilDiv(n: nat, d: int): (r: Option<int>)
    ensures r.None? <==> d == 0
  {
    if d == 0 then None
    else if d > 0 then Some((n + d - 1) / d)
    else Some(-(n / (-d)))
  }

  /** The page count is the integer `k` with `k - 1 < n / d <= k`. */
  lemma CeilDivBounds(n: nat, d: int)
    ensures d > 0 ==> (CeilDiv(n, d).value - 1) * d < n <= CeilDiv(n, d).value * d
    ensures d < 0 ==> CeilDiv(n, d).value * d <= n < (CeilDiv(n, d).value - 1) * d
  {
    if d > 0 {
      var k := (n + d - 1) / d;
      assert k * d + (n + d - 1) % d == n + d - 1;
    } else if d < 0 {
      var k := n / (-d);
      assert k * (-d) + n % (-d) == n;
    }
  }
}
