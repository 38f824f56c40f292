/** The list and submission hook (src/hooks/useConfessions.ts): it builds
    the query parameters of a list request from the page, the page size and
    the filter bar, and keeps a loading flag and an error message around
    each request. The HTTP service is a parameter: a function from the
    request to its outcome. */
module Hook {
  import opened Wrappers
  import opened Text
  import opened Types
  import opened Query
  import Helpers
  import Server

  /** A query parameter: the page numbers are numbers, the filters text. */
  datatype ParamValue = Num(n: int) | Str(s: string)

  type Params = map<string, ParamValue>

  /** The keys of the filter bar's state, in declaration order. */
  const FilterKeys: seq<string> := ["city", "sex", "ageMin", "ageMax", "search", "sortBy", "sortOrder"]

  /** The values of the filter bar's state, in the same order: the empty
      gender choice is the empty string. */
  function FilterValues(f: SearchFilters): (r: seq<string>)
    ensures |r| == |FilterKeys|
  {
    [f.city, Helpers.SexFilterText(f.sex), f.ageMin, f.ageMax, f.search, SortKeyName(f.sortBy), SortOrderName(f.sortOrder)]
  }

  /** What the request's parameters hold: `page` and `limit` always, each
      filter whose value is not empty with that value unchanged, and
      nothing else. */
  ghost predicate ParamsFrom(params: Params, page: int, limit: int, filters: SearchFilters) {
    && "page" in params && params["page"] == Num(page)
    && "limit" in params && params["limit"] == Num(limit)
    && (forall i :: 0 <= i < |FilterKeys| ==>
          (FilterKeys[i] in params <==> FilterValues(filters)[i] != ""))
    && (forall i :: 0 <= i < |FilterKeys| && FilterValues(filters)[i] != "" ==>
          params[FilterKeys[i]] == Str(FilterValues(filters)[i]))
    && (forall k :: k in params ==> k == "page" || k == "limit" || k in FilterKeys)
  }

  /** The paging keys and the filter keys are all distinct. */
  lemma KeysDistinct()
    ensures "page" !in FilterKeys && "limit" !in FilterKeys
    ensures forall i, j :: 0 <= i < j < |FilterKeys| ==> FilterKeys[i] != FilterKeys[j]
  {
    assert FilterKeys[0][0] == 'c' && FilterKeys[1][0] == 's' && FilterKeys[2][0] == 'a';
    assert FilterKeys[3][0] == 'a' && FilterKeys[4][0] == 's' && FilterKeys[5][0] == 's';
    assert FilterKeys[6][0] == 's';
    assert FilterKeys[2][4] == 'i' && FilterKeys[3][4] == 'a';
    assert FilterKeys[1] == "sex" && FilterKeys[4][1] == 'e' && FilterKeys[5][1] == 'o' && FilterKeys[6][1] == 'o';
    assert |FilterKeys[1]| == 3 && |FilterKeys[4]| == 6 && |FilterKeys[5]| == 6 && |FilterKeys[6]| == 9;
  }

  /** The parameter-building loop of `fetchConfessions`: start from `page`
      and `limit`, then copy each filter entry whose value is not empty. */
  method BuildParams(page: int, limit: int, filters: SearchFilters) returns (params: Params)
    ensures ParamsFrom(params, page, limit, filters)
  {
    KeysDistinct();
    var values := FilterValues(filters);
    params := map["page" := Num(page), "limit" := Num(limit)];
    var i := 0;
    while i < |FilterKeys|
      invariant 0 <= i <= |FilterKeys|
      invariant "page" in params && params["page"] == Num(page)
      invariant "limit" in params && params["limit"] == Num(limit)
      invariant forall j :: 0 <= j < i ==> (FilterKeys[j] in params <==> values[j] != "")
      invariant forall j :: 0 <= j < i && values[j] != "" ==> params[FilterKeys[j]] == Str(values[j])
      invariant forall j :: i <= j < |FilterKeys| ==> FilterKeys[j] !in params
      invariant forall k :: k in params ==> k == "page" || k == "limit" || k in FilterKeys[..i]
    {
      var key, value := FilterKeys[i], values[i];
      if value != "" {
        params := params[key := Str(value)];
      }
      i := i + 1;
    }
  }

  /** The sort keys and the sort order are never empty, so they are always
      sent. */
  lemma SortAlwaysSent(params: Params, page: int, limit: int, filters: SearchFilters)
    requires ParamsFrom(params, page, limit, filters)
    ensures "sortBy" in params && params["sortBy"] == Str(SortKeyName(filters.sortBy))
    ensures "sortOrder" in params && params["sortOrder"] == Str(SortOrderName(filters.sortOrder))
  {
    assert FilterKeys[5] == "sortBy" && FilterKeys[6] == "sortOrder";
    assert FilterValues(filters)[5] != "" by {
      match filters.sortBy
      case CreatedAtKey =>
      case AgeKey =>
      case CityKey =>
    }
    assert FilterValues(filters)[6] != "" by {
      match filters.sortOrder
      case Asc =>
      case Desc =>
    }
  }

  // ----------------------------------------------- the request on the wire

  /** A parameter as the query string carries it: a number in decimal, with
      a minus sign when negative; text as it is. */
  function Serialize(v: ParamValue): string {
    match v
    case Num(n) => if n >= 0 then NatToString(n) else "-" + NatToString(-n)
    case Str(s) => s
  }

  /** `Number` reads a serialized number back. */
  lemma SerializeNumber(n: int)
    ensures ToNumber(Serialize(Num(n))) == Some(n)
  {
    if n >= 0 {
      SerializeNatural(n);
    } else {
      SerializeNegative(n);
    }
  }

  lemma SerializeNatural(n: nat)
    ensures ToNumber(Serialize(Num(n))) == Some(n)
  {
    assert Serialize(Num(n)) == NatToString(n);
    ToNumberOfNat(n);
  }

  lemma SerializeNegative(n: int)
    requires n < 0
    ensures ToNumber(Serialize(Num(n))) == Some(n)
  {
    var m: nat := -n;
    assert Serialize(Num(n)) == "-" + NatToString(m);
    ToNumberOfNegated(m);
  }

  function Lookup(params: Params, key: string): Option<string> {
    if key in params then Some(Serialize(params[key])) else None
  }

  /** The parameters as the server's handler receives them. */
  function QueryOf(params: Params): Server.ListParams {
    Server.ListParams(
      Lookup(params, "page"), Lookup(params, "limit"),
      Lookup(params, "city"), Lookup(params, "sex"), Lookup(params, "ageMin"), Lookup(params, "ageMax"),
      Lookup(params, "search"), Lookup(params, "sortBy"), Lookup(params, "sortOrder"))
  }

  /** An age bound both sides read alike: empty, or text the server's
      `Number` reads as a number and the client's `parseInt` reads as the
      same number. */
  predicate ReadAlike(s: string) {
    s == "" || (ToNumber(s).Some? && ToNumber(s) == ParseInt(s))
  }

  /** Every bound written in decimal digits is read alike. */
  lemma DigitsReadAlike(s: string)
    requires AllDigits(s)
    ensures ReadAlike(s)
  {
    if s != "" {
      ParseIntAgreesWithNumber(s);
    }
  }

  /** The server reads each filter of a built request as the client's own
      filter reads it. */
  lemma ServerSeesFilters(params: Params, page: int, limit: int, filters: SearchFilters)
    requires ParamsFrom(params, page, limit, filters)
    ensures QueryOf(params).city.GetOr("") == filters.city
    ensures QueryOf(params).sex.GetOr("") == Helpers.SexFilterText(filters.sex)
    ensures QueryOf(params).search.GetOr("") == filters.search
    ensures Server.Truthy(QueryOf(params).ageMin) <==> filters.ageMin != ""
    ensures Server.Truthy(QueryOf(params).ageMin) ==> QueryOf(params).ageMin.value == filters.ageMin
    ensures Server.Truthy(QueryOf(params).ageMax) <==> filters.ageMax != ""
    ensures Server.Truthy(QueryOf(params).ageMax) ==> QueryOf(params).ageMax.value == filters.ageMax
  {
    var vs := FilterValues(filters);
    assert FilterKeys[0] == "city" && FilterKeys[1] == "sex" && FilterKeys[2] == "ageMin";
    assert FilterKeys[3] == "ageMax" && FilterKeys[4] == "search";
    assert vs[0] == filters.city && vs[1] == Helpers.SexFilterText(filters.sex);
    assert vs[2] == filters.ageMin && vs[3] == filters.ageMax && vs[4] == filters.search;
  }

  /** An age bound sent as the filter bar holds it, and read alike, gives
      the server the client's bound, and is a number when supplied. */
  lemma BoundAgrees(p: Option<string>, s: string)
    requires Server.Truthy(p) <==> s != ""
    requires Server.Truthy(p) ==> p.value == s
    requires ReadAlike(s)
    ensures Server.NumberBound(p) == Helpers.AgeBound(s)
    ensures Server.Truthy(p) ==> ToNumber(p.value).Some?
  {
  }

  /** A supplied age bound that the server's `Number` reads as NaN makes
      the request unservable: the handler answers with the store's error
      (status 500) whatever the client's `parseInt` makes of it. */
  lemma NaNBoundRejected(params: Params, page: int, limit: int, filters: SearchFilters)
    requires ParamsFrom(params, page, limit, filters)
    requires (filters.ageMin != "" && ToNumber(filters.ageMin).None?) || (filters.ageMax != "" && ToNumber(filters.ageMax).None?)
    ensures !Server.BoundsAreNumbers(QueryOf(params))
    ensures !Server.Servable(QueryOf(params))
  {
    ServerSeesFilters(params, page, limit, filters);
  }

  /** A bound of white space only is not read alike: `Number(" ")` is 0,
      so the server keeps ages from 0 on, while `parseInt(" ")` is NaN and
      the client's filter ignores the bound. */
  lemma BlankBoundDisagrees(params: Params, page: int, limit: int, filters: SearchFilters)
    requires ParamsFrom(params, page, limit, filters)
    requires filters.ageMin == " "
    ensures Server.ServerCriteria(QueryOf(params)).ageMin == Some(0)
    ensures Helpers.ClientCriteria(filters).ageMin.None?
    ensures !ReadAlike(filters.ageMin)
  {
    ServerSeesFilters(params, page, limit, filters);
    TrimEmpty(" ");
    assert IsSpace(" "[0]);
    assert TrimStart(" ") == TrimStart(" "[1..]);
    assert " "[1..] == [];
  }

  /** A built request asks for the client's page and page size. */
  lemma RequestPaging(params: Params, page: int, limit: int, filters: SearchFilters)
    requires ParamsFrom(params, page, limit, filters)
    ensures Server.PageNumber(QueryOf(params)) == Some(page)
    ensures Server.PageLimit(QueryOf(params)) == Some(limit)
  {
    SerializeNumber(page);
    SerializeNumber(limit);
  }

  /** A built request asks for the client's order. */
  lemma RequestOrder(params: Params, page: int, limit: int, filters: SearchFilters)
    requires ParamsFrom(params, page, limit, filters)
    ensures Server.OrderField(QueryOf(params).sortBy) == Helpers.KeyColumn(filters.sortBy)
    ensures Server.OrderDirection(QueryOf(params).sortOrder) == filters.sortOrder
  {
    SortAlwaysSent(params, page, limit, filters);
    match filters.sortBy
    case CreatedAtKey =>
    case AgeKey =>
    case CityKey =>
    match filters.sortOrder
    case Asc =>
    case Desc =>
  }

  /** A built request asks the server for the client's page and page size
      and for the client's order, and the server's criteria accept exactly
      the rows the client's filter keeps (age bounds read alike). */
  lemma RequestMeansFilters(params: Params, page: int, limit: int, filters: SearchFilters)
    requires ParamsFrom(params, page, limit, filters)
    requires ReadAlike(filters.ageMin) && ReadAlike(filters.ageMax)
    ensures Server.PageNumber(QueryOf(params)) == Some(page)
    ensures Server.PageLimit(QueryOf(params)) == Some(limit)
    ensures Server.OrderField(QueryOf(params).sortBy) == Helpers.KeyColumn(filters.sortBy)
    ensures Server.OrderDirection(QueryOf(params).sortOrder) == filters.sortOrder
    ensures Server.BoundsAreNumbers(QueryOf(params))
    ensures Server.ServerCriteria(QueryOf(params)) == Helpers.ClientCriteria(filters)
  {
    var q := QueryOf(params);
    RequestPaging(params, page, limit, filters);
    RequestOrder(params, page, limit, filters);
    ServerSeesFilters(params, page, limit, filters);
    BoundAgrees(q.ageMin, filters.ageMin);
    BoundAgrees(q.ageMax, filters.ageMax);
  }

  /** End to end: for a page from 1 on and a page size that is not
      negative, the server's answer to a built request is served, and its
      rows are the client helpers' own pipeline over the whole table:
      filter, then sort, then paginate (with the playback URLs added). */
  lemma ServerAnswersClientPipeline(
    table: seq<Confession>, params: Params, page: int, limit: int, filters: SearchFilters,
    protocol: string, host: string)
    requires ParamsFrom(params, page, limit, filters)
    requires ReadAlike(filters.ageMin) && ReadAlike(filters.ageMax)
    requires page >= 1 && limit >= 0
    ensures Server.Servable(QueryOf(params))
    ensures Server.ExpectedPage(table, QueryOf(params), protocol, host).confessions
      == Server.AddAudioUrls(
           Helpers.PaginateArray(
             Helpers.SortConfessions(Helpers.FilterConfessions(table, filters), filters.sortBy, filters.sortOrder),
             page, limit).items,
           protocol, host)
    ensures Server.ExpectedPage(table, QueryOf(params), protocol, host).total == |Helpers.FilterConfessions(table, filters)|
  {
    var q := QueryOf(params);
    RequestMeansFilters(params, page, limit, filters);
    Helpers.MulNonNegative(page - 1, limit);
    assert Server.PageOffset(q) == Some((page - 1) * limit);
    Server.PageAgreesWithClient(table, q, protocol, host);
  }

  // ----------------------------------------------------- the request state

  /** The hook's state: whether a request is in flight, and the message of
      the last failure. `loadingHistory` records every value the loading
      flag is set to, in order. */
  class ConfessionsHook {
    var loading: bool
    var error: Option<string>
    ghost var loadingHistory: seq<bool>

    constructor()
      ensures !loading && error.None? && loadingHistory == []
    {
      loading := false;
      error := None;
      loadingHistory := [];
    }

    /** `fetchConfessions`: raises the loading flag and clears the error,
        builds the parameters, asks the service, and lowers the flag
        again. The service's answer is returned as it is; a failure sets the
        fixed message and is passed on. */
    method FetchConfessions(page: int, limit: int, filters: SearchFilters, service: Params -> Result<PaginationData, string>)
      returns (params: Params, result: Result<PaginationData, string>)
      modifies this
      ensures ParamsFrom(params, page, limit, filters)
      ensures result == service(params)
      ensures !loading && loadingHistory == old(loadingHistory) + [true, false]
      ensures error == if result.Err? then Some("Failed to fetch confessions") else None
    {
      loading := true;
      loadingHistory := loadingHistory + [true];
      error := None;
      params := BuildParams(page, limit, filters);
      result := service(params);
      if result.Err? {
        error := Some("Failed to fetch confessions");
      }
      loading := false;
      loadingHistory := loadingHistory + [false];
    }

    /** `createConfession`: the same flags around posting a payload. */
    method CreateConfession(data: Payload, service: Payload -> Result<(), string>) returns (result: Result<(), string>)
      modifies this
      ensures result == service(data)
      ensures !loading && loadingHistory == old(loadingHistory) + [true, false]
      ensures error == if result.Err? then Some("Failed to submit confession") else None
    {
      loading := true;
      loadingHistory := loadingHistory + [true];
      error := None;
      result := service(data);
      if result.Err? {
        error := Some("Failed to submit confession");
      }
      loading := false;
      loadingHistory := loadingHistory + [false];
    }
  }
}
