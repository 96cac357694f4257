/**
 * The `useProducts` hook as a state machine. A load is split in two steps:
 * starting it (which sets the loading flag and yields the request) and
 * finishing it with the outcome of the request.
 */
module UseProducts {
  import opened Wrappers
  import opened Text
  import opened ProductApi
  import ProductsRoute

  const PageSize: int := 40

  datatype State = State(
    products: seq<ProductsRoute.Item>, loading: bool, error: Option<string>,
    hasMore: bool, currentParams: Obj, totalResults: int, page: int)

  /** The request a load sends, and whether its answer is appended. */
  datatype Request = Request(params: Obj, append: bool)

  /** The hook's state before anything has loaded. */
  function Init(initialParams: Obj): (s: State)
    ensures s.products == [] && !s.loading && s.error.None? && s.hasMore
    ensures s.currentParams == initialParams && s.totalResults == 0 && s.page == 0
  {
    State([], false, None, true, initialParams, 0, 0)
  }

  /** The parameters of the request for page `pageIndex`: caller values for start and num are replaced. */
  function PageParams(params: Obj, pageIndex: int): (r: Obj)
    ensures DistinctKeys(params) ==> DistinctKeys(r)
    ensures forall i :: 0 <= i < |r| && r[i].0 == "start" ==> r[i].1 == Number(pageIndex * PageSize)
    ensures forall i :: 0 <= i < |r| && r[i].0 == "num" ==> r[i].1 == Number(PageSize)
    ensures HasKey(r, "start") && HasKey(r, "num")
  {
    var withStart := SetProperty(params, "start", Number(pageIndex * PageSize));
    var r := SetProperty(withStart, "num", Number(PageSize));
    assert HasKey(r, "start") by {
      var i :| 0 <= i < |withStart| && withStart[i].0 == "start";
      assert r[i] == withStart[i];
    }
    r
  }

  /** The route sees `start = pageIndex * 40` and `num = 40`, whatever the caller passed. */
  lemma PageParamsReachRoute(params: Obj, pageIndex: int)
    requires DistinctKeys(params)
    ensures ProductsRoute.Get(QueryEntries(PageParams(params, pageIndex)), "start") == Some(IntToString(pageIndex * PageSize))
    ensures ProductsRoute.Get(QueryEntries(PageParams(params, pageIndex)), "num") == Some("40")
  {
    var r := PageParams(params, pageIndex);
    SentKeyReachesRoute(r, "start", Number(pageIndex * PageSize));
    SentKeyReachesRoute(r, "num", Number(PageSize));
    FortyText();
  }

  lemma SentKeyReachesRoute(r: Obj, key: string, v: Value)
    requires DistinctKeys(r) && HasKey(r, key) && Present(v)
    requires forall i :: 0 <= i < |r| && r[i].0 == key ==> r[i].1 == v
    ensures ProductsRoute.Get(QueryEntries(r), key) == Some(ToText(v))
  {
    var i :| 0 <= i < |r| && r[i].0 == key;
    SentValueReachesRoute(r, i);
  }

  lemma FortyText()
    ensures ToText(Number(PageSize)) == "40"
  {
    assert NatToString(40) == NatToString(4) + [DigitChar(0)];
  }

  /** The first half of `loadProducts`: set loading, clear the error, send the request. */
  function BeginLoad(s: State, params: Obj, append: bool, pageIndex: int): (r: (State, Request))
    ensures r.0 == s.(loading := true, error := None)
    ensures r.1 == Request(PageParams(params, pageIndex), append)
  {
    (s.(loading := true, error := None), Request(PageParams(params, pageIndex), append))
  }

  /** What the request ended with: a response, or a thrown value. */
  datatype Outcome = Loaded(response: ProductsRoute.Response) | Thrown(error: Option<string>)

  const FallbackError := "Failed to load products"

  /**
   * The second half of `loadProducts`: a response is appended or replaces
   * the list, sets the total and `hasMore`, and reports its error if it has
   * one; a thrown error reports its message. Loading ends either way.
   */
  function FinishLoad(s: State, req: Request, outcome: Outcome): (r: State)
    ensures !r.loading
    ensures r.page == s.page && r.currentParams == s.currentParams
    ensures outcome.Loaded? ==>
      && r.products == (if req.append then s.products + outcome.response.products else outcome.response.products)
      && (r.hasMore <==> |outcome.response.products| == PageSize)
      && r.totalResults == outcome.response.totalResults
    ensures outcome.Loaded? && outcome.response.error.Some? && outcome.response.error.value != "" ==>
      r.error == outcome.response.error
    ensures outcome.Loaded? && (outcome.response.error.None? || outcome.response.error.value == "") ==>
      r.error == s.error
    ensures outcome.Thrown? ==>
      && r.products == s.products && r.hasMore == s.hasMore && r.totalResults == s.totalResults
      && r.error == Some(outcome.error.GetOr(FallbackError))
  {
    match outcome
    case Loaded(response) =>
      var products := if req.append then s.products + response.products else response.products;
      var error := if response.error.Some? && response.error.value != "" then response.error else s.error;
      s.(products := products, totalResults := response.totalResults,
         hasMore := |response.products| == PageSize, error := error, loading := false)
    case Thrown(message) =>
      s.(error := Some(message.GetOr(FallbackError)), loading := false)
  }

  /** `search`: new parameters, back to the first page, replacing the list. */
  function Search(s: State, params: Obj): (r: (State, Request))
    ensures r.0.currentParams == params && r.0.page == 0 && r.0.loading
    ensures r.1 == Request(PageParams(params, 0), false)
  {
    BeginLoad(s.(currentParams := params, page := 0), params, false, 0)
  }

  /** `loadMore`: only when idle with more to load; then the next page, appended. */
  function LoadMore(s: State): (r: (State, Option<Request>))
    ensures s.loading || !s.hasMore ==> r == (s, None)
    ensures !s.loading && s.hasMore ==>
      && r.0.page == s.page + 1 && r.0.loading
      && r.1 == Some(Request(PageParams(s.currentParams, s.page + 1), true))
  {
    if !s.loading && s.hasMore then
      var next := s.page + 1;
      var (t, req) := BeginLoad(s.(page := next), s.currentParams, true, next);
      (t, Some(req))
    else (s, None)
  }

  /** `refresh`: the current parameters again from the first page, replacing the list. */
  function Refresh(s: State): (r: (State, Request))
    ensures r.0.page == 0 && r.0.error.None? && r.0.loading && r.0.currentParams == s.currentParams
    ensures r.1 == Request(PageParams(s.currentParams, 0), false)
  {
    BeginLoad(s.(page := 0, error := None), s.currentParams, false, 0)
  }

  /** The effect on mount loads the initial parameters' first page. */
  function Mount(initialParams: Obj): (r: (State, Request))
    ensures r.0.loading && r.0.page == 0 && r.0.products == []
    ensures r.1 == Request(PageParams(initialParams, 0), false)
  {
    BeginLoad(Init(initialParams), initialParams, false, 0)
  }

  /** A second `loadMore` before the first has finished does nothing. */
  lemma LoadMoreNotRepeatedWhileLoading(s: State)
    requires !s.loading && s.hasMore
    ensures LoadMore(LoadMore(s).0) == (LoadMore(s).0, None)
  {
  }

  /** After a search finishes, the list is exactly the first page, whatever was shown before. */
  lemma SearchReplacesList(s: State, params: Obj, response: ProductsRoute.Response)
    ensures var (t, req) := Search(s, params);
      FinishLoad(t, req, Loaded(response)).products == response.products
  {
  }

  /** After `loadMore` finishes, the new page follows the old list and the page index moved by one. */
  lemma LoadMoreAppends(s: State, response: ProductsRoute.Response)
    requires !s.loading && s.hasMore
    ensures var (t, req) := LoadMore(s);
      && FinishLoad(t, req.value, Loaded(response)).products == s.products + response.products
      && FinishLoad(t, req.value, Loaded(response)).page == s.page + 1
  {
  }

  /** While every page comes back full, the list holds exactly `page + 1` pages. */
  lemma FullPagesCount(s: State, response: ProductsRoute.Response)
    requires !s.loading && s.hasMore && |s.products| == (s.page + 1) * PageSize
    requires |response.products| == PageSize
    ensures var (t, req) := LoadMore(s);
      var u := FinishLoad(t, req.value, Loaded(response));
      |u.products| == (u.page + 1) * PageSize && u.hasMore && !u.loading
  {
  }

  /** A short page ends the paging: `loadMore` then does nothing. */
  lemma ShortPageStopsPaging(s: State, req: Request, response: ProductsRoute.Response)
    requires |response.products| < PageSize
    ensures LoadMore(FinishLoad(s, req, Loaded(response))).1.None?
  {
  }
}
