/**
 * The `useInfiniteScroll` hook: on each scroll event it asks for more
 * products when idle, when there is more to load, and when the viewport is
 * within `threshold` pixels of the bottom. Reading the page geometry is an
 * input.
 */
module InfiniteScroll {
  import opened Wrappers
  import UseProducts

  const DefaultThreshold: real := 100.0

  /** The document's scroll position and sizes at the time of the event. */
  datatype Geometry = Geometry(scrollTop: real, scrollHeight: real, clientHeight: real)

  /** The threshold option, 100 when not given. */
  function Threshold(option: Option<real>): (t: real)
    ensures option.None? ==> t == DefaultThreshold
    ensures option.Some? ==> t == option.value
  {
    option.GetOr(DefaultThreshold)
  }

  predicate NearBottom(g: Geometry, threshold: real)
  {
    g.scrollTop + g.clientHeight >= g.scrollHeight - threshold
  }

  /** `handleScroll`: how many times one scroll event calls `onLoadMore`. */
  function LoadMoreCalls(loading: bool, hasMore: bool, g: Geometry, threshold: real): (calls: nat)
    ensures calls <= 1
    ensures loading || !hasMore ==> calls == 0
    ensures calls == 1 <==> !loading && hasMore && NearBottom(g, threshold)
  {
    if loading || !hasMore then 0
    else if g.scrollTop + g.clientHeight >= g.scrollHeight - threshold then 1
    else 0
  }

  /** A larger threshold fires at least as early. */
  lemma LargerThresholdFiresEarlier(loading: bool, hasMore: bool, g: Geometry, t1: real, t2: real)
    requires t1 <= t2
    ensures LoadMoreCalls(loading, hasMore, g, t1) <= LoadMoreCalls(loading, hasMore, g, t2)
  {
  }

  /**
   * Wired to `useProducts`: an event that fires asks for the next page, and
   * no further event fires until that page has arrived.
   */
  lemma ScrollLoadsOnePageAtATime(s: UseProducts.State, g: Geometry, h: Geometry, threshold: real)
    requires LoadMoreCalls(s.loading, s.hasMore, g, threshold) == 1
    ensures var (t, req) := UseProducts.LoadMore(s);
      && req.Some? && req.value.append && t.page == s.page + 1
      && LoadMoreCalls(t.loading, t.hasMore, h, threshold) == 0
  {
  }
}
