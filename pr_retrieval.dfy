/** Retrieval of the working set of pull requests in scripts/pr-metrics.mjs: pages of
    1000 up to a cap of 10 pages per window, and the fallback from the unbounded window to
    365 and then 90 days when a window holds 500 or more pull requests. */
module PrRetrieval {
  import opened Wrappers

  const PageSize: nat := 1000
  const MaxPages: nat := 10
  const FallbackThreshold: nat := 500

  /** `None` is the unbounded window; `Some(d)` asks for pull requests created in the last d days. */
  type Window = Option<int>

  /** The API: the page for a window and a `$skip`, or `None` when the request fails. */
  type PageFetch<T> = (Window, nat) -> Option<seq<T>>

  datatype FetchError = ApiError(window: Window, skip: nat)

  datatype Paged<T> = Paged(prs: seq<T>, capHit: bool)

  datatype Fetched<T> = Fetched(prs: seq<T>, daysCovered: Window, capHit: bool)

  // ---------------------------------------------------------------------------
  // Paging within one window
  // ---------------------------------------------------------------------------

  /** What the page loop yields from page `page` on: pages are appended until one is short,
      and the last allowed page, if full, sets the cap flag. */
  function PagesFrom<T>(fetch: PageFetch<T>, w: Window, maxPages: nat, page: nat): Result<Paged<T>, FetchError>
    decreases maxPages - page
  {
    if page >= maxPages then Ok(Paged([], false))
    else match fetch(w, PageSize * page)
      case None => Err(ApiError(w, PageSize * page))
      case Some(items) =>
        if |items| < PageSize then Ok(Paged(items, false))
        else if page == maxPages - 1 then Ok(Paged(items, true))
        else Prepend(items, PagesFrom(fetch, w, maxPages, page + 1))
  }

  function Prepend<T>(acc: seq<T>, r: Result<Paged<T>, FetchError>): Result<Paged<T>, FetchError> {
    match r
    case Err(e) => Err(e)
    case Ok(p) => Ok(Paged(acc + p.prs, p.capHit))
  }

  lemma PrependAssociates<T>(a: seq<T>, b: seq<T>, r: Result<Paged<T>, FetchError>)
    ensures Prepend(a, Prepend(b, r)) == Prepend(a + b, r)
  {
    if r.Ok? { assert a + (b + r.value.prs) == (a + b) + r.value.prs; }
  }

  lemma PrependNothing<T>(r: Result<Paged<T>, FetchError>)
    ensures Prepend([], r) == r
  {
    if r.Ok? { assert [] + r.value.prs == r.value.prs; }
  }

  /** The number of requests the page loop issues from page `page` on. */
  function RequestsFrom<T>(fetch: PageFetch<T>, w: Window, maxPages: nat, page: nat): nat
    decreases maxPages - page
  {
    if page >= maxPages then 0
    else match fetch(w, PageSize * page)
      case None => 1
      case Some(items) =>
        if |items| < PageSize || page == maxPages - 1 then 1
        else 1 + RequestsFrom(fetch, w, maxPages, page + 1)
  }

  predicate FullPage<T>(fetch: PageFetch<T>, w: Window, page: nat) {
    fetch(w, PageSize * page).Some? && |fetch(w, PageSize * page).value| >= PageSize
  }

  /** `fetchPagedPrs`: pages are requested with `$skip` = 1000 * page; `skips` records the
      `$skip` of every request the loop makes, in order. */
  method FetchPagedPrs<T>(fetch: PageFetch<T>, w: Window, maxPages: nat)
    returns (r: Result<Paged<T>, FetchError>, ghost skips: seq<nat>)
    ensures r == PagesFrom(fetch, w, maxPages, 0)
    ensures |skips| == RequestsFrom(fetch, w, maxPages, 0) <= maxPages
    ensures forall i :: 0 <= i < |skips| ==> skips[i] == PageSize * i
  {
    var allPrs: seq<T> := [];
    var skip := 0;
    var page := 0;
    skips := [];
    PrependNothing(PagesFrom(fetch, w, maxPages, 0));
    RequestsBounded(fetch, w, maxPages, 0);
    while page < maxPages
      invariant page <= maxPages
      invariant skip == PageSize * page
      invariant |skips| == page && forall i :: 0 <= i < page ==> skips[i] == PageSize * i
      invariant RequestsFrom(fetch, w, maxPages, 0) == page + RequestsFrom(fetch, w, maxPages, page)
      invariant PagesFrom(fetch, w, maxPages, 0) == Prepend(allPrs, PagesFrom(fetch, w, maxPages, page))
    {
      skips := skips + [skip];
      var data := fetch(w, skip);
      if data.None? {
        return Err(ApiError(w, skip)), skips;
      }
      allPrs := allPrs + data.value;
      if |data.value| < PageSize {
        return Ok(Paged(allPrs, false)), skips;
      }
      skip := skip + PageSize;
      if page == maxPages - 1 {
        return Ok(Paged(allPrs, true)), skips;
      }
      PrependAssociates(allPrs[..|allPrs| - |data.value|], data.value, PagesFrom(fetch, w, maxPages, page + 1));
      assert allPrs[..|allPrs| - |data.value|] + data.value == allPrs;
      page := page + 1;
    }
    assert allPrs + [] == allPrs;
    return Ok(Paged(allPrs, false)), skips;
  }

  /** At most `maxPages` requests are made from page `page` on. */
  lemma {:induction false} RequestsBounded<T>(fetch: PageFetch<T>, w: Window, maxPages: nat, page: nat)
    ensures RequestsFrom(fetch, w, maxPages, page) <= if page >= maxPages then 0 else maxPages - page
    decreases maxPages - page
  {
    if page < maxPages && fetch(w, PageSize * page).Some? && page != maxPages - 1 {
      RequestsBounded(fetch, w, maxPages, page + 1);
    }
  }

  /** The cap flag is set exactly when every page up to the last allowed one came back full. */
  lemma {:induction false} CapHitIffAllFull<T>(fetch: PageFetch<T>, w: Window, maxPages: nat, page: nat)
    requires page <= maxPages
    requires PagesFrom(fetch, w, maxPages, page).Ok?
    ensures PagesFrom(fetch, w, maxPages, page).value.capHit
        <==> page < maxPages && forall p :: page <= p < maxPages ==> FullPage(fetch, w, p)
    decreases maxPages - page
  {
    if page < maxPages {
      var items := fetch(w, PageSize * page).value;
      if |items| < PageSize {
        assert !FullPage(fetch, w, page);
      } else if page != maxPages - 1 {
        CapHitIffAllFull(fetch, w, maxPages, page + 1);
        assert FullPage(fetch, w, page);
        assert (forall p :: page <= p < maxPages ==> FullPage(fetch, w, p))
          <==> (forall p :: page + 1 <= p < maxPages ==> FullPage(fetch, w, p));
      }
    }
  }

  /** The pages `a` to `b` (exclusive) of a window, joined in request order; a failed
      request contributes nothing. */
  function PagesBetween<T>(fetch: PageFetch<T>, w: Window, a: nat, b: nat): seq<T>
    decreases b - a
  {
    if a >= b then []
    else match fetch(w, PageSize * a)
      case None => PagesBetween(fetch, w, a + 1, b)
      case Some(items) => items + PagesBetween(fetch, w, a + 1, b)
  }

  /** A successful page loop made only successful requests, every page but the last came
      back full, and the result is the concatenation of the requested pages. */
  lemma {:induction false} PagesConcatenate<T>(fetch: PageFetch<T>, w: Window, maxPages: nat, page: nat)
    requires page < maxPages
    requires PagesFrom(fetch, w, maxPages, page).Ok?
    ensures var n := RequestsFrom(fetch, w, maxPages, page);
      && 1 <= n
      && (forall p :: page <= p < page + n ==> fetch(w, PageSize * p).Some?)
      && (forall p :: page <= p < page + n - 1 ==> FullPage(fetch, w, p))
      && PagesFrom(fetch, w, maxPages, page).value.prs == PagesBetween(fetch, w, page, page + n)
    decreases maxPages - page
  {
    var items := fetch(w, PageSize * page).value;
    var n := RequestsFrom(fetch, w, maxPages, page);
    if |items| < PageSize || page == maxPages - 1 {
      assert n == 1;
      assert PagesBetween(fetch, w, page, page + 1) == items + PagesBetween(fetch, w, page + 1, page + 1);
      assert items + [] == items;
    } else {
      PagesConcatenate(fetch, w, maxPages, page + 1);
      var m := RequestsFrom(fetch, w, maxPages, page + 1);
      assert n == 1 + m;
      assert FullPage(fetch, w, page);
      assert PagesBetween(fetch, w, page, page + n) == items + PagesBetween(fetch, w, page + 1, page + 1 + m);
    }
  }

  // ---------------------------------------------------------------------------
  // Window fallback
  // ---------------------------------------------------------------------------

  /** A day-count override counts only when it is present and non-zero (0 is falsy). */
  predicate Truthy(daysOverride: Option<int>) {
    daysOverride.Some? && daysOverride.value != 0
  }

  function Windows(daysOverride: Option<int>): (ws: seq<Window>)
    ensures |ws| >= 1
  {
    if Truthy(daysOverride) then [Some(daysOverride.value)] else [None, Some(365), Some(90)]
  }

  /** Whether a window's result is discarded in favour of the next, narrower one. */
  predicate Discard(daysOverride: Option<int>, w: Window, count: nat) {
    !Truthy(daysOverride) && count >= FallbackThreshold && w != Some(90)
  }

  /** The window loop from window `i` on, ending in the default result when the list is exhausted. */
  function FallbackFrom<T>(fetch: PageFetch<T>, daysOverride: Option<int>, ws: seq<Window>, i: nat): Result<Fetched<T>, FetchError>
    decreases |ws| - i
  {
    if i >= |ws| then Ok(Fetched([], Some(90), false))
    else match PagesFrom(fetch, ws[i], MaxPages, 0)
      case Err(e) => Err(e)
      case Ok(p) =>
        if Discard(daysOverride, ws[i], |p.prs|) then FallbackFrom(fetch, daysOverride, ws, i + 1)
        else Ok(Fetched(p.prs, ws[i], p.capHit))
  }

  /** `fetchPrsWithFallback`. */
  method FetchPrsWithFallback<T>(fetch: PageFetch<T>, daysOverride: Option<int>) returns (r: Result<Fetched<T>, FetchError>)
    ensures r == FallbackFrom(fetch, daysOverride, Windows(daysOverride), 0)
  {
    var windows := Windows(daysOverride);
    var i := 0;
    while i < |windows|
      invariant i <= |windows|
      invariant FallbackFrom(fetch, daysOverride, windows, 0) == FallbackFrom(fetch, daysOverride, windows, i)
    {
      var w := windows[i];
      var result, _ := FetchPagedPrs(fetch, w, MaxPages);
      if result.Err? {
        return Err(result.error);
      }
      var prs, capHit := result.value.prs, result.value.capHit;
      if !Truthy(daysOverride) && |prs| >= FallbackThreshold && w != Some(90) {
        i := i + 1;
        continue;
      }
      return Ok(Fetched(prs, w, capHit));
    }
    return Ok(Fetched([], Some(90), false));
  }

  /** The result of one window's page loop, accepted as final. */
  function Accept<T>(fetch: PageFetch<T>, w: Window): Result<Fetched<T>, FetchError> {
    match PagesFrom(fetch, w, MaxPages, 0)
    case Err(e) => Err(e)
    case Ok(p) => Ok(Fetched(p.prs, w, p.capHit))
  }

  /** With a non-zero override only that window is fetched, and its result is accepted
      whatever its size. */
  lemma OverrideIsSingleAttempt<T>(fetch: PageFetch<T>, d: int)
    requires d != 0
    ensures FallbackFrom(fetch, Some(d), Windows(Some(d)), 0) == Accept(fetch, Some(d))
  {
  }

  /** Without an override the windows are tried unbounded, 365, 90: the first that holds
      fewer than 500 pull requests is accepted, and the 90-day window is accepted whatever
      its size; a failed request ends the search with its error. */
  lemma NoOverrideFallback<T>(fetch: PageFetch<T>, daysOverride: Option<int>)
    requires !Truthy(daysOverride)
    ensures FallbackFrom(fetch, daysOverride, Windows(daysOverride), 0) ==
      match PagesFrom(fetch, None, MaxPages, 0)
      case Err(e) => Err(e)
      case Ok(p0) =>
        if |p0.prs| < FallbackThreshold then Accept(fetch, None)
        else match PagesFrom(fetch, Some(365), MaxPages, 0)
          case Err(e) => Err(e)
          case Ok(p1) =>
            if |p1.prs| < FallbackThreshold then Accept(fetch, Some(365))
            else Accept(fetch, Some(90))
  {
    var ws := Windows(daysOverride);
    assert ws == [None, Some(365), Some(90)];
    assert FallbackFrom(fetch, daysOverride, ws, 2) == Accept(fetch, Some(90));
  }

  /** The closing default of `fetchPrsWithFallback` is never reached: every successful
      result is the accepted result of one of the windows tried. */
  lemma DefaultNeverReturned<T>(fetch: PageFetch<T>, daysOverride: Option<int>)
    ensures var r := FallbackFrom(fetch, daysOverride, Windows(daysOverride), 0);
      r.Ok? ==> exists w :: w in Windows(daysOverride) && r == Accept(fetch, w)
  {
    var ws := Windows(daysOverride);
    if !Truthy(daysOverride) {
      NoOverrideFallback(fetch, daysOverride);
      var r := FallbackFrom(fetch, daysOverride, ws, 0);
      if r.Ok? {
        if r == Accept(fetch, None) { assert None in ws; }
        else if r == Accept(fetch, Some(365)) { assert Some(365) in ws; }
        else { assert Some(90) in ws; }
      }
    } else {
      assert Some(daysOverride.value) in ws;
    }
  }
}
