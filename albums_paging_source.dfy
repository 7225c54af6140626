/**
 * The album paging source: page numbers as keys, the start index sent to the
 * listing endpoint, the keys of the page returned, and the message of each
 * failure. The endpoint is a function from start index to outcome and the
 * DTO-to-album mapper is a total function; both are parameters.
 */
module AlbumsPaging {
  import opened ResourceState

  /** Kotlin `Int`. */
  type Int32 = x: int | -0x8000_0000 <= x < 0x8000_0000

  /** Kotlin `Int` arithmetic: the exact result reduced to 32 bits, two's complement. */
  function Wrap32(x: int): (r: Int32)
    ensures -0x8000_0000 <= x < 0x8000_0000 ==> r == x
    ensures (r - x) % 0x1_0000_0000 == 0
  {
    (x + 0x8000_0000) % 0x1_0000_0000 - 0x8000_0000
  }

  /** The key the pager passes (absent on the first load) and the number of items it asks for. */
  datatype LoadParams = LoadParams(key: Option<Int32>, loadSize: Int32)

  /** How the listing call ended: a list, a null list, or one of the exceptions `load` catches. */
  datatype ApiOutcome<D> = Items(albums: seq<D>) | NullItems | IOFailure | Http(code: Int32) | OtherFailure

  datatype Page<A> = Page(data: seq<A>, prevKey: Option<Int32>, nextKey: Option<Int32>)

  datatype LoadResult<A> = PageResult(page: Page<A>) | ErrorResult(message: string)

  const NetworkFailedMessage := "Network connection failed. Please check your internet connection."
  const NotFoundMessage := "Albums not found."
  const UnauthorizedMessage := "Authentication failed. Please log in again."
  const ForbiddenMessage := "Access denied to albums."
  const ServerErrorMessage := "Server error. Please try again later."
  const HttpFailedMessage := "Failed to load albums. Please try again."
  const UnexpectedMessage := "An unexpected error occurred while loading albums."

  /** The page to load: the key, or page 0 when there is none. */
  function PageNumber(params: LoadParams): Int32 {
    params.key.GetOr(0)
  }

  /** The start index sent to the endpoint: page number times load size, in `Int` arithmetic. */
  function StartIndex(params: LoadParams): (start: Int32)
    ensures params.key.None? ==> start == 0
    ensures -0x8000_0000 <= PageNumber(params) * params.loadSize < 0x8000_0000 ==>
      start == PageNumber(params) * params.loadSize
  {
    Wrap32(PageNumber(params) * params.loadSize)
  }

  /** The message of an HTTP failure: four codes have their own, every other code shares one. */
  function HttpErrorMessage(code: int): (message: string)
    ensures message == NotFoundMessage <==> code == 404
    ensures message == UnauthorizedMessage <==> code == 401
    ensures message == ForbiddenMessage <==> code == 403
    ensures message == ServerErrorMessage <==> code == 500
    ensures message == HttpFailedMessage <==> code !in {404, 401, 403, 500}
    ensures message != NetworkFailedMessage && message != UnexpectedMessage
  {
    if code == 404 then NotFoundMessage
    else if code == 401 then UnauthorizedMessage
    else if code == 403 then ForbiddenMessage
    else if code == 500 then ServerErrorMessage
    else HttpFailedMessage
  }

  /** `albumDto?.map { it.toAlbum() } ?: emptyList()` for a present list. */
  function MapAlbums<D, A>(albums: seq<D>, toAlbum: D -> A): (data: seq<A>)
    ensures |data| == |albums|
    ensures forall i :: 0 <= i < |albums| ==> data[i] == toAlbum(albums[i])
  {
    seq(|albums|, i requires 0 <= i < |albums| => toAlbum(albums[i]))
  }

  /** `load`: one call to the endpoint at the start index, and the page or error made of its outcome. */
  function Load<D, A>(params: LoadParams, fetch: Int32 -> ApiOutcome<D>, toAlbum: D -> A): (result: LoadResult<A>)
    ensures result.PageResult? <==> fetch(StartIndex(params)).Items? || fetch(StartIndex(params)).NullItems?
    ensures result.ErrorResult? ==>
      result.message in {NetworkFailedMessage, NotFoundMessage, UnauthorizedMessage, ForbiddenMessage,
                         ServerErrorMessage, HttpFailedMessage, UnexpectedMessage}
  {
    var page := PageNumber(params);
    var prevKey := if page == 0 then None else Some(Wrap32(page - 1));
    match fetch(StartIndex(params))
    case Items(albums) =>
      PageResult(Page(MapAlbums(albums, toAlbum), prevKey, if albums == [] then None else Some(Wrap32(page + 1))))
    case NullItems =>
      PageResult(Page([], prevKey, Some(Wrap32(page + 1))))
    case IOFailure => ErrorResult(NetworkFailedMessage)
    case Http(code) => ErrorResult(HttpErrorMessage(code))
    case OtherFailure => ErrorResult(UnexpectedMessage)
  }

  /**
   * A load returns a page exactly when the endpoint returned normally. The
   * page's previous key is absent exactly on page 0 and is the page before
   * otherwise; its next key is absent exactly when the endpoint returned an
   * empty list, so a null list still has the next page as next key; a present
   * list is mapped item by item.
   */
  lemma LoadReturnsPageOnNormalReturn<D, A>(params: LoadParams, fetch: Int32 -> ApiOutcome<D>, toAlbum: D -> A)
    ensures var outcome, result := fetch(StartIndex(params)), Load(params, fetch, toAlbum);
      && (result.PageResult? <==> outcome.Items? || outcome.NullItems?)
      && (result.PageResult? ==>
            && (result.page.prevKey.None? <==> PageNumber(params) == 0)
            && (PageNumber(params) != 0 && PageNumber(params) != -0x8000_0000 ==>
                  result.page.prevKey == Some(PageNumber(params) - 1))
            && (result.page.nextKey.None? <==> outcome == Items([]))
            && (PageNumber(params) != 0 ==> result.page.prevKey == Some(Wrap32(PageNumber(params) - 1)))
            && (result.page.nextKey.Some? ==> result.page.nextKey == Some(Wrap32(PageNumber(params) + 1)))
            && (result.page.nextKey.Some? && PageNumber(params) < 0x7fff_ffff ==>
                  result.page.nextKey == Some(PageNumber(params) + 1))
            && (outcome.NullItems? ==> result.page.data == [])
            && (outcome.Items? ==>
                  && |result.page.data| == |outcome.albums|
                  && forall i :: 0 <= i < |outcome.albums| ==> result.page.data[i] == toAlbum(outcome.albums[i])))
  {
  }

  /** A failure is classified by its kind and, for HTTP, by its exact code. */
  lemma LoadClassifiesFailures<D, A>(params: LoadParams, fetch: Int32 -> ApiOutcome<D>, toAlbum: D -> A)
    ensures var outcome, result := fetch(StartIndex(params)), Load(params, fetch, toAlbum);
      && (outcome.IOFailure? ==> result == ErrorResult(NetworkFailedMessage))
      && (outcome.OtherFailure? ==> result == ErrorResult(UnexpectedMessage))
      && (outcome.Http? && outcome.code == 404 ==> result == ErrorResult(NotFoundMessage))
      && (outcome.Http? && outcome.code == 401 ==> result == ErrorResult(UnauthorizedMessage))
      && (outcome.Http? && outcome.code == 403 ==> result == ErrorResult(ForbiddenMessage))
      && (outcome.Http? && outcome.code == 500 ==> result == ErrorResult(ServerErrorMessage))
      && (outcome.Http? && outcome.code !in {404, 401, 403, 500} ==> result == ErrorResult(HttpFailedMessage))
  {
  }

  /** The seven failure messages are pairwise distinct. */
  lemma FailureMessagesDistinct()
    ensures |{NetworkFailedMessage, NotFoundMessage, UnauthorizedMessage, ForbiddenMessage,
              ServerErrorMessage, HttpFailedMessage, UnexpectedMessage}| == 7
  {
    assert |NetworkFailedMessage| == 65 && |NotFoundMessage| == 17 && |UnauthorizedMessage| == 43;
    assert |ForbiddenMessage| == 24 && |ServerErrorMessage| == 37 && |HttpFailedMessage| == 40;
    assert |UnexpectedMessage| == 50;
  }

  // ---------------------------------------------------------------------------
  // Paging through a finite backing list
  // ---------------------------------------------------------------------------

  /** `backing[lo..hi]` with both bounds clamped into the list. */
  function Slice<D>(backing: seq<D>, lo: int, hi: int): (s: seq<D>)
    ensures 0 <= lo <= |backing| && lo <= hi ==> s == backing[lo..if hi <= |backing| then hi else |backing|]
    ensures |backing| <= lo ==> s == []
  {
    var l := if lo < 0 then 0 else if lo > |backing| then |backing| else lo;
    var h := if hi < l then l else if hi > |backing| then |backing| else hi;
    backing[l..h]
  }

  /** An endpoint over a fixed list whose server-side page holds `limit` items from the start index. */
  function BackedBy<D>(backing: seq<D>, limit: int): Int32 -> ApiOutcome<D> {
    start => Items(Slice(backing, start, start + limit))
  }

  function AllData<A>(pages: seq<Page<A>>): seq<A> {
    if pages == [] then [] else pages[0].data + AllData(pages[1..])
  }

  lemma NextMultiple(key: int, loadSize: int)
    ensures (key + 1) * loadSize == key * loadSize + loadSize
  {
  }

  lemma KeyBelowStart(key: int, loadSize: int)
    requires 0 <= key && 1 <= loadSize
    ensures key <= key * loadSize
  {
  }

  /**
   * Page `key` of a crawl over `n` items starts at item `start`, which is the
   * key times the load size, and neither that start nor the next one wraps.
   */
  predicate CrawlAt(n: int, loadSize: int, key: int, start: int) {
    0 < loadSize && 0 <= key <= start && start == key * loadSize && start < n + loadSize <= 0x8000_0000
  }

  lemma CrawlAdvance(n: int, loadSize: int, key: int, start: int)
    requires CrawlAt(n, loadSize, key, start) && start < n
    ensures key + 1 < 0x8000_0000 && CrawlAt(n, loadSize, key + 1, start + loadSize)
  {
    NextMultiple(key, loadSize);
  }

  /**
   * The page a load of page `key` yields over a backing list: the mapped slice
   * at its start, the previous page number as previous key (none on page 0)
   * and the next page number as next key unless the slice is empty.
   */
  function CrawlPage<D, A>(backing: seq<D>, loadSize: Int32, key: Int32, start: int, toAlbum: D -> A): Page<A>
    requires CrawlAt(|backing|, loadSize, key, start)
  {
    Page(MapAlbums(Slice(backing, start, start + loadSize), toAlbum),
         if key == 0 then None else Some(key - 1),
         if start >= |backing| then None else Some(key + 1))
  }

  /** Over a backing list, `load` of page `key` returns `CrawlPage` at that key. */
  lemma LoadStep<D, A>(backing: seq<D>, loadSize: Int32, key: Int32, start: int, toAlbum: D -> A)
    requires CrawlAt(|backing|, loadSize, key, start)
    ensures Load(LoadParams(Some(key), loadSize), BackedBy(backing, loadSize), toAlbum)
         == PageResult(CrawlPage(backing, loadSize, key, start, toAlbum))
  {
    assert StartIndex(LoadParams(Some(key), loadSize)) == start;
    assert BackedBy(backing, loadSize)(start) == Items(Slice(backing, start, start + loadSize));
  }

  /**
   * The pages a pager appends from page `key` over an endpoint whose server
   * pages hold `loadSize` items: it loads the key, then the page's next key,
   * and stops at the first page without one.
   */
  function Crawl<D, A>(backing: seq<D>, loadSize: Int32, key: Int32, start: int, toAlbum: D -> A): seq<Page<A>>
    requires CrawlAt(|backing|, loadSize, key, start)
    decreases |backing| + loadSize - start
  {
    var page := CrawlPage(backing, loadSize, key, start, toAlbum);
    if page.nextKey.None? then [page]
    else
      CrawlAdvance(|backing|, loadSize, key, start);
      [page] + Crawl(backing, loadSize, page.nextKey.value, start + loadSize, toAlbum)
  }

  /** The crawl from the first load, whose key is absent and so page 0. */
  function LoadAll<D, A>(backing: seq<D>, loadSize: Int32, toAlbum: D -> A): seq<Page<A>>
    requires 0 < loadSize && |backing| + loadSize <= 0x8000_0000
  {
    Crawl(backing, loadSize, 0, 0, toAlbum)
  }

  /** Every page but the last is non-empty, and the last is empty and names no next page. */
  ghost predicate EndsOnFirstEmptyPage<A>(pages: seq<Page<A>>) {
    && pages != []
    && pages[|pages| - 1].data == [] && pages[|pages| - 1].nextKey.None?
    && forall i :: 0 <= i < |pages| - 1 ==> pages[i].data != []
  }

  lemma EndsOnFirstEmptyPageCons<A>(page: Page<A>, rest: seq<Page<A>>)
    requires EndsOnFirstEmptyPage(rest) && page.data != []
    ensures EndsOnFirstEmptyPage([page] + rest)
  {
    var pages := [page] + rest;
    assert pages[|pages| - 1] == rest[|rest| - 1];
    forall i | 1 <= i < |pages| - 1
      ensures pages[i].data != []
    {
      assert pages[i] == rest[i - 1];
    }
  }

  /** The crawl from `key` ends on its only empty page, which names no next page. */
  lemma {:induction false} CrawlEnds<D, A>(backing: seq<D>, loadSize: Int32, key: Int32, start: int, toAlbum: D -> A)
    requires CrawlAt(|backing|, loadSize, key, start)
    decreases |backing| + loadSize - start
    ensures EndsOnFirstEmptyPage(Crawl(backing, loadSize, key, start, toAlbum))
  {
    var page := CrawlPage(backing, loadSize, key, start, toAlbum);
    if start < |backing| {
      CrawlAdvance(|backing|, loadSize, key, start);
      var rest := Crawl(backing, loadSize, key + 1, start + loadSize, toAlbum);
      assert Crawl(backing, loadSize, key, start, toAlbum) == [page] + rest;
      CrawlEnds(backing, loadSize, key + 1, start + loadSize, toAlbum);
      assert |Slice(backing, start, start + loadSize)| > 0;
      EndsOnFirstEmptyPageCons(page, rest);
    } else {
      assert Crawl(backing, loadSize, key, start, toAlbum) == [page];
    }
  }

  /** Page `i` has `key + i - 1` as previous key (none for page number 0) and `key + i + 1` as next key unless it is the last. */
  ghost predicate ConsecutiveKeys<A>(pages: seq<Page<A>>, key: int) {
    && (forall i :: 0 <= i < |pages| ==> pages[i].prevKey == if key + i == 0 then None else Some(key + i - 1))
    && (forall i :: 0 <= i < |pages| - 1 ==> pages[i].nextKey == Some(key + i + 1))
  }

  lemma ConsecutiveKeysCons<A>(page: Page<A>, rest: seq<Page<A>>, key: int)
    requires ConsecutiveKeys(rest, key + 1)
    requires page.prevKey == (if key == 0 then None else Some(key - 1))
    requires rest != [] ==> page.nextKey == Some(key + 1)
    ensures ConsecutiveKeys([page] + rest, key)
  {
    var pages := [page] + rest;
    forall i | 1 <= i < |pages|
      ensures pages[i].prevKey == if key + i == 0 then None else Some(key + i - 1)
      ensures i < |pages| - 1 ==> pages[i].nextKey == Some(key + i + 1)
    {
      assert pages[i] == rest[i - 1];
    }
  }

  /** The pages from `key` carry consecutive page numbers. */
  lemma {:induction false} CrawlKeys<D, A>(backing: seq<D>, loadSize: Int32, key: Int32, start: int, toAlbum: D -> A)
    requires CrawlAt(|backing|, loadSize, key, start)
    decreases |backing| + loadSize - start
    ensures ConsecutiveKeys(Crawl(backing, loadSize, key, start, toAlbum), key)
  {
    var page := CrawlPage(backing, loadSize, key, start, toAlbum);
    if start < |backing| {
      CrawlAdvance(|backing|, loadSize, key, start);
      var rest := Crawl(backing, loadSize, key + 1, start + loadSize, toAlbum);
      assert Crawl(backing, loadSize, key, start, toAlbum) == [page] + rest;
      CrawlKeys(backing, loadSize, key + 1, start + loadSize, toAlbum);
      ConsecutiveKeysCons(page, rest, key);
    } else {
      assert Crawl(backing, loadSize, key, start, toAlbum) == [page] + [];
      ConsecutiveKeysCons(page, [], key);
    }
  }

  lemma MapAlbumsAppend<D, A>(xs: seq<D>, ys: seq<D>, toAlbum: D -> A)
    ensures MapAlbums(xs + ys, toAlbum) == MapAlbums(xs, toAlbum) + MapAlbums(ys, toAlbum)
  {
  }

  lemma SliceSplit<D>(backing: seq<D>, lo: int, mid: int)
    requires 0 <= lo <= mid
    ensures Slice(backing, lo, |backing|) == Slice(backing, lo, mid) + Slice(backing, mid, |backing|)
  {
    if mid <= |backing| {
      assert backing[lo..] == backing[lo..mid] + backing[mid..];
    }
  }

  /** Together, the pages from `key` hold the mapped backing list from their first start index on. */
  lemma {:induction false} CrawlData<D, A>(backing: seq<D>, loadSize: Int32, key: Int32, start: int, toAlbum: D -> A)
    requires CrawlAt(|backing|, loadSize, key, start)
    decreases |backing| + loadSize - start
    ensures AllData(Crawl(backing, loadSize, key, start, toAlbum)) == MapAlbums(Slice(backing, start, |backing|), toAlbum)
  {
    var pages := Crawl(backing, loadSize, key, start, toAlbum);
    if start >= |backing| {
      assert AllData(pages) == pages[0].data + AllData([]);
    } else {
      CrawlAdvance(|backing|, loadSize, key, start);
      var rest := Crawl(backing, loadSize, key + 1, start + loadSize, toAlbum);
      CrawlData(backing, loadSize, key + 1, start + loadSize, toAlbum);
      assert pages[1..] == rest;
      var next := start + loadSize;
      SliceSplit(backing, start, next);
      MapAlbumsAppend(Slice(backing, start, next), Slice(backing, next, |backing|), toAlbum);
    }
  }

  /** The number of pages of `loadSize` items needed to cover `remaining` items. */
  function PagesToCover(remaining: int, loadSize: int): nat
    requires 0 < loadSize
    decreases remaining
  {
    if remaining <= 0 then 0 else 1 + PagesToCover(remaining - loadSize, loadSize)
  }

  /** `PagesToCover` is the remaining count over the load size, rounded up. */
  lemma {:induction false} PagesToCoverIsCeiling(remaining: int, loadSize: int)
    requires 0 < loadSize && 0 <= remaining
    decreases remaining
    ensures PagesToCover(remaining, loadSize) * loadSize >= remaining
    ensures remaining > 0 ==> (PagesToCover(remaining, loadSize) - 1) * loadSize < remaining
    ensures remaining == 0 ==> PagesToCover(remaining, loadSize) == 0
  {
    if remaining > loadSize {
      PagesToCoverIsCeiling(remaining - loadSize, loadSize);
      NextMultiple(PagesToCover(remaining - loadSize, loadSize), loadSize);
      NextMultiple(PagesToCover(remaining - loadSize, loadSize) - 1, loadSize);
    } else if remaining > 0 {
      assert PagesToCover(remaining - loadSize, loadSize) == 0;
    }
  }

  /** The crawl from `key` holds one non-empty page per `loadSize` items left, rounded up, and one empty page. */
  lemma {:induction false} CrawlCount<D, A>(backing: seq<D>, loadSize: Int32, key: Int32, start: int, toAlbum: D -> A)
    requires CrawlAt(|backing|, loadSize, key, start)
    decreases |backing| + loadSize - start
    ensures |Crawl(backing, loadSize, key, start, toAlbum)| == PagesToCover(|backing| - start, loadSize) + 1
  {
    if start < |backing| {
      CrawlAdvance(|backing|, loadSize, key, start);
      CrawlCount(backing, loadSize, key + 1, start + loadSize, toAlbum);
    }
  }

  /**
   * Loading from the first page walks the pages 0, 1, ... in order: each is
   * what `load` returns for its key (the first load passes no key), every
   * page but the last is non-empty and names the next page, and the last is
   * empty and names none.
   */
  lemma LoadAllWalksPages<D, A>(backing: seq<D>, loadSize: Int32, toAlbum: D -> A)
    requires 0 < loadSize && |backing| + loadSize <= 0x8000_0000
    ensures var pages := LoadAll(backing, loadSize, toAlbum);
      && pages != []
      && pages[|pages| - 1].data == [] && pages[|pages| - 1].nextKey.None?
      && (forall i :: 0 <= i < |pages| ==> pages[i].prevKey == if i == 0 then None else Some(i - 1))
      && (forall i :: 0 <= i < |pages| - 1 ==> pages[i].data != [] && pages[i].nextKey == Some(i + 1))
      && Load(LoadParams(None, loadSize), BackedBy(backing, loadSize), toAlbum) == PageResult(pages[0])
      && PagesAreLoads(backing, loadSize, toAlbum, pages, 0)
  {
    CrawlEnds(backing, loadSize, 0, 0, toAlbum);
    CrawlKeys(backing, loadSize, 0, 0, toAlbum);
    CrawlPagesAreLoads(backing, loadSize, 0, 0, toAlbum);
    assert PageNumber(LoadParams(None, loadSize)) == PageNumber(LoadParams(Some(0), loadSize));
  }

  /**
   * Together the pages loaded from the first page hold the whole mapped list,
   * in order, and there are as many non-empty ones as the list length over
   * the load size, rounded up.
   */
  lemma LoadAllReadsWholeList<D, A>(backing: seq<D>, loadSize: Int32, toAlbum: D -> A)
    requires 0 < loadSize && |backing| + loadSize <= 0x8000_0000
    ensures var pages := LoadAll(backing, loadSize, toAlbum);
      && AllData(pages) == MapAlbums(backing, toAlbum)
      && |pages| == PagesToCover(|backing|, loadSize) + 1
  {
    CrawlData(backing, loadSize, 0, 0, toAlbum);
    CrawlCount(backing, loadSize, 0, 0, toAlbum);
    assert Slice(backing, 0, |backing|) == backing;
  }

  /** `load` of page `key` over the backing list returns `page`. */
  ghost predicate LoadsTo<D, A>(backing: seq<D>, loadSize: Int32, toAlbum: D -> A, key: int, page: Page<A>) {
    && -0x8000_0000 <= key < 0x8000_0000
    && Load(LoadParams(Some(key), loadSize), BackedBy(backing, loadSize), toAlbum) == PageResult(page)
  }

  /** Page `i` is what `load` of page `key + i` returns over the backing list. */
  ghost predicate PagesAreLoads<D, A>(backing: seq<D>, loadSize: Int32, toAlbum: D -> A, pages: seq<Page<A>>, key: int) {
    forall i :: 0 <= i < |pages| ==> LoadsTo(backing, loadSize, toAlbum, key + i, pages[i])
  }

  lemma PagesAreLoadsCons<D, A>(backing: seq<D>, loadSize: Int32, toAlbum: D -> A, page: Page<A>, rest: seq<Page<A>>, key: int)
    requires PagesAreLoads(backing, loadSize, toAlbum, rest, key + 1)
    requires LoadsTo(backing, loadSize, toAlbum, key, page)
    ensures PagesAreLoads(backing, loadSize, toAlbum, [page] + rest, key)
  {
    var pages := [page] + rest;
    forall i | 0 <= i < |pages|
      ensures LoadsTo(backing, loadSize, toAlbum, key + i, pages[i])
    {
      if i > 0 {
        var j := i - 1;
        assert pages[i] == rest[j];
        assert key + 1 + j == key + i;
      }
    }
  }

  /** Each page of the crawl is what `load` returns for its key. */
  lemma {:induction false} CrawlPagesAreLoads<D, A>(backing: seq<D>, loadSize: Int32, key: Int32, start: int, toAlbum: D -> A)
    requires CrawlAt(|backing|, loadSize, key, start)
    decreases |backing| + loadSize - start
    ensures PagesAreLoads(backing, loadSize, toAlbum, Crawl(backing, loadSize, key, start, toAlbum), key)
  {
    var page := CrawlPage(backing, loadSize, key, start, toAlbum);
    LoadStep(backing, loadSize, key, start, toAlbum);
    if start < |backing| {
      CrawlAdvance(|backing|, loadSize, key, start);
      var rest := Crawl(backing, loadSize, key + 1, start + loadSize, toAlbum);
      assert Crawl(backing, loadSize, key, start, toAlbum) == [page] + rest;
      CrawlPagesAreLoads(backing, loadSize, key + 1, start + loadSize, toAlbum);
      PagesAreLoadsCons(backing, loadSize, toAlbum, page, rest, key);
    } else {
      assert Crawl(backing, loadSize, key, start, toAlbum) == [page] + [];
      PagesAreLoadsCons(backing, loadSize, toAlbum, page, [], key);
    }
  }

  // ---------------------------------------------------------------------------
  // The refresh key
  // ---------------------------------------------------------------------------

  /** What the pager knows when it asks for a refresh key: the loaded pages and the anchored item index. */
  datatype PagingState<A> = PagingState(pages: seq<Page<A>>, anchorPosition: Option<Int32>)

  /** `getRefreshKey` as written: the anchor position itself. */
  function GetRefreshKey<A>(state: PagingState<A>): (key: Option<Int32>)
    ensures key == state.anchorPosition
  {
    state.anchorPosition
  }

  /** The loaded page holding item `position` (the first or last page when it lies outside them). */
  function ClosestPageToPosition<A>(pages: seq<Page<A>>, position: int): Option<Page<A>> {
    if pages == [] then None
    else if position < |pages[0].data| || |pages| == 1 then Some(pages[0])
    else ClosestPageToPosition(pages[1..], position - |pages[0].data|)
  }

  /** The key of the page holding the anchored item: its previous key plus one, or its next key minus one. */
  function IntendedRefreshKey<A>(state: PagingState<A>): Option<Int32> {
    if state.anchorPosition.None? then None
    else match ClosestPageToPosition(state.pages, state.anchorPosition.value)
      case None => None
      case Some(page) =>
        if page.prevKey.Some? then Some(Wrap32(page.prevKey.value + 1))
        else if page.nextKey.Some? then Some(Wrap32(page.nextKey.value - 1))
        else None
  }

  lemma ClosestPageSkip<A>(pages: seq<Page<A>>, position: int)
    requires |pages| >= 2 && position >= |pages[0].data|
    ensures ClosestPageToPosition(pages, position) == ClosestPageToPosition(pages[1..], position - |pages[0].data|)
  {
  }

  /** Among the pages from `key`, the one found for item `anchor` is the page whose load range holds it. */
  lemma {:induction false} ClosestPageFrom<D, A>(backing: seq<D>, loadSize: Int32, key: Int32, start: int, toAlbum: D -> A, anchor: int)
    requires CrawlAt(|backing|, loadSize, key, start)
    requires start <= anchor < |backing|
    decreases |backing| + loadSize - start
    ensures var found := ClosestPageToPosition(Crawl(backing, loadSize, key, start, toAlbum), anchor - start);
      && found.Some?
      && (found.value.prevKey.Some? || found.value.nextKey.Some?)
      && var k := if found.value.prevKey.Some? then found.value.prevKey.value + 1 else found.value.nextKey.value - 1;
         && 0 <= k < 0x8000_0000
         && k * loadSize <= anchor < k * loadSize + loadSize
  {
    CrawlAdvance(|backing|, loadSize, key, start);
    var pages := Crawl(backing, loadSize, key, start, toAlbum);
    var page := CrawlPage(backing, loadSize, key, start, toAlbum);
    var rest := Crawl(backing, loadSize, key + 1, start + loadSize, toAlbum);
    assert pages == [page] + rest;
    if anchor - start < |page.data| {
      assert ClosestPageToPosition(pages, anchor - start) == Some(page);
    } else {
      assert |page.data| == loadSize;
      CrawlEnds(backing, loadSize, key + 1, start + loadSize, toAlbum);
      ClosestPageFrom(backing, loadSize, key + 1, start + loadSize, toAlbum, anchor);
      ClosestPageSkip(pages, anchor - start);
      assert pages[1..] == rest;
    }
  }

  /** Over the pages loaded from page 0, the intended refresh key is the page whose load range holds the anchor. */
  lemma IntendedRefreshKeyFindsAnchorPage<D, A>(backing: seq<D>, loadSize: Int32, toAlbum: D -> A, anchor: Int32)
    requires 0 < loadSize && |backing| + loadSize <= 0x8000_0000
    requires 0 <= anchor < |backing|
    ensures var key := IntendedRefreshKey(PagingState(LoadAll(backing, loadSize, toAlbum), Some(anchor)));
      && key.Some?
      && 0 <= key.value
      && key.value * loadSize <= anchor < key.value * loadSize + loadSize
  {
    ClosestPageFrom(backing, loadSize, 0, 0, toAlbum, anchor);
    var pages := LoadAll(backing, loadSize, toAlbum);
    var found := ClosestPageToPosition(pages, anchor).value;
    var k := if found.prevKey.Some? then found.prevKey.value + 1 else found.nextKey.value - 1;
    assert IntendedRefreshKey(PagingState(pages, Some(anchor))) == Some(k);
  }

  /** Reloading a page whose load range holds an item of the list brings that item back at its offset. */
  lemma ReloadHoldsAnchor<D, A>(backing: seq<D>, loadSize: Int32, key: Int32, start: int, toAlbum: D -> A, anchor: int)
    requires CrawlAt(|backing|, loadSize, key, start)
    requires start <= anchor < start + loadSize && anchor < |backing|
    ensures var reload := Load(LoadParams(Some(key), loadSize), BackedBy(backing, loadSize), toAlbum);
      && reload.PageResult?
      && anchor - start < |reload.page.data|
      && reload.page.data[anchor - start] == toAlbum(backing[anchor])
  {
    LoadStep(backing, loadSize, key, start, toAlbum);
    var items := Slice(backing, start, start + loadSize);
    assert CrawlPage(backing, loadSize, key, start, toAlbum).data == MapAlbums(items, toAlbum);
    assert items[anchor - start] == backing[anchor];
  }

  /**
   * The intended refresh key: over the pages loaded from page 0, it is the
   * page whose load range holds the anchored item, and reloading that page
   * brings the item back at its offset.
   */
  lemma IntendedRefreshKeyReloadsAnchor<D, A>(backing: seq<D>, loadSize: Int32, toAlbum: D -> A, anchor: Int32)
    requires 0 < loadSize && |backing| + loadSize <= 0x8000_0000
    requires 0 <= anchor < |backing|
    ensures var state := PagingState(LoadAll(backing, loadSize, toAlbum), Some(anchor));
      && IntendedRefreshKey(state).Some?
      && var k := IntendedRefreshKey(state).value;
         && 0 <= k * loadSize <= anchor < k * loadSize + loadSize
         && var reload := Load(LoadParams(Some(k), loadSize), BackedBy(backing, loadSize), toAlbum);
            && reload.PageResult?
            && anchor - k * loadSize < |reload.page.data|
            && reload.page.data[anchor - k * loadSize] == toAlbum(backing[anchor])
  {
    IntendedRefreshKeyFindsAnchorPage(backing, loadSize, toAlbum, anchor);
    var k := IntendedRefreshKey(PagingState(LoadAll(backing, loadSize, toAlbum), Some(anchor))).value;
    KeyBelowStart(k, loadSize);
    ReloadHoldsAnchor(backing, loadSize, k, k * loadSize, toAlbum, anchor);
  }

  /**
   * `getRefreshKey` as written returns an item index where a page number is
   * expected: with 20 albums per page and the user anchored on album 45 of 60,
   * the refresh loads page 45, which starts at index 900 and comes back empty,
   * while the intended key is page 2.
   */
  lemma RefreshKeyAsWrittenMissesAnchor<A>(toAlbum: int -> A)
    ensures var backing := seq(60, i => i);
      var state := PagingState(LoadAll(backing, 20, toAlbum), Some(45));
      && GetRefreshKey(state) == Some(45)
      && Load(LoadParams(GetRefreshKey(state), 20), BackedBy(backing, 20), toAlbum) == PageResult(Page([], Some(44), None))
      && IntendedRefreshKey(state) == Some(2)
  {
    var backing := seq(60, i => i);
    IntendedRefreshKeyFindsAnchorPage(backing, 20, toAlbum, 45);
    assert StartIndex(LoadParams(Some(45), 20)) == 900;
    assert BackedBy(backing, 20)(900) == Items([]);
  }
}
