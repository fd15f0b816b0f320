/**
 * The collection side of lib/api-client.ts: assembling a whole paginated
 * collection from the upstream API, memoising it per resource type, and
 * answering queries from it.
 */
module ApiClient {
  import opened Wrappers
  import opened Catalog
  import opened ApiQuery

  /** One upstream page: `results` (a missing array reads as empty) and `pages` (missing reads as 0). */
  datatype Page<T> = Page(results: seq<T>, pages: int)

  /**
   * The upstream gateway: what a request for page p yields, or None when the
   * request or its JSON parse fails, or, for page 1, the status is not ok.
   */
  type Gateway<T> = int -> Option<Page<T>>

  /** `firstData.pages || 1`. */
  function PageCount(pages: int): int {
    if pages == 0 then 1 else pages
  }

  /** The last page fetched: `pages || 1`, or 1 when that is below 1 (the loop to it does not run). */
  function LastPage(pages: int): (n: int)
    ensures n >= 1 && (PageCount(pages) >= 1 ==> n == PageCount(pages))
  {
    if PageCount(pages) < 1 then 1 else PageCount(pages)
  }

  /** The responses to the requests for pages 2..n, indexed by page. */
  function Remaining<T>(gw: Gateway<T>, n: int): (rs: seq<Option<Page<T>>>)
    ensures |rs| == if n < 2 then 0 else n - 1
  {
    seq(if n < 2 then 0 else n - 1, i => gw(i + 2))
  }

  predicate AllSucceeded<T>(rs: seq<Option<Page<T>>>) {
    forall i :: 0 <= i < |rs| ==> rs[i].Some?
  }

  /** The results of successful responses, concatenated in order. */
  function ConcatResults<T>(rs: seq<Option<Page<T>>>): seq<T>
    requires AllSucceeded(rs)
    decreases |rs|
  {
    if rs == [] then [] else ConcatResults(rs[..|rs| - 1]) + rs[|rs| - 1].value.results
  }

  /** `Promise.all` followed by the in-order pushes: any failure fails the whole join. */
  function Joined<T>(rs: seq<Option<Page<T>>>): Option<seq<T>> {
    if AllSucceeded(rs) then Some(ConcatResults(rs)) else None
  }

  /** The assembled collection, or None when any request fails. */
  function Collection<T>(gw: Gateway<T>): Option<seq<T>> {
    match gw(1)
    case None => None
    case Some(first) =>
      match Joined(Remaining(gw, PageCount(first.pages)))
      case None => None
      case Some(rest) => Some(first.results + rest)
  }

  /** The pages requested by one population: page 1, then (if it succeeded) pages 2..n. */
  function Requests<T>(gw: Gateway<T>): seq<nat> {
    match gw(1)
    case None => [1]
    case Some(first) =>
      var n := PageCount(first.pages);
      [1] + seq(if n < 2 then 0 else n - 1, i => i + 2)
  }

  /**
   * Reference definition of a collection: pages p..n fetched front to back,
   * each page's results followed by the rest.
   */
  function PagesFrom<T>(gw: Gateway<T>, p: int, n: int): Option<seq<T>>
    decreases n - p
  {
    if p > n then Some([])
    else match gw(p)
      case None => None
      case Some(pg) =>
        match PagesFrom(gw, p + 1, n)
        case None => None
        case Some(rest) => Some(pg.results + rest)
  }

  /** Extending the range by one page appends that page's results at the end. */
  lemma {:induction false} PagesFromSnoc<T>(gw: Gateway<T>, p: int, n: int)
    requires p <= n + 1
    ensures PagesFrom(gw, p, n + 1) ==
            match PagesFrom(gw, p, n)
            case None => None
            case Some(s) => (match gw(n + 1) case None => None case Some(pg) => Some(s + pg.results))
    decreases n - p
  {
    if p <= n {
      PagesFromSnoc(gw, p + 1, n);
      match gw(p)
      case None =>
      case Some(pg) =>
        match PagesFrom(gw, p + 1, n)
        case None =>
        case Some(rest) =>
          match gw(n + 1)
          case None =>
          case Some(last) =>
            assert pg.results + (rest + last.results) == (pg.results + rest) + last.results;
    } else {
      assert PagesFrom(gw, p + 1, n + 1) == Some([]);
      match gw(n + 1)
      case None =>
      case Some(last) =>
        assert last.results + [] == [] + last.results;
    }
  }

  /** Joining the responses for pages 2..n is fetching pages 2..n front to back. */
  lemma {:induction false} JoinedIsPagesFrom<T>(gw: Gateway<T>, n: int)
    ensures Joined(Remaining(gw, n)) == PagesFrom(gw, 2, n)
    decreases n
  {
    var rs := Remaining(gw, n);
    if n >= 2 {
      JoinedIsPagesFrom(gw, n - 1);
      PagesFromSnoc(gw, 2, n - 1);
      var prev := Remaining(gw, n - 1);
      assert rs[..|rs| - 1] == prev;
      assert rs[|rs| - 1] == gw(n);
      if AllSucceeded(rs) {
        assert AllSucceeded(prev) by {
          forall i | 0 <= i < |prev| ensures prev[i].Some? { assert prev[i] == rs[i]; }
        }
      } else if AllSucceeded(prev) {
        assert gw(n).None?;
      }
    }
  }

  /**
   * The collection is page 1's results followed by pages 2..N in ascending
   * page order, where N is `pages` or 1 when `pages` is 0; it fails exactly
   * when one of those requests fails.
   */
  lemma CollectionInPageOrder<T>(gw: Gateway<T>)
    ensures gw(1).None? ==> Collection(gw) == None
    ensures gw(1).Some? ==> Collection(gw) == PagesFrom(gw, 1, LastPage(gw(1).value.pages))
  {
    if gw(1).Some? {
      var n := PageCount(gw(1).value.pages);
      JoinedIsPagesFrom(gw, n);
      JoinedIsPagesFrom(gw, LastPage(gw(1).value.pages));
      assert Remaining(gw, n) == Remaining(gw, LastPage(gw(1).value.pages));
    }
  }

  /** Front-to-back fetching fails exactly when some page in the range fails. */
  lemma {:induction false} PagesFromFails<T>(gw: Gateway<T>, p: int, n: int)
    ensures PagesFrom(gw, p, n).None? <==> exists k :: p <= k <= n && gw(k).None?
    decreases n - p
  {
    if p <= n {
      PagesFromFails(gw, p + 1, n);
      if gw(p).None? {
        assert p <= p <= n && gw(p).None?;
      }
    }
  }

  /** The collection is missing exactly when page 1 or some page 2..N fails. */
  lemma CollectionFails<T>(gw: Gateway<T>)
    ensures Collection(gw).None? <==>
              gw(1).None? || exists k :: 2 <= k <= LastPage(gw(1).value.pages) && gw(k).None?
  {
    if gw(1).Some? {
      var n := PageCount(gw(1).value.pages);
      JoinedIsPagesFrom(gw, n);
      PagesFromFails(gw, 2, n);
    }
  }

  /** With `pages` 0, 1 or negative, page 1 stands alone and no other page is requested. */
  lemma SinglePage<T>(gw: Gateway<T>)
    requires gw(1).Some? && LastPage(gw(1).value.pages) == 1
    ensures Collection(gw) == Some(gw(1).value.results)
    ensures Requests(gw) == [1]
  {
    assert gw(1).value.results + [] == gw(1).value.results;
  }

  /** Three pages of two items each assemble to the six items in page order. */
  lemma ThreePages()
    ensures var gw: Gateway<int> := p => if p == 1 then Some(Page([1, 2], 3))
                                         else if p == 2 then Some(Page([3, 4], 3))
                                         else if p == 3 then Some(Page([5, 6], 3))
                                         else None;
            Collection(gw) == Some([1, 2, 3, 4, 5, 6]) && Requests(gw) == [1, 2, 3]
  {
    var gw: Gateway<int> := p => if p == 1 then Some(Page([1, 2], 3))
                                 else if p == 2 then Some(Page([3, 4], 3))
                                 else if p == 3 then Some(Page([5, 6], 3))
                                 else None;
    CollectionInPageOrder(gw);
    assert gw(1) == Some(Page([1, 2], 3)) && gw(2) == Some(Page([3, 4], 3)) && gw(3) == Some(Page([5, 6], 3));
    assert PagesFrom(gw, 4, 3) == Some([]);
    assert [5, 6] + [] == [5, 6];
    assert PagesFrom(gw, 3, 3) == Some([5, 6]);
    assert [3, 4] + [5, 6] == [3, 4, 5, 6];
    assert PagesFrom(gw, 2, 3) == Some([3, 4, 5, 6]);
    assert [1, 2] + [3, 4, 5, 6] == [1, 2, 3, 4, 5, 6];
    assert PagesFrom(gw, 1, 3) == Some([1, 2, 3, 4, 5, 6]);
  }

  /**
   * One population: request page 1; if it succeeded, dispatch requests for
   * pages 2..N, then join them in page order.
   */
  method FetchCollection<T>(gw: Gateway<T>) returns (r: Option<seq<T>>, requested: seq<nat>)
    ensures r == Collection(gw)
    ensures requested == Requests(gw)
  {
    requested := [1];
    var firstResponse := gw(1);
    if firstResponse.None? {
      return None, requested;
    }
    var firstData := firstResponse.value;
    var all := firstData.results;
    var totalPages := PageCount(firstData.pages);

    var promises: seq<Option<Page<T>>> := [];
    var p := 2;
    while p <= totalPages
      invariant 2 <= p && (totalPages >= 2 ==> p <= totalPages + 1) && (totalPages < 2 ==> p == 2)
      invariant promises == seq(p - 2, i => gw(i + 2))
      invariant requested == [1] + seq(p - 2, i => i + 2)
    {
      promises := promises + [gw(p)];
      requested := requested + [p];
      p := p + 1;
    }
    assert |promises| == |Remaining(gw, totalPages)|;
    assert promises == Remaining(gw, totalPages);

    var i := 0;
    while i < |promises|
      invariant 0 <= i <= |promises|
      invariant AllSucceeded(promises[..i])
      invariant all == firstData.results + ConcatResults(promises[..i])
    {
      if promises[i].None? {
        return None, requested;
      }
      assert promises[..i + 1][..i] == promises[..i];
      all := all + promises[i].value.results;
      i := i + 1;
    }
    assert promises[..i] == promises;
    r := Some(all);
  }

  /** The client: one cache slot per resource type; None until a population succeeds. */
  class SimpsonsApiClient {
    var charactersCache: Option<seq<Character>>
    var episodesCache: Option<seq<Episode>>
    var locationsCache: Option<seq<Location>>

    constructor ()
      ensures charactersCache == None && episodesCache == None && locationsCache == None
    {
      charactersCache, episodesCache, locationsCache := None, None, None;
    }

    /**
     * `fetchAllCharacters`: a filled slot is returned with no request;
     * otherwise the collection is assembled and, on success only, stored.
     * A failure yields the empty list.
     */
    method FetchAllCharacters(gw: Gateway<Character>) returns (r: seq<Character>, requested: seq<nat>)
      modifies this
      ensures old(charactersCache).Some? ==>
                r == old(charactersCache).value && requested == [] && charactersCache == old(charactersCache)
      ensures old(charactersCache).None? ==>
                r == Collection(gw).GetOr([]) && requested == Requests(gw) && charactersCache == Collection(gw)
      ensures episodesCache == old(episodesCache) && locationsCache == old(locationsCache)
    {
      if charactersCache.Some? {
        return charactersCache.value, [];
      }
      var assembled;
      assembled, requested := FetchCollection(gw);
      if assembled.Some? {
        charactersCache := assembled;
        r := assembled.value;
      } else {
        r := [];
      }
    }

    /** `fetchAllEpisodes`, as `FetchAllCharacters` for the episodes slot. */
    method FetchAllEpisodes(gw: Gateway<Episode>) returns (r: seq<Episode>, requested: seq<nat>)
      modifies this
      ensures old(episodesCache).Some? ==>
                r == old(episodesCache).value && requested == [] && episodesCache == old(episodesCache)
      ensures old(episodesCache).None? ==>
                r == Collection(gw).GetOr([]) && requested == Requests(gw) && episodesCache == Collection(gw)
      ensures charactersCache == old(charactersCache) && locationsCache == old(locationsCache)
    {
      if episodesCache.Some? {
        return episodesCache.value, [];
      }
      var assembled;
      assembled, requested := FetchCollection(gw);
      if assembled.Some? {
        episodesCache := assembled;
        r := assembled.value;
      } else {
        r := [];
      }
    }

    /** `fetchAllLocations`, as `FetchAllCharacters` for the locations slot. */
    method FetchAllLocations(gw: Gateway<Location>) returns (r: seq<Location>, requested: seq<nat>)
      modifies this
      ensures old(locationsCache).Some? ==>
                r == old(locationsCache).value && requested == [] && locationsCache == old(locationsCache)
      ensures old(locationsCache).None? ==>
                r == Collection(gw).GetOr([]) && requested == Requests(gw) && locationsCache == Collection(gw)
      ensures charactersCache == old(charactersCache) && episodesCache == old(episodesCache)
    {
      if locationsCache.Some? {
        return locationsCache.value, [];
      }
      var assembled;
      assembled, requested := FetchCollection(gw);
      if assembled.Some? {
        locationsCache := assembled;
        r := assembled.value;
      } else {
        r := [];
      }
    }

    /** `getCharacters`: filter and paginate the (possibly just populated) collection. */
    method GetCharacters(gw: Gateway<Character>, filters: CharacterFilters) returns (resp: PaginatedResponse<Character>)
      modifies this
      ensures resp == QueryCharacters(old(charactersCache).GetOr(Collection(gw).GetOr([])), filters)
      ensures old(charactersCache).Some? ==> charactersCache == old(charactersCache)
      ensures old(charactersCache).None? ==> charactersCache == Collection(gw)
      ensures episodesCache == old(episodesCache) && locationsCache == old(locationsCache)
    {
      var characters, _ := FetchAllCharacters(gw);
      resp := QueryCharacters(characters, filters);
    }

    /** `getEpisodes`: filter and paginate the episodes collection. */
    method GetEpisodes(gw: Gateway<Episode>, filters: EpisodeFilters) returns (resp: PaginatedResponse<Episode>)
      modifies this
      ensures resp == QueryEpisodes(old(episodesCache).GetOr(Collection(gw).GetOr([])), filters)
      ensures old(episodesCache).Some? ==> episodesCache == old(episodesCache)
      ensures old(episodesCache).None? ==> episodesCache == Collection(gw)
      ensures charactersCache == old(charactersCache) && locationsCache == old(locationsCache)
    {
      var episodes, _ := FetchAllEpisodes(gw);
      resp := QueryEpisodes(episodes, filters);
    }

    /** `getLocations`: filter and paginate the locations collection. */
    method GetLocations(gw: Gateway<Location>, filters: LocationFilters) returns (resp: PaginatedResponse<Location>)
      modifies this
      ensures resp == QueryLocations(old(locationsCache).GetOr(Collection(gw).GetOr([])), filters)
      ensures old(locationsCache).Some? ==> locationsCache == old(locationsCache)
      ensures old(locationsCache).None? ==> locationsCache == Collection(gw)
      ensures charactersCache == old(charactersCache) && episodesCache == old(episodesCache)
    {
      var locations, _ := FetchAllLocations(gw);
      resp := QueryLocations(locations, filters);
    }
  }
}
