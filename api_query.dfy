/**
 * The in-memory query side of lib/api-client.ts: categorical filters, then a
 * case-insensitive name search, then a 20-item page; and the image URL
 * builder.
 */
module ApiQuery {
  import opened Catalog
  import opened Seqs
  import opened Text

  const ItemsPerPage: nat := 20
  const CdnBaseUrl := "https://cdn.thesimpsonsapi.com"
  const PlaceholderImage := "/placeholder.webp"
  const DefaultImageSize: nat := 500

  /** What `getCharacters` and its siblings return. */
  datatype PaginatedResponse<T> = PaginatedResponse(data: seq<T>, count: nat, pages: int, currentPage: int)

  /** Query parameters; an empty string or 0 is an absent (falsy) field. */
  datatype CharacterFilters = CharacterFilters(gender: string, status: string, search: string, page: int)
  datatype EpisodeFilters = EpisodeFilters(season: int, search: string, page: int)
  /** `kind` is the source's `type` filter, matched against a location's `use`. */
  datatype LocationFilters = LocationFilters(kind: string, search: string, page: int)

    /** `Math.ceil(n / ITEMS_PER_PAGE)` for a length `n`. */
  function CeilPages(n: nat): (k: nat)
    ensures k * ItemsPerPage >= n
    ensures k > 0 ==> (k - 1) * ItemsPerPage < n
  {
    (n + ItemsPerPage - 1) / ItemsPerPage
  }

  /** The pagination step shared by the three queries (lib/api-client.ts:91-101). */
  function Paginate<T>(items: seq<T>, pageParam: int): (r: PaginatedResponse<T>)
    ensures r.count == |items|
    ensures r.pages >= 1 && r.pages * ItemsPerPage >= |items|
    ensures r.pages > 1 ==> (r.pages - 1) * ItemsPerPage < |items|
    ensures r.currentPage == if pageParam == 0 then 1 else pageParam
    ensures |r.data| <= ItemsPerPage
    ensures r.currentPage >= 1 ==>
              r.data == items[Min((r.currentPage - 1) * ItemsPerPage, |items|)..Min(r.currentPage * ItemsPerPage, |items|)]
    ensures r.currentPage > r.pages ==> r.data == []
  {
    var page := if pageParam == 0 then 1 else pageParam;
    var totalPages := CeilPages(|items|);
    var startIndex := (page - 1) * ItemsPerPage;
    var endIndex := startIndex + ItemsPerPage;
    PaginatedResponse(JsSlice(items, startIndex, endIndex), |items|, if totalPages > 0 then totalPages else 1, page)
  }

  /** Every item sits on exactly the page and slot its position dictates. */
  lemma PageCoversItem<T>(items: seq<T>, k: nat)
    requires k < |items|
    ensures var r := Paginate(items, k / ItemsPerPage + 1);
            k / ItemsPerPage + 1 <= r.pages && k % ItemsPerPage < |r.data| && r.data[k % ItemsPerPage] == items[k]
  {
    var q, m := k / 20, k % 20;
    assert k == 20 * q + m && 0 <= m < 20;
    var r := Paginate(items, q + 1);
    var lo, hi := Min(q * 20, |items|), Min((q + 1) * 20, |items|);
    assert lo == q * 20 && q * 20 + m < hi;
    assert r.data == items[lo..hi];
    assert r.data[m] == items[k];
    var n := r.pages;
    assert n * 20 >= |items|;
    if n <= q {
      MulMono(n, q);
    }
  }

  lemma MulMono(a: int, b: int)
    requires a <= b
    ensures a * 20 <= b * 20
  {
  }

  /** 45 items: three pages of 20, 20 and 5 items; page 4 is empty but still reports 3 pages. */
  lemma FortyFiveItems<T>(items: seq<T>)
    requires |items| == 45
    ensures Paginate(items, 1).pages == 3 && |Paginate(items, 1).data| == 20
    ensures |Paginate(items, 3).data| == 5
    ensures Paginate(items, 4).data == [] && Paginate(items, 4).pages == 3
  {
  }

  /** No matches: one page, empty, for the first page. */
  lemma NoResults<T>(items: seq<T>)
    requires items == []
    ensures Paginate(items, 1) == PaginatedResponse([], 0, 1, 1)
  {
  }

  /** A filter stage that runs only when its parameter is present. */
  function Stage<T(!new)>(active: bool, s: seq<T>, p: T -> bool): seq<T> {
    if active then Filter(s, p) else s
  }

  /** An optional stage is a filter by "inactive, or the predicate holds". */
  lemma StageIsFilter<T(!new)>(active: bool, s: seq<T>, p: T -> bool, q: T -> bool)
    requires forall x :: q(x) == (!active || p(x))
    ensures Stage(active, s, p) == Filter(s, q)
  {
    if active {
      FilterSame(s, p, q);
    } else {
      FilterKeepsAll(s, q);
    }
  }

  /** Two optional stages are one filter by the conjunction of their conditions. */
  lemma TwoStages<T(!new)>(s: seq<T>, a1: bool, p1: T -> bool, a2: bool, p2: T -> bool, q: T -> bool)
    requires forall x :: q(x) == ((!a1 || p1(x)) && (!a2 || p2(x)))
    ensures Stage(a2, Stage(a1, s, p1), p2) == Filter(s, q)
  {
    var q1 := (x: T) => !a1 || p1(x);
    var q2 := (x: T) => !a2 || p2(x);
    StageIsFilter(a1, s, p1, q1);
    StageIsFilter(a2, Filter(s, q1), p2, q2);
    FilterFuse(s, q1, q2, q);
  }

  /** Three optional stages are one filter by the conjunction of their conditions. */
  lemma ThreeStages<T(!new)>(s: seq<T>, a1: bool, p1: T -> bool, a2: bool, p2: T -> bool, a3: bool, p3: T -> bool,
                             q: T -> bool)
    requires forall x :: q(x) == ((!a1 || p1(x)) && (!a2 || p2(x)) && (!a3 || p3(x)))
    ensures Stage(a3, Stage(a2, Stage(a1, s, p1), p2), p3) == Filter(s, q)
  {
    var q12 := (x: T) => (!a1 || p1(x)) && (!a2 || p2(x));
    var q3 := (x: T) => !a3 || p3(x);
    TwoStages(s, a1, p1, a2, p2, q12);
    StageIsFilter(a3, Filter(s, q12), p3, q3);
    FilterFuse(s, q12, q3, q);
  }

  /** Case-insensitive substring search on a name. */
  predicate NameMatches(name: string, search: string) {
    Includes(ToLower(name), ToLower(search))
  }

  /** What a character must satisfy to pass every present filter. */
  predicate CharacterSelected(c: Character, f: CharacterFilters) {
    && (f.gender == "" || EqualsIgnoreCase(c.gender, f.gender))
    && (f.status == "" || EqualsIgnoreCase(c.status, f.status))
    && (f.search == "" || NameMatches(c.name, f.search))
  }

  /** Gender, then status, then name search (lib/api-client.ts:71-88). */
  function FilterCharacters(all: seq<Character>, f: CharacterFilters): seq<Character> {
    var byGender := Stage(f.gender != "", all, (c: Character) => EqualsIgnoreCase(c.gender, f.gender));
    var byStatus := Stage(f.status != "", byGender, (c: Character) => EqualsIgnoreCase(c.status, f.status));
    Stage(f.search != "", byStatus, (c: Character) => NameMatches(c.name, f.search))
  }

  /** The staged character filters are one order-preserving filter by `CharacterSelected`. */
  lemma CharacterFilterSpec(all: seq<Character>, f: CharacterFilters)
    ensures FilterCharacters(all, f) == Filter(all, (c: Character) => CharacterSelected(c, f))
    ensures IsSubsequence(FilterCharacters(all, f), all)
    ensures forall c :: c in FilterCharacters(all, f) <==> c in all && CharacterSelected(c, f)
  {
    var selected := (c: Character) => CharacterSelected(c, f);
    ThreeStages(all, f.gender != "", (c: Character) => EqualsIgnoreCase(c.gender, f.gender),
                f.status != "", (c: Character) => EqualsIgnoreCase(c.status, f.status),
                f.search != "", (c: Character) => NameMatches(c.name, f.search), selected);
    FilterIsSubsequence(all, selected);
  }

  /** What an episode must satisfy: exact season (when non-zero) and the name search. */
  predicate EpisodeSelected(e: Episode, f: EpisodeFilters) {
    && (f.season == 0 || e.season == f.season)
    && (f.search == "" || NameMatches(e.name, f.search))
  }

  /** Season, then name search (lib/api-client.ts:180-189). */
  function FilterEpisodes(all: seq<Episode>, f: EpisodeFilters): seq<Episode> {
    var bySeason := Stage(f.season != 0, all, (e: Episode) => e.season == f.season);
    Stage(f.search != "", bySeason, (e: Episode) => NameMatches(e.name, f.search))
  }

  /** The staged episode filters are one order-preserving filter by `EpisodeSelected`. */
  lemma EpisodeFilterSpec(all: seq<Episode>, f: EpisodeFilters)
    ensures FilterEpisodes(all, f) == Filter(all, (e: Episode) => EpisodeSelected(e, f))
    ensures IsSubsequence(FilterEpisodes(all, f), all)
    ensures forall e :: e in FilterEpisodes(all, f) <==> e in all && EpisodeSelected(e, f)
  {
    var selected := (e: Episode) => EpisodeSelected(e, f);
    TwoStages(all, f.season != 0, (e: Episode) => e.season == f.season,
              f.search != "", (e: Episode) => NameMatches(e.name, f.search), selected);
    FilterIsSubsequence(all, selected);
  }

  /** What a location must satisfy: `use` equal to the type ignoring case, and the name search. */
  predicate LocationSelected(l: Location, f: LocationFilters) {
    && (f.kind == "" || EqualsIgnoreCase(l.use, f.kind))
    && (f.search == "" || NameMatches(l.name, f.search))
  }

  /** Type, then name search (lib/api-client.ts:282-293). */
  function FilterLocations(all: seq<Location>, f: LocationFilters): seq<Location> {
    var byType := Stage(f.kind != "", all, (l: Location) => EqualsIgnoreCase(l.use, f.kind));
    Stage(f.search != "", byType, (l: Location) => NameMatches(l.name, f.search))
  }

  /** The staged location filters are one order-preserving filter by `LocationSelected`. */
  lemma LocationFilterSpec(all: seq<Location>, f: LocationFilters)
    ensures FilterLocations(all, f) == Filter(all, (l: Location) => LocationSelected(l, f))
    ensures IsSubsequence(FilterLocations(all, f), all)
    ensures forall l :: l in FilterLocations(all, f) <==> l in all && LocationSelected(l, f)
  {
    var selected := (l: Location) => LocationSelected(l, f);
    TwoStages(all, f.kind != "", (l: Location) => EqualsIgnoreCase(l.use, f.kind),
              f.search != "", (l: Location) => NameMatches(l.name, f.search), selected);
    FilterIsSubsequence(all, selected);
  }

  function QueryCharacters(all: seq<Character>, f: CharacterFilters): PaginatedResponse<Character> {
    Paginate(FilterCharacters(all, f), f.page)
  }

  function QueryEpisodes(all: seq<Episode>, f: EpisodeFilters): PaginatedResponse<Episode> {
    Paginate(FilterEpisodes(all, f), f.page)
  }

  function QueryLocations(all: seq<Location>, f: LocationFilters): PaginatedResponse<Location> {
    Paginate(FilterLocations(all, f), f.page)
  }

  function SampleCharacter(name: string, status: string): Character {
    Character(0, name, AgeYears(10), "", "Male", "", status, "", [])
  }

  /** Which of three sample characters the filters status "Alive" and search "bart" select. */
  lemma BartSelection()
    ensures var f := CharacterFilters("", "Alive", "bart", 0);
            && CharacterSelected(SampleCharacter("Bart Simpson", "Alive"), f)
            && !CharacterSelected(SampleCharacter("Bartholomew", "Deceased"), f)
            && CharacterSelected(SampleCharacter("Bart Jr", "Alive"), f)
  {
    assert ToLower("bart") == "bart";
    assert ToLower("Alive") == "alive";
    assert ToLower("Deceased") == "deceased";
    assert ToLower("Bart Simpson")[..4] == "bart";
    assert ToLower("Bart Jr")[..4] == "bart";
  }

  /** status "Alive" with search "bart" keeps the living Barts and drops the deceased one. */
  lemma BartQuery()
    ensures var all := [SampleCharacter("Bart Simpson", "Alive"),
                        SampleCharacter("Bartholomew", "Deceased"),
                        SampleCharacter("Bart Jr", "Alive")];
            var r := QueryCharacters(all, CharacterFilters("", "Alive", "bart", 0));
            r.data == [all[0], all[2]] && r.count == 2 && r.pages == 1 && r.currentPage == 1
  {
    var all := [SampleCharacter("Bart Simpson", "Alive"),
                SampleCharacter("Bartholomew", "Deceased"),
                SampleCharacter("Bart Jr", "Alive")];
    var f := CharacterFilters("", "Alive", "bart", 0);
    BartFiltered(all, f);
    CharacterFilterSpec(all, f);
    var kept := FilterCharacters(all, f);
    assert kept == [all[0], all[2]];
    FirstPageOfFew(kept);
  }

  /** Up to a page's worth of items, asked for with page 0, comes back whole on a single page. */
  lemma FirstPageOfFew<T>(items: seq<T>)
    requires |items| <= ItemsPerPage
    ensures var r := Paginate(items, 0);
            r.data == items && r.count == |items| && r.pages == 1 && r.currentPage == 1
  {
    assert items[0..|items|] == items;
  }

  /** The filtering half of `BartQuery`: the deceased Bartholomew is the only one dropped. */
  lemma BartFiltered(all: seq<Character>, f: CharacterFilters)
    requires all == [SampleCharacter("Bart Simpson", "Alive"),
                     SampleCharacter("Bartholomew", "Deceased"),
                     SampleCharacter("Bart Jr", "Alive")]
    requires f == CharacterFilters("", "Alive", "bart", 0)
    ensures Filter(all, (c: Character) => CharacterSelected(c, f)) == [all[0], all[2]]
  {
    BartSelection();
    FilterOfThree(all[0], all[1], all[2], (c: Character) => CharacterSelected(c, f));
  }

  /** The path with exactly one leading "/" removed, when there is one. */
  function CleanPath(path: string): string {
    if StartsWith(path, "/") then path[1..] else path
  }

  /** `getImageUrl(path, size)`. */
  function ImageUrl(path: string, size: nat): (url: string)
    ensures path == "" ==> url == PlaceholderImage
    ensures path != "" ==> StartsWith(url, CdnBaseUrl + "/")
    ensures path != "" ==> |url| == |CdnBaseUrl| + |DecimalString(size)| + 2 + |CleanPath(path)|
    ensures path != "" ==> url[|url| - |CleanPath(path)|..] == CleanPath(path)
    ensures path != "" ==> url[|CdnBaseUrl| + 1..|CdnBaseUrl| + 1 + |DecimalString(size)|] == DecimalString(size)
    ensures path != "" ==> url[|CdnBaseUrl| + 1 + |DecimalString(size)|] == '/'
  {
    if path == "" then PlaceholderImage
    else CdnBaseUrl + "/" + DecimalString(size) + "/" + CleanPath(path)
  }

  /** One leading "/" makes no difference to the URL; a second one is kept. */
  lemma ImageUrlLeadingSlash(path: string, size: nat)
    requires path != ""
    ensures ImageUrl("/" + path, size) == ImageUrl(path, size) <==> !StartsWith(path, "/")
  {
    assert ("/" + path)[1..] == path;
    if StartsWith(path, "/") {
      assert |ImageUrl("/" + path, size)| == |ImageUrl(path, size)| + 1;
    }
  }

  /** The size segment of a CDN URL reads back as the requested size. */
  lemma ImageUrlSize(path: string, size: nat)
    requires path != ""
    ensures var url := ImageUrl(path, size);
            var seg := url[|CdnBaseUrl| + 1..|CdnBaseUrl| + 1 + |DecimalString(size)|];
            AllDigits(seg) && DecimalValue(seg) == size
  {
    DecimalRoundTrip(size);
  }

  /** With the size left out, the URL asks the CDN for the 500-pixel rendition. */
  lemma DefaultSizeUrl(path: string)
    requires path != ""
    ensures ImageUrl(path, DefaultImageSize) == CdnBaseUrl + "/500/" + CleanPath(path)
  {
    assert DecimalString(5) == "5";
    assert DecimalString(50) == "50";
    assert DecimalString(500) == "500";
    var c := CleanPath(path);
    assert ImageUrl(path, DefaultImageSize) == CdnBaseUrl + "/" + "500" + "/" + c;
    assert "/" + "500" + "/" == "/500/";
  }
}
