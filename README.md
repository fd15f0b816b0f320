# Simpsons explorer — a verified model of its core logic

The application is a Next.js front end over the public Simpsons API. It
lists characters, episodes and locations with filters and pagination. It
keeps a list of favourites in the browser's local storage, and shows
navigation, breadcrumbs and dashboard statistics. This project models the
parts of it that hold logic, as Dafny, and proves what they promise:

- **Favourites store** (`favorites.dfy`, module `Favorites`). The
  `FavoritesManager` class reads and writes one stored list of favourites.
  The list is keyed by (id, type). The manager adds, removes, toggles,
  queries, counts and clears entries.
- **Favourites hook** (`favorites_hook.dfy`, module `FavoritesHook`). The
  `UseFavorites` class is the React hook. It keeps a local copy of the
  list, optionally restricted to one type, and updates both the store and
  that copy.
- **API client, collection side** (`api_client.dfy`, module `ApiClient`).
  It assembles a whole collection from the upstream paginated API: page 1
  first, then pages 2..N joined in order. Any request that rejects fails
  the whole collection. A page 2..N answered with a non-ok status but a JSON
  body does not fail: it adds its `results` (usually none), and the partial
  collection is cached. The client keeps one cache per resource type.
- **API client, query side** (`api_query.dfy`, module `ApiQuery`). It
  applies the optional filters, then the case-insensitive name search,
  then a 20-item page. It also builds CDN image URLs.
- **Pagination bar** (`pagination.dfy`, module `Pagination`). This is the
  page-button layout with ellipses, and the previous/next guards.
- **Breadcrumbs** (`breadcrumbs.dfy`, module `Breadcrumbs`). This turns a
  pathname into a "Home / Characters / Character #42" trail.
- **Navigation bar** (`navbar.dfy`, module `Navbar`). These are the six
  links and the rule that decides which one is highlighted.
- **Dashboard statistics** (`stats.dfy`, module `Stats`). These are the
  totals and the per-season episode counts.

Supporting modules:

- `wrappers.dfy` holds `Option`.
- `text.dfy` holds ASCII case mapping, prefix and substring search, and
  decimal digits.
- `seqs.dfy` holds the order-preserving `Filter`, JavaScript's
  `Array.prototype.slice` with negative indices, and lemmas about both.
- `catalog.dfy` holds the entity records of `types/simpsons.ts`.

How the model treats the environment:

- Local storage is a field `stored: Option<seq<Favorite>>`. `None` means
  the key is missing or holds unparseable JSON, and reads as `[]`.
- The outcome of each save is a parameter `saveOk`. A failed save leaves
  the stored list as it was; the source only logs the error.
- The clock is a parameter `now`.
- The network is a `Gateway`: a function from a page number to
  `Some(page)`, or to `None` when the request or its parse fails. For page 1
  only, a non-ok status is also `None`.

## Model

| member | source | states |
|---|---|---|
| Seqs.Filter | lib/favorites.ts:102 | `Array.prototype.filter`: the result keeps exactly the elements that satisfy the predicate and is no longer than the input |
| Seqs.FilterIsSubsequence | lib/favorites.ts:68 | filtering keeps the survivors in their original order |
| Seqs.FilterCommutes | lib/api-client.ts:71-88 | two filter stages give the same list in either order |
| Seqs.FilterComplementSizes | lib/favorites.ts:127 | a filter and its complementary filter keep entries whose counts add up to the whole list |
| Seqs.JsSlice | lib/api-client.ts:95 | `slice(start, end)` is never longer than the input or than `end - start`, and for non-negative bounds is the plain slice with both bounds clamped to the length |
| Text.IncludesIffOccurs | lib/api-client.ts:86 | `includes` holds exactly when the needle occurs at some position |
| Text.DecimalRoundTrip | lib/api-client.ts:345 | the decimal text of a size reads back as that size |
| Favorites.Without | lib/favorites.ts:68 | defines the list without the entries keyed (id, type); its properties are in Favorites.WithoutRemovesExactly |
| Favorites.OfType | lib/favorites.ts:102 | defines the entries of one type, in order |
| Favorites.NotOfType | lib/favorites.ts:127 | defines the entries of every other type, in order |
| Favorites.FindIndex | lib/favorites.ts:51-53 | -1 exactly when no favourite has the (id, type) key; otherwise the first matching position |
| Favorites.HasIffIn | lib/favorites.ts:77 | `some(f => f.id === id && f.type === type)` holds exactly when a matching favourite is in the list |
| Favorites.AppendKeepsUnique | lib/favorites.ts:55-58 | appending a favourite whose key is absent keeps keys unique |
| Favorites.FilterKeepsUnique | lib/favorites.ts:68 | any filter of a list with unique keys has unique keys |
| Favorites.WithoutRemovesExactly | lib/favorites.ts:68 | removal drops exactly the entries with the key, keeps the rest in order, and changes nothing when the key is absent |
| Favorites.TypeCountsSum | lib/favorites.ts:108-113 | the three per-type counts add up to the total count |
| Favorites.ClearByTypeKeepsOthers | lib/favorites.ts:125-129 | clearing a type leaves none of it, every other type exactly as it was, and removes exactly as many records as that type had |
| Favorites.FavoritesManager.constructor | lib/favorites.ts:5-19 | the manager starts over the given stored value |
| Favorites.FavoritesManager.GetFavorites | lib/favorites.ts:9-19 | the stored list, or `[]` when nothing readable is stored |
| Favorites.FavoritesManager.SaveFavorites | lib/favorites.ts:24-32 | a successful save replaces the stored list; a failed one leaves it unchanged |
| Favorites.FavoritesManager.AddFavorite | lib/favorites.ts:37-61 | returns the new record; an existing key leaves the store untouched, otherwise the record is appended; after a successful save the key is present; unique keys are preserved |
| Favorites.FavoritesManager.RemoveFavorite | lib/favorites.ts:66-70 | the store becomes the list without the key, so the key is absent; unique keys are preserved |
| Favorites.FavoritesManager.IsFavorite | lib/favorites.ts:75-78 | true exactly when some stored favourite has the key |
| Favorites.FavoritesManager.ToggleFavorite | lib/favorites.ts:83-95 | returns whether the key was absent; after a successful save the key is present exactly when it was added, with the record appended or every matching entry removed; unique keys are preserved |
| Favorites.FavoritesManager.GetFavoritesByType | lib/favorites.ts:100-103 | exactly the stored favourites of that type, in stored order |
| Favorites.FavoritesManager.GetFavoriteCount | lib/favorites.ts:108-113 | the total with no type; the number of that type otherwise, never above the total |
| Favorites.FavoritesManager.ClearAll | lib/favorites.ts:118-120 | a successful save leaves an empty list |
| Favorites.FavoritesManager.ClearByType | lib/favorites.ts:125-129 | the type is gone, every other type is unchanged, and unique keys are preserved |
| FavoritesHook.AddUpdate | hooks/use-favorites.ts:57-61 | the local list is unchanged exactly when it already holds the key; otherwise the record the store returned is appended after the old entries; the key is then present and unique keys are kept |
| FavoritesHook.HasIffKey | hooks/use-favorites.ts:89-91 | membership by (id, type) is membership of the key in the list's keys |
| FavoritesHook.HasOfType | hooks/use-favorites.ts:18-20 | restricting a list to a type keeps exactly that type's keys |
| FavoritesHook.WithoutIdempotent | hooks/use-favorites.ts:66-70 | removing a key from the local list that the store already lost is removing it once |
| FavoritesHook.ViewWithout | hooks/use-favorites.ts:68-70 | removing a key commutes with the hook's type restriction |
| FavoritesHook.ViewNotOfType | hooks/use-favorites.ts:100-102 | clearing a type commutes with the hook's type restriction |
| FavoritesHook.KeysOfFilter | hooks/use-favorites.ts:68-70 | lists with the same keys keep the same keys under a filter that looks only at keys |
| FavoritesHook.AddKeepsKeys | hooks/use-favorites.ts:57-61 | when the local keys match the store's view, adding to both keeps them matched |
| FavoritesHook.UseFavorites.constructor | hooks/use-favorites.ts:11 | the hook starts with an empty local list over the given manager and type restriction |
| FavoritesHook.UseFavorites.Load | hooks/use-favorites.ts:16-27 | the local list becomes the store's list, restricted to the hook's type, so the two are in sync |
| FavoritesHook.UseFavorites.Count | hooks/use-favorites.ts:116 | while the local list is in sync with the store, the count is the number of favourites in the store's view for the hook's type |
| FavoritesHook.UseFavorites.IsFavorite | hooks/use-favorites.ts:89-91 | true exactly when the local list holds the key |
| FavoritesHook.UseFavorites.AddFavorite | hooks/use-favorites.ts:52-64 | the store gains the record unless the key is present; the local list gains it unless the key is present; the key then shows as favourite; sync is kept for an untyped hook or one of the same type |
| FavoritesHook.UseFavorites.RemoveFavorite | hooks/use-favorites.ts:66-73 | both the store and the local list lose the key; sync is kept |
| FavoritesHook.UseFavorites.ToggleFavorite | hooks/use-favorites.ts:75-87 | returns whether the key was absent; the local list becomes the add updater's result (with the repeated add's record) or the remove updater's, keeping every other entry, whether or not the save worked; after a successful save the store holds the key exactly when it was added; unique keys and, for an untyped hook or one of the same type, sync are kept |
| FavoritesHook.UseFavorites.ClearAll | hooks/use-favorites.ts:93-98 | the store and the local list become empty and the count is 0 |
| FavoritesHook.UseFavorites.ClearByType | hooks/use-favorites.ts:100-105 | both lose exactly the entries of that type; sync is kept |
| ApiClient.Collection | lib/api-client.ts:25-60 | defines the assembled collection: None when page 1 fails, otherwise page 1's results followed by the joined pages 2..N |
| ApiClient.LastPage | lib/api-client.ts:39-43 | the last page requested is `pages \|\| 1`, and at least 1 |
| ApiClient.PagesFromSnoc | lib/api-client.ts:52 | fetching one more page appends that page's results at the end |
| ApiClient.JoinedIsPagesFrom | lib/api-client.ts:42-52 | `Promise.all` over pages 2..N followed by the in-order pushes equals fetching pages 2..N front to back |
| ApiClient.CollectionInPageOrder | lib/api-client.ts:25-60 | a failed page 1 gives no collection; otherwise the collection is every page 1..N in page order |
| ApiClient.PagesFromFails | lib/api-client.ts:51 | front-to-back fetching fails exactly when some page in the range fails |
| ApiClient.CollectionFails | lib/api-client.ts:34-52 | the collection is missing exactly when page 1 or some page 2..N fails |
| ApiClient.SinglePage | lib/api-client.ts:39-43 | with `pages` missing, 1 or below, only page 1 is requested and it is the collection |
| ApiClient.ThreePages | lib/api-client.ts:25-60 | three pages of two items assemble to the six items in order |
| ApiClient.FetchCollection | lib/api-client.ts:29-52 | the loop requests page 1, then pages 2..N, and returns exactly the assembled collection |
| ApiClient.SimpsonsApiClient.constructor | lib/api-client.ts:16-20 | all three caches start empty |
| ApiClient.SimpsonsApiClient.FetchAllCharacters | lib/api-client.ts:25-60 | a filled cache is returned with no request; otherwise the collection is assembled, cached only on success, and `[]` is returned on failure; the other caches are untouched |
| ApiClient.SimpsonsApiClient.FetchAllEpisodes | lib/api-client.ts:132-169 | the same, for the episodes cache |
| ApiClient.SimpsonsApiClient.FetchAllLocations | lib/api-client.ts:234-271 | the same, for the locations cache |
| ApiClient.SimpsonsApiClient.GetCharacters | lib/api-client.ts:65-112 | the filtered, paginated view of the cached or freshly assembled characters; only a missing cache is filled |
| ApiClient.SimpsonsApiClient.GetEpisodes | lib/api-client.ts:174-213 | the same, for episodes |
| ApiClient.SimpsonsApiClient.GetLocations | lib/api-client.ts:276-317 | the same, for locations |
| ApiQuery.FilterCharacters | lib/api-client.ts:71-88 | defines the staged gender, status and search filters |
| ApiQuery.FilterEpisodes | lib/api-client.ts:180-189 | defines the staged season and search filters |
| ApiQuery.FilterLocations | lib/api-client.ts:282-293 | defines the staged type and search filters |
| ApiQuery.QueryCharacters | lib/api-client.ts:65-101 | defines the response: the filtered characters, paginated |
| ApiQuery.QueryEpisodes | lib/api-client.ts:174-200 | defines the response: the filtered episodes, paginated |
| ApiQuery.QueryLocations | lib/api-client.ts:276-305 | defines the response: the filtered locations, paginated |
| ApiQuery.CleanPath | lib/api-client.ts:344 | defines the path with one leading "/" removed |
| ApiQuery.CeilPages | lib/api-client.ts:92 | the least number of 20-item pages that holds n items |
| ApiQuery.Paginate | lib/api-client.ts:91-101 | count is the full length; pages is at least 1 and just enough; page 0 reads as 1; the page holds at most 20 items, is the 20-item window at that page, and is empty beyond the last page |
| ApiQuery.PageCoversItem | lib/api-client.ts:93-95 | item k sits on page k div 20 + 1 at slot k mod 20 |
| ApiQuery.FortyFiveItems | lib/api-client.ts:91-101 | 45 items give pages of 20, 20 and 5; page 4 is empty but still reports 3 pages |
| ApiQuery.NoResults | lib/api-client.ts:97-101 | no matches gives one empty page 1 |
| ApiQuery.StageIsFilter | lib/api-client.ts:71-75 | an optional filter stage is a filter by "absent, or the condition holds" |
| ApiQuery.TwoStages | lib/api-client.ts:180-189 | two optional stages are one filter by the conjunction |
| ApiQuery.ThreeStages | lib/api-client.ts:71-88 | three optional stages are one filter by the conjunction |
| ApiQuery.CharacterFilterSpec | lib/api-client.ts:71-88 | the characters kept are exactly those matching gender and status ignoring case and containing the search in the name, in order |
| ApiQuery.EpisodeFilterSpec | lib/api-client.ts:180-189 | the episodes kept are exactly those of the season, when one is given, whose name contains the search, in order |
| ApiQuery.LocationFilterSpec | lib/api-client.ts:282-293 | the locations kept are exactly those whose use equals the type ignoring case and whose name contains the search, in order |
| ApiQuery.BartSelection | lib/api-client.ts:77-87 | status "Alive" with search "bart" selects the living Barts and not the deceased one or anyone else |
| ApiQuery.BartQuery | lib/api-client.ts:65-102 | that query returns the two living Barts on one page, with count 2 and current page 1 |
| ApiQuery.FirstPageOfFew | lib/api-client.ts:91-101 | at most one page of items, with page left at 0, comes back whole as page 1 of 1 with the full count |
| ApiQuery.ImageUrl | lib/api-client.ts:338-346 | an empty path gives the placeholder; otherwise the URL is the CDN base, "/", the size in decimal, "/", and the path without one leading "/" |
| ApiQuery.ImageUrlLeadingSlash | lib/api-client.ts:344 | one extra leading "/" makes no difference exactly when the path did not already start with "/" |
| ApiQuery.ImageUrlSize | lib/api-client.ts:345 | the size segment of the URL reads back as the requested size |
| ApiQuery.DefaultSizeUrl | lib/api-client.ts:338 | with the size left out, the URL carries the default size 500 |
| Pagination.CanGoPrevious | components/shared/pagination.tsx:18 | defines whether Previous is enabled |
| Pagination.CanGoNext | components/shared/pagination.tsx:19 | defines whether Next is enabled |
| Pagination.Visible | components/shared/pagination.tsx:57 | defines whether the bar renders |
| Pagination.PageNumbers | components/shared/pagination.tsx:21-55 | defines the button layout; its shape is stated by Pagination.Layout and the lemmas after it |
| Pagination.Range | components/shared/pagination.tsx:37-43 | the buttons lo..hi in order, none when hi < lo |
| Pagination.GetPageNumbers | components/shared/pagination.tsx:21-55 | the loop builds exactly the button layout |
| Pagination.FewPagesAllShown | components/shared/pagination.tsx:25-27 | up to seven pages shows every page 1..total and no ellipsis |
| Pagination.Layout | components/shared/pagination.tsx:29-52 | above seven pages: 1, an optional "...", the window around the current page, an optional "...", and the last page |
| Pagination.ManyPagesShape | components/shared/pagination.tsx:29-52 | above seven pages: 3 to 7 entries, first 1 and last total, a leading "..." exactly when current > 3 and a trailing one exactly when current < total - 2, and no other ellipsis |
| Pagination.NumbersIncreasing | components/shared/pagination.tsx:21-55 | for any current page, the numbers are strictly increasing and within 1..total |
| Pagination.CurrentPageShown | components/shared/pagination.tsx:36-43 | a valid current page always has its own button |
| Pagination.EveryPageAccountedFor | components/shared/pagination.tsx:21-55 | every page is a button or lies strictly between the two buttons around an ellipsis |
| Pagination.EllipsisHidesPages | components/shared/pagination.tsx:32-47 | each ellipsis sits between two numbers and hides at least one page |
| Pagination.VisibleIffSeveralButtons | components/shared/pagination.tsx:57 | the bar is hidden exactly when there would be fewer than two buttons |
| Pagination.NavigationStaysInRange | components/shared/pagination.tsx:18-19 | previous is enabled exactly off page 1 and next exactly off the last page, and each leads to a valid page |
| Breadcrumbs.Segments | components/layout/breadcrumbs.tsx:14 | defines the non-empty pieces of the pathname, in order |
| Breadcrumbs.Capitalize | components/layout/breadcrumbs.tsx:40-42 | defines the string with its first character upper-cased |
| Breadcrumbs.Label | components/layout/breadcrumbs.tsx:21-34 | defines the label of segment k |
| Breadcrumbs.Trail | components/layout/breadcrumbs.tsx:13-38 | defines the trail: Home, then one crumb per segment |
| Breadcrumbs.Split | components/layout/breadcrumbs.tsx:14 | `split("/")` yields at least one piece and no piece holds "/" |
| Breadcrumbs.JoinSplit | components/layout/breadcrumbs.tsx:14 | joining the pieces with "/" gives back the pathname |
| Breadcrumbs.SplitJoin | components/layout/breadcrumbs.tsx:14 | splitting a "/"-join of slash-free pieces gives back the pieces |
| Breadcrumbs.SegmentsAreNames | components/layout/breadcrumbs.tsx:14 | every segment is non-empty and slash-free |
| Breadcrumbs.PathToIsJoin | components/layout/breadcrumbs.tsx:17-19 | after k segments, `currentPath` is "/" followed by those segments joined with "/" |
| Breadcrumbs.SegmentsOfPath | components/layout/breadcrumbs.tsx:17-19 | the segments of `currentPath` after k steps are the first k segments |
| Breadcrumbs.CapitalizeOnlyCase | components/layout/breadcrumbs.tsx:40-42 | capitalising changes only the first character, leaves no lower-case letter there, and agrees with the input ignoring case |
| Breadcrumbs.DropLastIsSlice | components/layout/breadcrumbs.tsx:26 | dropping the last character is `slice(0, -1)` |
| Breadcrumbs.Crumbs | components/layout/breadcrumbs.tsx:18-35 | one crumb per segment |
| Breadcrumbs.CrumbAt | components/layout/breadcrumbs.tsx:18-34 | crumb k carries the label of segment k and links to the path of the first k+1 segments |
| Breadcrumbs.GetBreadcrumbs | components/layout/breadcrumbs.tsx:13-38 | the loop builds exactly the trail: "Home", then one crumb per segment |
| Breadcrumbs.TrailHref | components/layout/breadcrumbs.tsx:19 | crumb k after "Home" links to the path of the first k segments |
| Breadcrumbs.TrailLinks | components/layout/breadcrumbs.tsx:15-33 | the trail starts at Home "/" and crumb k's link has exactly the first k segments |
| Breadcrumbs.TrailNested | components/layout/breadcrumbs.tsx:19 | each crumb's link followed by "/" begins the next crumb's link |
| Breadcrumbs.LastCrumbIsCurrentPage | components/layout/breadcrumbs.tsx:17-35 | on a canonical path, the last crumb links to the page itself |
| Breadcrumbs.TrailLabels | components/layout/breadcrumbs.tsx:21-34 | a name segment is labelled capitalised; a numeric one "Parent #id", from its parent minus the last letter, or " #id" at the front |
| Breadcrumbs.CharacterDetailLabels | components/layout/breadcrumbs.tsx:22-33 | "characters", "42" label as "Characters" and "Character #42" |
| Breadcrumbs.CharacterDetailSegments | components/layout/breadcrumbs.tsx:14 | "/characters/42" has segments "characters", "42" |
| Breadcrumbs.CharacterDetailCrumbs | components/layout/breadcrumbs.tsx:17-35 | those segments give crumbs Characters "/characters" and Character #42 "/characters/42" |
| Breadcrumbs.CharacterDetailTrail | components/layout/breadcrumbs.tsx:13-38 | "/characters/42" gives Home, Characters, Character #42 with their links |
| Breadcrumbs.ShownIffSegments | components/layout/breadcrumbs.tsx:47-57 | the trail is shown exactly when the pathname has at least one segment |
| Navbar.IsRouteActive | components/layout/navbar.tsx:48-53 | defines the highlight rule: Home on "/" only, a section on itself and below it |
| Navbar.SectionActive | components/layout/navbar.tsx:48-53 | a section is active on itself and on its sub-routes, but not on a longer name that merely starts with it |
| Navbar.HomeActiveOnlyAtRoot | components/layout/navbar.tsx:49-51 | Home is active exactly on "/" |
| Navbar.SectionsExclusive | components/layout/navbar.tsx:52 | while one section is active, no other section is |
| Navbar.NavItemsShape | components/layout/navbar.tsx:8-45 | six links, Home first, every other link a single-level section, no two alike |
| Navbar.AtMostOneActive | components/layout/navbar.tsx:8-53 | on every pathname at most one link is highlighted |
| Navbar.CharacterPageHighlightsCharacters | components/layout/navbar.tsx:8-53 | "/characters/42" highlights Characters and nothing else |
| Stats.ComputeStats | components/dashboard/stats-section.tsx:20-32 | defines the dashboard figures from the three optional collections |
| Stats.BySeason | components/dashboard/stats-section.tsx:27-31 | defines the per-season episode counts |
| Stats.MaxSeason | components/dashboard/stats-section.tsx:25 | the season total is attained by some episode and bounds every episode's season |
| Stats.StatusCountsBounded | components/dashboard/stats-section.tsx:22-23 | alive plus deceased never exceeds the character total |
| Stats.BySeasonCounts | components/dashboard/stats-section.tsx:27-31 | the keys are exactly the seasons with episodes, each mapped to its episode count |
| Stats.SeasonCountPositive | components/dashboard/stats-section.tsx:27-31 | a season has a positive count exactly when some episode belongs to it |
| Stats.BySeasonTotal | components/dashboard/stats-section.tsx:27-31 | the per-season counts add up to the number of episodes |
| Stats.StatsConsistent | components/dashboard/stats-section.tsx:20-32 | alive plus deceased is at most the total; the season counts sum to the episode total; no season key exceeds the season total, which is itself a key when there are episodes; collections not loaded count 0 |

## Left out

- Browser I/O is not modelled. This covers the `window` guard, `localStorage`, `JSON.parse` and `JSON.stringify`, and the `favoritesUpdated` and `storage` events with their listeners (hooks/use-favorites.ts:29-50). Storage is the `stored` field and each save outcome is a parameter.
- A stored value that parses to something other than an array (for example `null`) is not modelled. Storage reads as either a list or nothing.
- FavoritesHook.UseFavorites.ToggleFavorite: one `saveOk` flag covers both saves, the manager's toggle and then the hook's own add or remove (hooks/use-favorites.ts:80-85).
- FavoritesHook.UseFavorites.AddFavorite, FavoritesHook.UseFavorites.ToggleFavorite, FavoritesHook.UseFavorites.RemoveFavorite, FavoritesHook.UseFavorites.ClearAll, FavoritesHook.UseFavorites.ClearByType: the same-tab reload is not modelled. Each mutation dispatches `favoritesUpdated` synchronously (hooks/use-favorites.ts:63, 72, 97, 104), and the hook's own listener (hooks/use-favorites.ts:39-44) then reloads the store's typed view after the updater has run. So in the running program the rendered list is the store's view. The record of a foreign type, a key added locally after a failed save, and the second `addedAt` stamp of a toggle do not survive. The model's postconditions on the local list, and the conditions on its `Synced()` clauses (untyped hook or matching type, keys rather than whole records), describe the state updaters alone, before that reload.
- `isLoading` and other React state are not modelled, nor is re-rendering.
- The upstream HTTP requests and the JSON decoding are not modelled. `getCharacter`, `getEpisode` and `getLocation` (lookups by id) are pure network calls with no logic to model. They are not part of this model.
- The `getAll*` wrappers (lib/api-client.ts:351-369) only return `fetchAll*` and are not modelled separately.
- `Promise.all` concurrency is not modelled. The join is modelled by its result: in page order, and failing when any request rejects.
- ApiClient.SimpsonsApiClient.GetCharacters, ApiClient.SimpsonsApiClient.GetEpisodes, ApiClient.SimpsonsApiClient.GetLocations: the model takes the string fields of types/simpsons.ts as always present. Upstream data is not checked, so a record whose `gender`, `status`, `name` or `use` is null or missing makes `.toLowerCase()` throw (lib/api-client.ts:73, 79, 86, 187, 284, 291). The `catch` (lib/api-client.ts:103-111, 204-212, 308-316) then returns the fallback page `{data: [], count: 0, pages: 1, currentPage: 1}`. That path is not modelled.
- Breadcrumbs.TrailLabels: the numeric test `!isNaN(Number(path))` is modelled as "all ASCII digits". JavaScript also accepts forms like "1.5", "1e3", " 7 ", "0x1F" and "Infinity", which the model does not.
- Breadcrumbs.CapitalizeOnlyCase, Text.ToLower: case mapping is ASCII only. JavaScript's `toUpperCase` and `toLowerCase` also map non-ASCII letters.
- Stats.StatsConsistent: the percentages, averages and animated counters on the dashboard are floating point and presentation, and are not modelled. Season keys are integers rather than their `toString()` text, which is injective on integers.
- Stats.MaxSeason: `Math.max(...spread)` has an engine limit on the number of arguments; the model has none.
- ApiQuery.ImageUrl: `size` is a natural number in the model. The source's `number` could also be negative or fractional.
- Icons, gradients, animation and layout markup in the components are not modelled.
