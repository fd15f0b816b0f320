/**
 * The dashboard figures of components/dashboard/stats-section.tsx, computed
 * from the three collections (each possibly not loaded yet).
 */
module Stats {
  import opened Wrappers
  import opened Catalog
  import Seqs

  /** The `stats` object. */
  datatype DashboardStats = DashboardStats(
    totalCharacters: nat,
    aliveCharacters: nat,
    deceasedCharacters: nat,
    totalEpisodes: nat,
    totalSeasons: int,
    totalLocations: nat,
    episodesBySeason: map<int, nat>)

  /** `(c) => c.status === status`: an exact, case-sensitive match. */
  function StatusIs(status: string): Character -> bool {
    (c: Character) => c.status == status
  }

  /** `(e) => e.season === season`. */
  function SeasonIs(season: int): Episode -> bool {
    (e: Episode) => e.season == season
  }

  /** How many episodes belong to the given season. */
  function SeasonCount(episodes: seq<Episode>, season: int): nat {
    |Seqs.Filter(episodes, SeasonIs(season))|
  }

  /** `Math.max(...episodes.map((e) => e.season))` on a non-empty list. */
  function MaxSeason(episodes: seq<Episode>): (m: int)
    requires |episodes| > 0
    ensures exists i :: 0 <= i < |episodes| && episodes[i].season == m
    ensures forall i :: 0 <= i < |episodes| ==> episodes[i].season <= m
    decreases |episodes|
  {
    if |episodes| == 1 then episodes[0].season
    else
      var rest := MaxSeason(episodes[1..]);
      assert forall i :: 1 <= i < |episodes| ==> episodes[i] == episodes[1..][i - 1];
      if episodes[0].season > rest then episodes[0].season else rest
  }

  /** The `reduce` that counts episodes per season, one episode at a time from the front. */
  function BySeason(episodes: seq<Episode>): map<int, nat>
    decreases |episodes|
  {
    if episodes == [] then map[]
    else
      var acc := BySeason(episodes[..|episodes| - 1]);
      var season := episodes[|episodes| - 1].season;
      acc[season := (if season in acc then acc[season] else 0) + 1]
  }

  /** The `stats` object for the collections as loaded so far. */
  function ComputeStats(
    characters: Option<seq<Character>>,
    episodes: Option<seq<Episode>>,
    locations: Option<seq<Location>>): DashboardStats
  {
    var cs, eps, locs := characters.GetOr([]), episodes.GetOr([]), locations.GetOr([]);
    DashboardStats(
      |cs|,
      |Seqs.Filter(cs, StatusIs("Alive"))|,
      |Seqs.Filter(cs, StatusIs("Deceased"))|,
      |eps|,
      if |eps| > 0 then MaxSeason(eps) else 0,
      |locs|,
      BySeason(eps))
  }

  /** No character is both alive and deceased, so the two counts fit in the total. */
  lemma {:induction false} StatusCountsBounded(cs: seq<Character>)
    ensures |Seqs.Filter(cs, StatusIs("Alive"))| + |Seqs.Filter(cs, StatusIs("Deceased"))| <= |cs|
    decreases |cs|
  {
    if cs != [] {
      StatusCountsBounded(cs[1..]);
    }
  }

  /** The fold counts each season exactly: a season is a key iff some episode has it, and its value is that season's episode count. */
  lemma {:induction false} BySeasonCounts(episodes: seq<Episode>)
    ensures forall s :: s in BySeason(episodes) <==> SeasonCount(episodes, s) > 0
    ensures forall s :: s in BySeason(episodes) ==> BySeason(episodes)[s] == SeasonCount(episodes, s)
    decreases |episodes|
  {
    if episodes != [] {
      var init, last := episodes[..|episodes| - 1], episodes[|episodes| - 1];
      BySeasonCounts(init);
      assert episodes == init + [last];
      forall s
        ensures SeasonCount(episodes, s) == SeasonCount(init, s) + (if last.season == s then 1 else 0)
      {
        Seqs.FilterSnoc(init, last, SeasonIs(s));
      }
    }
  }

  /** A season has a positive count exactly when some episode belongs to it. */
  lemma SeasonCountPositive(episodes: seq<Episode>, season: int)
    ensures SeasonCount(episodes, season) > 0 <==> exists i :: 0 <= i < |episodes| && episodes[i].season == season
  {
    var r := Seqs.Filter(episodes, SeasonIs(season));
    if |r| > 0 {
      assert r[0] in r;
    }
    if i :| 0 <= i < |episodes| && episodes[i].season == season {
      assert episodes[i] in episodes;
    }
  }

  /** Some key of a non-empty map. */
  ghost function Pick(m: map<int, nat>): (key: int)
    requires exists k :: k in m
    ensures key in m
  {
    var k :| k in m; k
  }

  /** The sum of a map's values. */
  ghost function Total(m: map<int, nat>): nat
    decreases |m|
  {
    if exists k :: k in m then m[Pick(m)] + Total(m - {Pick(m)}) else 0
  }

  /** The sum can be taken starting from any key. */
  lemma {:induction false} TotalRemove(m: map<int, nat>, k: int)
    requires k in m
    ensures Total(m) == m[k] + Total(m - {k})
    decreases |m|
  {
    var j := Pick(m);
    if j != k {
      TotalRemove(m - {j}, k);
      TotalRemove(m - {k}, j);
      assert m - {j} - {k} == m - {k} - {j};
    }
  }

  /** The per-season counts add up to the number of episodes. */
  lemma {:induction false} BySeasonTotal(episodes: seq<Episode>)
    ensures Total(BySeason(episodes)) == |episodes|
    decreases |episodes|
  {
    if episodes != [] {
      var init := episodes[..|episodes| - 1];
      var acc := BySeason(init);
      var season := episodes[|episodes| - 1].season;
      var m := BySeason(episodes);
      BySeasonTotal(init);
      TotalRemove(m, season);
      if season in acc {
        TotalRemove(acc, season);
        assert m - {season} == acc - {season};
      } else {
        assert m - {season} == acc;
      }
    }
  }

  /**
   * The figures agree with one another: alive and deceased never exceed the
   * total, the per-season counts add up to the episode total, every season
   * key is at most the season total, which is itself a key (and 0, with no
   * keys, when there are no episodes); a collection not yet loaded counts 0.
   */
  lemma {:induction false} StatsConsistent(
    characters: Option<seq<Character>>,
    episodes: Option<seq<Episode>>,
    locations: Option<seq<Location>>)
    ensures var st := ComputeStats(characters, episodes, locations);
            && st.aliveCharacters + st.deceasedCharacters <= st.totalCharacters
            && Total(st.episodesBySeason) == st.totalEpisodes
            && (forall s :: s in st.episodesBySeason ==> s <= st.totalSeasons)
            && (st.totalEpisodes > 0 ==> st.totalSeasons in st.episodesBySeason)
            && (st.totalEpisodes == 0 ==> st.totalSeasons == 0 && st.episodesBySeason == map[])
            && (characters == None ==> st.totalCharacters == 0 && st.aliveCharacters == 0 && st.deceasedCharacters == 0)
            && (episodes == None ==> st.totalEpisodes == 0 && st.totalSeasons == 0 && st.episodesBySeason == map[])
            && (locations == None ==> st.totalLocations == 0)
  {
    var eps := episodes.GetOr([]);
    StatusCountsBounded(characters.GetOr([]));
    BySeasonTotal(eps);
    BySeasonCounts(eps);
    forall s | s in BySeason(eps)
      ensures s <= MaxSeason(eps)
    {
      SeasonCountPositive(eps, s);
    }
    if |eps| > 0 {
      var i :| 0 <= i < |eps| && eps[i].season == MaxSeason(eps);
      SeasonCountPositive(eps, MaxSeason(eps));
    }
  }
}
