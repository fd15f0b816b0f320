/**
 * The favorites store of lib/favorites.ts: a list of favorite records kept
 * under one storage key, unique on (id, type). Every mutator re-reads the
 * stored list, changes a copy and writes it back.
 */
module Favorites {
  import opened Wrappers
  import opened Catalog
  import opened Seqs

  /** `f.id === id && f.type === type`. */
  predicate Matches(f: Favorite, id: int, kind: FavoriteType) {
    f.id == id && f.kind == kind
  }

  /** `favorites.some(f => f.id === id && f.type === type)`. */
  predicate Has(fs: seq<Favorite>, id: int, kind: FavoriteType) {
    exists i :: 0 <= i < |fs| && Matches(fs[i], id, kind)
  }

  /** At most one record per (id, type). */
  ghost predicate Unique(fs: seq<Favorite>) {
    forall i, j :: 0 <= i < j < |fs| ==> !Matches(fs[j], fs[i].id, fs[i].kind)
  }

  /** `favorites.findIndex(f => f.id === id && f.type === type)`. */
  function FindIndex(fs: seq<Favorite>, id: int, kind: FavoriteType): (i: int)
    ensures -1 <= i < |fs|
    ensures i == -1 <==> !Has(fs, id, kind)
    ensures 0 <= i ==> Matches(fs[i], id, kind) && forall j :: 0 <= j < i ==> !Matches(fs[j], id, kind)
    decreases |fs|
  {
    if fs == [] then -1
    else if Matches(fs[0], id, kind) then 0
    else
      var k := FindIndex(fs[1..], id, kind);
      if k == -1 then -1 else k + 1
  }

  /** `favorites.filter(f => !(f.id === id && f.type === type))`. */
  function Without(fs: seq<Favorite>, id: int, kind: FavoriteType): seq<Favorite> {
    Filter(fs, (f: Favorite) => !Matches(f, id, kind))
  }

  /** `favorites.filter(f => f.type === type)`. */
  function OfType(fs: seq<Favorite>, kind: FavoriteType): seq<Favorite> {
    Filter(fs, (f: Favorite) => f.kind == kind)
  }

  /** `favorites.filter(f => f.type !== type)`. */
  function NotOfType(fs: seq<Favorite>, kind: FavoriteType): seq<Favorite> {
    Filter(fs, (f: Favorite) => f.kind != kind)
  }

  /** `Has` holds exactly when some element matches (id, type). */
  lemma HasIffIn(fs: seq<Favorite>, id: int, kind: FavoriteType)
    ensures Has(fs, id, kind) <==> exists f :: f in fs && Matches(f, id, kind)
  {
    if Has(fs, id, kind) {
      var i :| 0 <= i < |fs| && Matches(fs[i], id, kind);
      assert fs[i] in fs;
    }
  }

  /** Appending a record for a pair that is absent keeps the list unique. */
  lemma {:induction false} AppendKeepsUnique(fs: seq<Favorite>, f: Favorite)
    requires Unique(fs) && !Has(fs, f.id, f.kind)
    ensures Unique(fs + [f])
  {
    var r := fs + [f];
    forall i, j | 0 <= i < j < |r| ensures !Matches(r[j], r[i].id, r[i].kind) {
      if j == |fs| {
        assert !Matches(fs[i], f.id, f.kind);
      }
    }
  }

  /** The rest of a unique list is unique, and no record in it shares the head's pair. */
  lemma UniqueTail(fs: seq<Favorite>)
    requires Unique(fs) && fs != []
    ensures Unique(fs[1..])
    ensures forall y :: y in fs[1..] ==> !Matches(y, fs[0].id, fs[0].kind)
  {
    var t := fs[1..];
    forall i, j | 0 <= i < j < |t| ensures !Matches(t[j], t[i].id, t[i].kind) {
      assert t[i] == fs[i + 1] && t[j] == fs[j + 1];
    }
    forall y | y in t ensures !Matches(y, fs[0].id, fs[0].kind) {
      var k :| 0 <= k < |t| && t[k] == y;
      assert fs[k + 1] == y;
    }
  }

  /** A record whose pair no record of a unique list shares can go in front of it. */
  lemma UniqueCons(x: Favorite, t: seq<Favorite>)
    requires Unique(t)
    requires forall y :: y in t ==> !Matches(y, x.id, x.kind)
    ensures Unique([x] + t)
  {
    var r := [x] + t;
    forall i, j | 0 <= i < j < |r| ensures !Matches(r[j], r[i].id, r[i].kind) {
      assert r[j] == t[j - 1];
      if i > 0 {
        assert r[i] == t[i - 1];
      }
    }
  }

  /** Any filter of a unique list is unique. */
  lemma {:induction false} FilterKeepsUnique(fs: seq<Favorite>, p: Favorite -> bool)
    requires Unique(fs)
    ensures Unique(Filter(fs, p))
    decreases |fs|
  {
    if fs != [] {
      var t := fs[1..];
      UniqueTail(fs);
      FilterKeepsUnique(t, p);
      if p(fs[0]) {
        assert Filter(fs, p) == [fs[0]] + Filter(t, p);
        UniqueCons(fs[0], Filter(t, p));
      } else {
        assert Filter(fs, p) == Filter(t, p);
      }
    }
  }

  /** Removing a pair deletes every record for it and keeps every other record. */
  lemma WithoutRemovesExactly(fs: seq<Favorite>, id: int, kind: FavoriteType)
    ensures !Has(Without(fs, id, kind), id, kind)
    ensures forall f :: f in Without(fs, id, kind) <==> f in fs && !Matches(f, id, kind)
    ensures IsSubsequence(Without(fs, id, kind), fs)
    ensures !Has(fs, id, kind) ==> Without(fs, id, kind) == fs
  {
    var r := Without(fs, id, kind);
    forall i | 0 <= i < |r| ensures !Matches(r[i], id, kind) {
      assert r[i] in r;
    }
    FilterIsSubsequence(fs, (f: Favorite) => !Matches(f, id, kind));
    if !Has(fs, id, kind) {
      FilterKeepsAll(fs, (f: Favorite) => !Matches(f, id, kind));
    }
  }

  /** The per-type lists partition the whole list: their lengths add up to its length. */
  lemma {:induction false} TypeCountsSum(fs: seq<Favorite>)
    ensures |OfType(fs, CharacterFavorite)| + |OfType(fs, EpisodeFavorite)| + |OfType(fs, LocationFavorite)| == |fs|
    decreases |fs|
  {
    if fs != [] {
      TypeCountsSum(fs[1..]);
    }
  }

  /**
   * Clearing one type leaves no record of it, leaves every other type's list
   * as it was, and removes exactly as many records as that type had.
   */
  lemma ClearByTypeKeepsOthers(fs: seq<Favorite>, kind: FavoriteType, other: FavoriteType)
    ensures OfType(NotOfType(fs, kind), kind) == []
    ensures other != kind ==> OfType(NotOfType(fs, kind), other) == OfType(fs, other)
    ensures |NotOfType(fs, kind)| + |OfType(fs, kind)| == |fs|
  {
    FilterComplementSizes(fs, (f: Favorite) => f.kind == kind, (f: Favorite) => f.kind != kind);
    FilterRejectsAll(NotOfType(fs, kind), (f: Favorite) => f.kind == kind);
    if other != kind {
      FilterNarrows(fs, (f: Favorite) => f.kind != kind, (f: Favorite) => f.kind == other);
    }
  }

  /**
   * The store. `stored` is the value under the storage key: `None` when the
   * key is missing or its contents cannot be parsed, both of which read as
   * the empty list.
   */
  class FavoritesManager {
    var stored: Option<seq<Favorite>>

    constructor (initial: Option<seq<Favorite>>)
      ensures stored == initial
    {
      stored := initial;
    }

    /** The list `getFavorites` returns. */
    function Favorites(): seq<Favorite>
      reads this
    {
      stored.GetOr([])
    }

    /** `getFavorites`: the stored list, or the empty list when it is missing or unreadable. */
    method GetFavorites() returns (fs: seq<Favorite>)
      ensures stored.None? ==> fs == []
      ensures stored.Some? ==> fs == stored.value
    {
      fs := match stored case Some(v) => v case None => [];
    }

    /** `saveFavorites`: a failed write (`ok` false) is swallowed and changes nothing. */
    method SaveFavorites(fs: seq<Favorite>, ok: bool)
      modifies this
      ensures stored == if ok then Some(fs) else old(stored)
    {
      if ok {
        stored := Some(fs);
      }
    }

    /**
     * `addFavorite`: returns a fresh record stamped `now` in every case, and
     * appends it (one save) only when the pair is absent.
     */
    method AddFavorite(id: int, kind: FavoriteType, data: Item, now: string, saveOk: bool) returns (f: Favorite)
      modifies this
      ensures f == Favorite(id, kind, data, now)
      ensures Has(old(Favorites()), id, kind) ==> stored == old(stored)
      ensures !Has(old(Favorites()), id, kind) ==>
                stored == if saveOk then Some(old(Favorites()) + [f]) else old(stored)
      ensures saveOk ==> Has(Favorites(), id, kind)
      ensures Unique(old(Favorites())) ==> Unique(Favorites())
    {
      var favorites := GetFavorites();
      f := Favorite(id, kind, data, now);
      var existingIndex := FindIndex(favorites, id, kind);
      if existingIndex == -1 {
        favorites := favorites + [f];
        SaveFavorites(favorites, saveOk);
        assert Matches(favorites[|favorites| - 1], id, kind);
        if Unique(old(Favorites())) {
          AppendKeepsUnique(old(Favorites()), f);
        }
      }
    }

    /** `removeFavorite`: writes back the list without the pair; an absent pair is no error. */
    method RemoveFavorite(id: int, kind: FavoriteType, saveOk: bool)
      modifies this
      ensures stored == if saveOk then Some(Without(old(Favorites()), id, kind)) else old(stored)
      ensures saveOk ==> !Has(Favorites(), id, kind)
      ensures Unique(old(Favorites())) ==> Unique(Favorites())
    {
      var favorites := GetFavorites();
      var filtered := Without(favorites, id, kind);
      SaveFavorites(filtered, saveOk);
      WithoutRemovesExactly(favorites, id, kind);
      if Unique(favorites) {
        FilterKeepsUnique(favorites, (f: Favorite) => !Matches(f, id, kind));
      }
    }

    /** `isFavorite`: some stored record matches both id and type. */
    method IsFavorite(id: int, kind: FavoriteType) returns (b: bool)
      ensures b <==> exists f :: f in Favorites() && Matches(f, id, kind)
    {
      var favorites := GetFavorites();
      HasIffIn(favorites, id, kind);
      b := Has(favorites, id, kind);
    }

    /**
     * `toggleFavorite`: true exactly when the pair was absent; afterwards
     * (when the save succeeds) membership equals the returned value.
     */
    method ToggleFavorite(id: int, kind: FavoriteType, data: Item, now: string, saveOk: bool) returns (added: bool)
      modifies this
      ensures added == !Has(old(Favorites()), id, kind)
      ensures saveOk ==> Has(Favorites(), id, kind) == added
      ensures !saveOk ==> stored == old(stored)
      ensures saveOk && added ==> Favorites() == old(Favorites()) + [Favorite(id, kind, data, now)]
      ensures saveOk && !added ==> Favorites() == Without(old(Favorites()), id, kind)
      ensures Unique(old(Favorites())) ==> Unique(Favorites())
    {
      var present := IsFavorite(id, kind);
      HasIffIn(Favorites(), id, kind);
      if present {
        RemoveFavorite(id, kind, saveOk);
        added := false;
      } else {
        var _ := AddFavorite(id, kind, data, now, saveOk);
        added := true;
      }
    }

    /** `getFavoritesByType`: the records of one type, in stored order. */
    method GetFavoritesByType(kind: FavoriteType) returns (fs: seq<Favorite>)
      ensures fs == OfType(Favorites(), kind)
      ensures forall f :: f in fs <==> f in Favorites() && f.kind == kind
      ensures IsSubsequence(fs, Favorites())
    {
      var favorites := GetFavorites();
      fs := OfType(favorites, kind);
      FilterIsSubsequence(favorites, (f: Favorite) => f.kind == kind);
    }

    /** `getFavoriteCount`: the total without a type, the per-type count with one. */
    method GetFavoriteCount(kind: Option<FavoriteType>) returns (n: nat)
      ensures kind.None? ==> n == |Favorites()|
      ensures kind.Some? ==> n == |OfType(Favorites(), kind.value)| && n <= |Favorites()|
    {
      if kind.None? {
        var favorites := GetFavorites();
        n := |favorites|;
      } else {
        var byType := GetFavoritesByType(kind.value);
        n := |byType|;
      }
    }

    /** `clearAll`: writes the empty list. */
    method ClearAll(saveOk: bool)
      modifies this
      ensures stored == if saveOk then Some([]) else old(stored)
    {
      SaveFavorites([], saveOk);
    }

    /** `clearByType`: writes back the records of the other types, in order. */
    method ClearByType(kind: FavoriteType, saveOk: bool)
      modifies this
      ensures stored == if saveOk then Some(NotOfType(old(Favorites()), kind)) else old(stored)
      ensures saveOk ==> OfType(Favorites(), kind) == []
      ensures saveOk ==> forall other :: other != kind ==> OfType(Favorites(), other) == OfType(old(Favorites()), other)
      ensures Unique(old(Favorites())) ==> Unique(Favorites())
    {
      var favorites := GetFavorites();
      var filtered := NotOfType(favorites, kind);
      SaveFavorites(filtered, saveOk);
      forall other {
        ClearByTypeKeepsOthers(favorites, kind, other);
      }
      if Unique(favorites) {
        FilterKeepsUnique(favorites, (f: Favorite) => f.kind != kind);
      }
    }
  }
}
