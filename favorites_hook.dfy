/**
 * The `useFavorites` view-model of hooks/use-favorites.ts: an in-memory copy
 * of the favorites list, replaced by pure updaters after each call into the
 * store. The copy and the store agree on which (id, type) pairs are
 * favorited, in order; the records themselves may differ in `addedAt`,
 * because the local add stamps its own record.
 */
module FavoritesHook {
  import opened Wrappers
  import opened Catalog
  import opened Seqs
  import opened Favorites

  /** The list the hook loads: every favorite, or those of the hook's type. */
  function View(fs: seq<Favorite>, filter: Option<FavoriteType>): seq<Favorite> {
    match filter
    case None => fs
    case Some(k) => OfType(fs, k)
  }

  function Key(f: Favorite): (int, FavoriteType) {
    (f.id, f.kind)
  }

  /** The (id, type) pairs of a list, in order. */
  function Keys(fs: seq<Favorite>): (ks: seq<(int, FavoriteType)>)
    ensures |ks| == |fs|
  {
    seq(|fs|, i requires 0 <= i < |fs| => Key(fs[i]))
  }

  /** The `addFavorite` updater: keep `prev` when it already holds the pair, else append. */
  function AddUpdate(prev: seq<Favorite>, favorite: Favorite): (r: seq<Favorite>)
    ensures Has(r, favorite.id, favorite.kind)
    ensures Has(prev, favorite.id, favorite.kind) <==> r == prev
    ensures |r| > |prev| ==> r[|prev|] == favorite
    ensures |prev| <= |r| <= |prev| + 1 && r[..|prev|] == prev
    ensures Unique(prev) ==> Unique(r)
  {
    if Has(prev, favorite.id, favorite.kind) then prev
    else
      AppendKeepsUniqueIf(prev, favorite);
      assert Matches((prev + [favorite])[|prev|], favorite.id, favorite.kind);
      prev + [favorite]
  }

  lemma AppendKeepsUniqueIf(prev: seq<Favorite>, favorite: Favorite)
    requires !Has(prev, favorite.id, favorite.kind)
    ensures Unique(prev) ==> Unique(prev + [favorite])
  {
    if Unique(prev) {
      AppendKeepsUnique(prev, favorite);
    }
  }

  /** A pair is present exactly when it is among the list's keys. */
  lemma HasIffKey(fs: seq<Favorite>, id: int, kind: FavoriteType)
    ensures Has(fs, id, kind) <==> (id, kind) in Keys(fs)
  {
    if Has(fs, id, kind) {
      var i :| 0 <= i < |fs| && Matches(fs[i], id, kind);
      assert Keys(fs)[i] == (id, kind);
    }
    if (id, kind) in Keys(fs) {
      var i :| 0 <= i < |fs| && Keys(fs)[i] == (id, kind);
      assert Matches(fs[i], id, kind);
    }
  }

  /** A filter that looks only at (id, type) maps lists with equal keys to lists with equal keys. */
  lemma {:induction false} KeysOfFilter(a: seq<Favorite>, b: seq<Favorite>, p: Favorite -> bool)
    requires Keys(a) == Keys(b)
    requires forall x, y :: Key(x) == Key(y) ==> p(x) == p(y)
    ensures Keys(Filter(a, p)) == Keys(Filter(b, p))
    decreases |a|
  {
    if a != [] {
      assert Keys(a[1..]) == Keys(a)[1..] && Keys(b[1..]) == Keys(b)[1..];
      assert Key(a[0]) == Keys(a)[0] == Keys(b)[0] == Key(b[0]);
      assert p(a[0]) == p(b[0]);
      KeysOfFilter(a[1..], b[1..], p);
      KeysOfGuardedCons(a[0], b[0], Filter(a[1..], p), Filter(b[1..], p), p(a[0]));
    }
  }

  /** Prepending records with equal keys, under the same guard, keeps the key lists equal. */
  lemma KeysOfGuardedCons(x: Favorite, y: Favorite, s: seq<Favorite>, t: seq<Favorite>, keep: bool)
    requires Key(x) == Key(y) && Keys(s) == Keys(t)
    ensures Keys((if keep then [x] else []) + s) == Keys((if keep then [y] else []) + t)
  {
    KeysOfConcat(if keep then [x] else [], s);
    KeysOfConcat(if keep then [y] else [], t);
  }

  lemma KeysOfConcat(a: seq<Favorite>, b: seq<Favorite>)
    ensures Keys(a + b) == Keys(a) + Keys(b)
  {
  }

  /** Lists of one type hold a pair of that type exactly when the whole list does. */
  lemma HasOfType(fs: seq<Favorite>, id: int, kind: FavoriteType)
    ensures Has(OfType(fs, kind), id, kind) <==> Has(fs, id, kind)
  {
    HasIffIn(fs, id, kind);
    HasIffIn(OfType(fs, kind), id, kind);
  }

  /** Removing a pair twice is removing it once. */
  lemma WithoutIdempotent(fs: seq<Favorite>, id: int, kind: FavoriteType)
    ensures Without(Without(fs, id, kind), id, kind) == Without(fs, id, kind)
  {
    WithoutRemovesExactly(Without(fs, id, kind), id, kind);
  }

  /** Removing a pair commutes with taking the view. */
  lemma ViewWithout(fs: seq<Favorite>, filter: Option<FavoriteType>, id: int, kind: FavoriteType)
    ensures View(Without(fs, id, kind), filter) == Without(View(fs, filter), id, kind)
  {
    if filter.Some? {
      FilterCommutes(fs, (f: Favorite) => !Matches(f, id, kind), (f: Favorite) => f.kind == filter.value);
    }
  }

  /** Clearing a type commutes with taking the view. */
  lemma ViewNotOfType(fs: seq<Favorite>, filter: Option<FavoriteType>, kind: FavoriteType)
    ensures View(NotOfType(fs, kind), filter) == NotOfType(View(fs, filter), kind)
  {
    if filter.Some? {
      FilterCommutes(fs, (f: Favorite) => f.kind != kind, (f: Favorite) => f.kind == filter.value);
    }
  }

  /**
   * When the local list and the stored view agree on keys, the add updater
   * and the store's add keep them agreeing (for a hook showing that type).
   */
  lemma {:induction false} AddKeepsKeys(local: seq<Favorite>, store: seq<Favorite>, filter: Option<FavoriteType>, f: Favorite, g: Favorite)
    requires Keys(local) == Keys(View(store, filter))
    requires filter.None? || filter == Some(f.kind)
    requires Key(f) == Key(g)
    ensures Keys(AddUpdate(local, g)) ==
            Keys(View(if Has(store, f.id, f.kind) then store else store + [f], filter))
  {
    HasIffKey(local, g.id, g.kind);
    HasIffKey(View(store, filter), f.id, f.kind);
    if filter.Some? {
      HasOfType(store, f.id, f.kind);
      FilterSnoc(store, f, (x: Favorite) => x.kind == filter.value);
    }
    if !Has(store, f.id, f.kind) {
      KeysOfConcat(local, [g]);
      KeysOfConcat(View(store, filter), [f]);
    }
  }

  /** The hook's state: the store it calls, its optional type, and its local list. */
  class UseFavorites {
    const manager: FavoritesManager
    const filter: Option<FavoriteType>
    var favorites: seq<Favorite>

    /** Before the mount effect runs, the local list is empty. */
    constructor (manager: FavoritesManager, filter: Option<FavoriteType>)
      ensures this.manager == manager && this.filter == filter && favorites == []
    {
      this.manager := manager;
      this.filter := filter;
      favorites := [];
    }

    /** The local list names the same pairs, in the same order, as the stored view. */
    ghost predicate Synced()
      reads this, manager
    {
      Keys(favorites) == Keys(View(manager.Favorites(), filter))
    }

    /** `loadFavorites`: run on mount and on every change notification. */
    method Load()
      modifies this
      ensures favorites == View(manager.Favorites(), filter)
      ensures Synced() && |favorites| == |View(manager.Favorites(), filter)|
    {
      if filter.Some? {
        favorites := manager.GetFavoritesByType(filter.value);
      } else {
        favorites := manager.GetFavorites();
      }
    }

    /** `count`: while in sync, the number of favourites in the store's view. */
    function Count(): (n: nat)
      reads this, manager
      ensures Synced() ==> n == |View(manager.Favorites(), filter)|
    {
      |favorites|
    }

    /** `isFavorite`: answered from the local list, not the store. */
    function IsFavorite(id: int, kind: FavoriteType): (b: bool)
      reads this
      ensures b <==> exists f :: f in favorites && Matches(f, id, kind)
    {
      HasIffIn(favorites, id, kind);
      Has(favorites, id, kind)
    }

    /** `addFavorite`: the store's add, then the local updater with the record the store returned. */
    method AddFavorite(id: int, kind: FavoriteType, data: Item, now: string, saveOk: bool)
      modifies this, manager
      ensures Has(old(manager.Favorites()), id, kind) ==> manager.stored == old(manager.stored)
      ensures !Has(old(manager.Favorites()), id, kind) ==>
                manager.stored == if saveOk then Some(old(manager.Favorites()) + [Favorite(id, kind, data, now)])
                                  else old(manager.stored)
      ensures favorites == AddUpdate(old(favorites), Favorite(id, kind, data, now))
      ensures IsFavorite(id, kind)
      ensures Unique(old(favorites)) ==> Unique(favorites)
      ensures old(Synced()) && saveOk && (filter.None? || filter == Some(kind)) ==> Synced()
    {
      ghost var store := manager.Favorites();
      var favorite := manager.AddFavorite(id, kind, data, now, saveOk);
      favorites := AddUpdate(favorites, favorite);
      if old(Synced()) && saveOk && (filter.None? || filter == Some(kind)) {
        AddKeepsKeys(old(favorites), store, filter, favorite, favorite);
      }
    }

    /** `removeFavorite`: the store's remove, then the same filter on the local list. */
    method RemoveFavorite(id: int, kind: FavoriteType, saveOk: bool)
      modifies this, manager
      ensures manager.stored == if saveOk then Some(Without(old(manager.Favorites()), id, kind)) else old(manager.stored)
      ensures favorites == Without(old(favorites), id, kind)
      ensures !IsFavorite(id, kind)
      ensures Unique(old(favorites)) ==> Unique(favorites)
      ensures old(Synced()) && saveOk ==> Synced()
    {
      ghost var store := manager.Favorites();
      manager.RemoveFavorite(id, kind, saveOk);
      ghost var prev := favorites;
      favorites := Without(favorites, id, kind);
      WithoutRemovesExactly(prev, id, kind);
      if Unique(prev) {
        FilterKeepsUnique(prev, (f: Favorite) => !Matches(f, id, kind));
      }
      if old(Synced()) && saveOk {
        ViewWithout(store, filter, id, kind);
        KeysOfFilter(prev, View(store, filter), (f: Favorite) => !Matches(f, id, kind));
      }
    }

    /**
     * `toggleFavorite`: the store's toggle decides; the hook then repeats the
     * add or remove, which leaves the store as the toggle left it. `now` is
     * the toggle's timestamp, `later` the repeated add's.
     */
    method ToggleFavorite(id: int, kind: FavoriteType, data: Item, now: string, later: string, saveOk: bool)
      returns (isFav: bool)
      modifies this, manager
      ensures isFav == !Has(old(manager.Favorites()), id, kind)
      ensures favorites == if isFav then AddUpdate(old(favorites), Favorite(id, kind, data, later))
                           else Without(old(favorites), id, kind)
      ensures Unique(old(favorites)) ==> Unique(favorites)
      ensures IsFavorite(id, kind) == isFav
      ensures saveOk ==> Has(manager.Favorites(), id, kind) == isFav
      ensures saveOk && isFav ==> manager.Favorites() == old(manager.Favorites()) + [Favorite(id, kind, data, now)]
      ensures saveOk && !isFav ==> manager.Favorites() == Without(old(manager.Favorites()), id, kind)
      ensures !saveOk ==> manager.stored == old(manager.stored)
      ensures old(Synced()) && saveOk && (filter.None? || filter == Some(kind)) ==> Synced()
    {
      ghost var store := manager.Favorites();
      ghost var local := favorites;
      isFav := manager.ToggleFavorite(id, kind, data, now, saveOk);
      if isFav {
        AddFavorite(id, kind, data, later, saveOk);
        if old(Synced()) && saveOk && (filter.None? || filter == Some(kind)) {
          AddKeepsKeys(local, store, filter, Favorite(id, kind, data, now), Favorite(id, kind, data, later));
        }
      } else {
        ghost var afterToggle := manager.Favorites();
        RemoveFavorite(id, kind, saveOk);
        if saveOk {
          WithoutIdempotent(store, id, kind);
          assert afterToggle == Without(store, id, kind);
          assert manager.Favorites() == Without(afterToggle, id, kind);
        }
        if old(Synced()) && saveOk {
          ViewWithout(store, filter, id, kind);
          KeysOfFilter(local, View(store, filter), (f: Favorite) => !Matches(f, id, kind));
        }
      }
    }

    /** `clearAll`: the store and the local list both become empty. */
    method ClearAll(saveOk: bool)
      modifies this, manager
      ensures manager.stored == if saveOk then Some([]) else old(manager.stored)
      ensures favorites == [] && Count() == 0
      ensures saveOk ==> Synced()
    {
      manager.ClearAll(saveOk);
      favorites := [];
      if saveOk {
        assert View([], filter) == [];
      }
    }

    /** `clearByType`: both drop the records of one type, keeping the rest in order. */
    method ClearByType(kind: FavoriteType, saveOk: bool)
      modifies this, manager
      ensures manager.stored == if saveOk then Some(NotOfType(old(manager.Favorites()), kind)) else old(manager.stored)
      ensures favorites == NotOfType(old(favorites), kind)
      ensures forall f :: f in favorites <==> f in old(favorites) && f.kind != kind
      ensures old(Synced()) && saveOk ==> Synced()
    {
      ghost var store := manager.Favorites();
      manager.ClearByType(kind, saveOk);
      ghost var prev := favorites;
      favorites := NotOfType(favorites, kind);
      if old(Synced()) && saveOk {
        ViewNotOfType(store, filter, kind);
        KeysOfFilter(prev, View(store, filter), (f: Favorite) => f.kind != kind);
      }
    }
  }
}
