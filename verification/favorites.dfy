/** `POST /api/favorites/:trackId`: look the (user, track) pair up in
    `user_favorites`; delete it when found and reply `favorited: false`, insert it
    otherwise and reply `favorited: true`. */
module Favorites {
  import opened Catalog
  import Discovery

  /** The toggled store and the `favorited` flag of the reply. */
  datatype Toggled = Toggled(store: Store, favorited: bool)

  /** `DELETE FROM user_favorites WHERE user_id = ? AND track_id = ?`: every row of
      the pair goes, the other rows stay in order. */
  function Without(favs: seq<Favorite>, f: Favorite): (r: seq<Favorite>)
    ensures f !in r
    ensures forall g :: g != f ==> (g in r <==> g in favs)
    ensures |r| <= |favs|
    decreases |favs|
  {
    if |favs| == 0 then []
    else (if favs[0] == f then [] else [favs[0]]) + Without(favs[1..], f)
  }

  /** The pair's `CountFavorites` is its multiplicity in the table. */
  lemma {:induction false} CountIsMultiplicity(favs: seq<Favorite>, user: UserId, trackId: int)
    ensures CountFavorites(favs, user, trackId) == multiset(favs)[Favorite(user, trackId)]
    decreases |favs|
  {
    if |favs| > 0 {
      CountIsMultiplicity(favs[1..], user, trackId);
      assert favs == [favs[0]] + favs[1..];
      assert multiset(favs) == multiset{favs[0]} + multiset(favs[1..]);
    }
  }

  /** Deleting a pair zeroes its multiplicity and keeps every other one. */
  lemma {:induction false} WithoutMultiset(favs: seq<Favorite>, f: Favorite)
    ensures multiset(Without(favs, f)) == multiset(favs)[f := 0]
    decreases |favs|
  {
    if |favs| > 0 {
      WithoutMultiset(favs[1..], f);
      assert favs == [favs[0]] + favs[1..];
      assert multiset(favs) == multiset{favs[0]} + multiset(favs[1..]);
      var head := if favs[0] == f then [] else [favs[0]];
      assert multiset(Without(favs, f)) == multiset(head) + multiset(Without(favs[1..], f));
    }
  }

  /** Deleting a pair that has no row changes nothing. */
  lemma {:induction false} WithoutAbsent(favs: seq<Favorite>, f: Favorite)
    requires f !in favs
    ensures Without(favs, f) == favs
    decreases |favs|
  {
    if |favs| > 0 {
      assert favs[1..] == favs[1..];
      assert f !in favs[1..] by {
        forall k | 0 <= k < |favs| - 1 ensures favs[1..][k] != f { assert favs[1..][k] == favs[k + 1]; }
      }
      WithoutAbsent(favs[1..], f);
      assert favs == [favs[0]] + favs[1..];
    }
  }

  /** Deletion distributes over concatenation. */
  lemma {:induction false} WithoutAppend(a: seq<Favorite>, b: seq<Favorite>, f: Favorite)
    ensures Without(a + b, f) == Without(a, f) + Without(b, f)
    decreases |a|
  {
    if |a| > 0 {
      WithoutAppend(a[1..], b, f);
      assert (a + b)[1..] == a[1..] + b;
    } else {
      assert a + b == b;
    }
  }

  /** The toggle: the reply says whether the pair is favorited afterwards, and no
      other pair or table changes. */
  function Toggle(s: Store, user: UserId, trackId: int): (t: Toggled)
    ensures t.favorited <==> Favorite(user, trackId) !in s.favorites
    ensures Favorite(user, trackId) in t.store.favorites <==> t.favorited
    ensures forall g :: g != Favorite(user, trackId) ==> (g in t.store.favorites <==> g in s.favorites)
    ensures t.store == s.(favorites := t.store.favorites)
  {
    var f := Favorite(user, trackId);
    if f in s.favorites then Toggled(s.(favorites := Without(s.favorites, f)), false)
    else Toggled(s.(favorites := s.favorites + [f]), true)
  }

  /** Every other pair keeps its number of rows. */
  lemma ToggleKeepsOtherCounts(s: Store, user: UserId, trackId: int, u: UserId, tid: int)
    requires Favorite(u, tid) != Favorite(user, trackId)
    ensures CountFavorites(Toggle(s, user, trackId).store.favorites, u, tid) == CountFavorites(s.favorites, u, tid)
  {
    var f := Favorite(user, trackId);
    CountIsMultiplicity(s.favorites, u, tid);
    CountIsMultiplicity(Toggle(s, user, trackId).store.favorites, u, tid);
    if f in s.favorites {
      WithoutMultiset(s.favorites, f);
    } else {
      assert multiset(s.favorites + [f]) == multiset(s.favorites) + multiset{f};
    }
  }

  /** The unique-pair constraint survives a toggle. */
  lemma ToggleKeepsUnique(s: Store, user: UserId, trackId: int)
    requires UniqueFavorites(s.favorites)
    ensures UniqueFavorites(Toggle(s, user, trackId).store.favorites)
  {
    var f := Favorite(user, trackId);
    var r := Toggle(s, user, trackId).store.favorites;
    forall x: Favorite | x in multiset(r) ensures multiset(r)[x] <= 1 {
      UniqueFavoritesAtMostOne(s.favorites, x.userId, x.trackId);
      CountIsMultiplicity(s.favorites, x.userId, x.trackId);
      if f in s.favorites {
        WithoutMultiset(s.favorites, f);
      } else {
        assert multiset(r) == multiset(s.favorites) + multiset{f};
      }
    }
    MultiplicityUnique(r);
  }

  /** A table in which no row occurs twice satisfies the unique-pair constraint. */
  lemma MultiplicityUnique(favs: seq<Favorite>)
    requires forall x: Favorite | x in multiset(favs) :: multiset(favs)[x] <= 1
    ensures UniqueFavorites(favs)
  {
    forall i, j | 0 <= i < j < |favs| ensures favs[i] != favs[j] {
      var x := favs[i];
      assert favs == favs[..i] + [x] + favs[i + 1..j] + [favs[j]] + favs[j + 1..];
      assert multiset(favs) == multiset(favs[..i]) + multiset{x} + multiset(favs[i + 1..j])
                               + multiset{favs[j]} + multiset(favs[j + 1..]);
      assert x in multiset(favs);
      assert multiset(favs)[x] >= 1 + (if favs[j] == x then 1 else 0);
    }
  }

  /** Toggling an absent pair twice gives back exactly the original table. */
  lemma ToggleTwiceAbsent(s: Store, user: UserId, trackId: int)
    requires Favorite(user, trackId) !in s.favorites
    ensures Toggle(Toggle(s, user, trackId).store, user, trackId).store == s
  {
    var f := Favorite(user, trackId);
    WithoutAppend(s.favorites, [f], f);
    WithoutAbsent(s.favorites, f);
  }

  /** Toggling a present pair twice gives back the same rows; the pair's row moves
      to the end of the storage order. */
  lemma ToggleTwicePresent(s: Store, user: UserId, trackId: int)
    requires UniqueFavorites(s.favorites)
    requires Favorite(user, trackId) in s.favorites
    ensures var r := Toggle(Toggle(s, user, trackId).store, user, trackId).store;
            r.favorites == Without(s.favorites, Favorite(user, trackId)) + [Favorite(user, trackId)]
            && multiset(r.favorites) == multiset(s.favorites)
            && r == s.(favorites := r.favorites)
  {
    var f := Favorite(user, trackId);
    WithoutMultiset(s.favorites, f);
    UniqueFavoritesAtMostOne(s.favorites, user, trackId);
    CountIsMultiplicity(s.favorites, user, trackId);
    var w := Without(s.favorites, f);
    assert multiset(w + [f]) == multiset(w) + multiset{f};
  }

  /** The reply agrees with the `is_favorited` that discovery reports next. */
  lemma ToggleSeenByDiscovery(s: Store, user: UserId, t: Track)
    ensures var r := Toggle(s, user, t.id);
            Discovery.MixedRow(r.store, user, t).isFavorited == r.favorited
            && Discovery.NewRow(r.store, user, t).isFavorited == r.favorited
  {
  }
}
