/** The relations the discovery engine and its collaborators read and write,
    each table kept as a sequence of rows in storage order. */
module Catalog {
  import opened Wrappers

  /** The requesting identity: the session user's id, or the guest. */
  datatype UserId = Guest | Account(id: int)

  /** `req.session?.user?.id || 'guest'`: no session user, or the falsy id 0, is the guest. */
  function SessionUser(sessionUserId: Option<int>): (u: UserId)
    ensures u == Guest <==> sessionUserId == None || sessionUserId == Some(0)
    ensures u.Account? ==> sessionUserId == Some(u.id)
  {
    match sessionUserId
    case None => Guest
    case Some(id) => if id == 0 then Guest else Account(id)
  }

  /** A row of `tracks`; `createdAt` is the insertion timestamp as a number. */
  datatype Track = Track(
    id: int,
    title: string,
    artist: string,
    album: Option<string>,
    url: string,
    duration: int,
    coverImage: Option<string>,
    createdAt: int)

  /** A row of `track_genres`. */
  datatype GenreTag = GenreTag(trackId: int, genre: string)

  /** A row of `user_favorites`; the schema makes (user, track) unique. */
  datatype Favorite = Favorite(userId: UserId, trackId: int)

  /** A row of the append-only `listening_history`. */
  datatype HistoryEntry = HistoryEntry(userId: UserId, trackId: int, playDuration: int, completed: bool)

  /** Key of `user_interactions`, unique per (user, track, interaction type). */
  datatype InteractionKey = InteractionKey(userId: UserId, trackId: int, kind: string)

  /** The aggregated counters of one `user_interactions` row. */
  datatype Counter = Counter(count: nat, totalPlayTime: int)

  datatype Store = Store(
    tracks: seq<Track>,
    trackGenres: seq<GenreTag>,
    favorites: seq<Favorite>,
    history: seq<HistoryEntry>,
    interactions: map<InteractionKey, Counter>)

  /** The UNIQUE(user_id, track_id) constraint of `user_favorites`. */
  predicate UniqueFavorites(favs: seq<Favorite>) {
    forall i, j :: 0 <= i < j < |favs| ==> favs[i] != favs[j]
  }

  /** Number of `user_favorites` rows for the pair. */
  function CountFavorites(favs: seq<Favorite>, user: UserId, trackId: int): (n: nat)
    ensures n > 0 <==> Favorite(user, trackId) in favs
    ensures n <= |favs|
    decreases |favs|
  {
    if |favs| == 0 then 0
    else (if favs[0] == Favorite(user, trackId) then 1 else 0) + CountFavorites(favs[1..], user, trackId)
  }

  /** Under the unique-pair constraint a pair has at most one row. */
  lemma {:induction false} UniqueFavoritesAtMostOne(favs: seq<Favorite>, user: UserId, trackId: int)
    requires UniqueFavorites(favs)
    ensures CountFavorites(favs, user, trackId) <= 1
    decreases |favs|
  {
    if |favs| > 0 {
      assert UniqueFavorites(favs[1..]) by {
        forall i, j | 0 <= i < j < |favs| - 1
          ensures favs[1..][i] != favs[1..][j]
        {
          assert favs[i + 1] != favs[j + 1];
        }
      }
      UniqueFavoritesAtMostOne(favs[1..], user, trackId);
      if favs[0] == Favorite(user, trackId) {
        assert Favorite(user, trackId) !in favs[1..] by {
          forall k | 0 <= k < |favs| - 1
            ensures favs[1..][k] != favs[0]
          {
            assert favs[k + 1] != favs[0];
          }
        }
      }
    }
  }

  /** Number of `listening_history` rows for the track, across all users. */
  function CountHistory(history: seq<HistoryEntry>, trackId: int): (n: nat)
    ensures n <= |history|
    decreases |history|
  {
    if |history| == 0 then 0
    else CountHistory(history[..|history| - 1], trackId)
         + (if history[|history| - 1].trackId == trackId then 1 else 0)
  }

  /** The genre tags of a track, in table order (repeats kept). */
  function GenresOf(tags: seq<GenreTag>, trackId: int): (gs: seq<string>)
    ensures |gs| <= |tags|
    ensures forall g :: g in gs <==> GenreTag(trackId, g) in tags
    decreases |tags|
  {
    if |tags| == 0 then []
    else (if tags[0].trackId == trackId then [tags[0].genre] else []) + GenresOf(tags[1..], trackId)
  }
}
