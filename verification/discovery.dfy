/** The discovery engine behind `GET /api/discover`: algorithm dispatch, the rows
    each variant's query selects, their ranking, and the `genres` normalisation.
    Each query is read as a function of the relations in a `Store`, with SQLite
    semantics: a LEFT JOIN keeps at least one (NULL) row, `COUNT(col)` counts the
    non-NULL joined rows, and `GROUP_CONCAT(genre)` joins the non-NULL genres of
    the group with ',' (the order inside the group is the nested-loop join order,
    which SQL itself leaves unspecified). The random parts of the queries come in
    as oracles: `score` ranks the mixed variant, `shuffle` the genre-based one. */
module Discovery {
  import opened Wrappers
  import opened Strings
  import opened Catalog
  import opened Ranking

  /** `LIMIT 20` of every variant. */
  const Limit: nat := 20

  datatype Algorithm = Popular | GenreBased | New | Mixed

  /** `req.query.algorithm || 'mixed'` followed by the `switch`: an absent, empty or
      unrecognised value takes the default (mixed) branch. */
  function ParseAlgorithm(param: Option<string>): (a: Algorithm)
    ensures a == Popular <==> param == Some("popular")
    ensures a == GenreBased <==> param == Some("genre-based")
    ensures a == New <==> param == Some("new")
    ensures a == Mixed <==> param !in {Some("popular"), Some("genre-based"), Some("new")}
  {
    var name := param.GetOr("mixed");
    if name == "popular" then Popular
    else if name == "genre-based" then GenreBased
    else if name == "new" then New
    else Mixed
  }

  /** A returned row: the track's columns, `play_count`, the normalised `genres`
      list, and `is_favorited` for the requesting user. */
  datatype Candidate = Candidate(track: Track, playCount: nat, genres: seq<string>, isFavorited: bool)

  // ------------------------------------------------------------ join algebra

  /** Rows a LEFT JOIN contributes for `n` matches: `n`, or one NULL row when none. */
  function JoinFactor(n: nat): (k: nat)
    ensures k >= 1
    ensures n > 0 ==> k == n
  {
    if n == 0 then 1 else n
  }

  /** Row count of joining `a` rows with `b` rows each. */
  function Times(a: nat, b: nat): nat {
    a * b
  }

  function Copies(x: string, k: nat): (r: seq<string>)
    ensures |r| == k
    ensures forall i :: 0 <= i < k ==> r[i] == x
  {
    seq(k, _ => x)
  }

  /** Each element repeated `k` times in place (a join with `k` rows per element). */
  function Stutter(xs: seq<string>, k: nat): seq<string>
    decreases |xs|
  {
    if |xs| == 0 then [] else Copies(xs[0], k) + Stutter(xs[1..], k)
  }

  /** The whole sequence repeated `k` times (an outer join with `k` rows). */
  function Repeat(xs: seq<string>, k: nat): seq<string>
    decreases k
  {
    if k == 0 then [] else xs + Repeat(xs, k - 1)
  }

  lemma {:induction false} StutterOne(xs: seq<string>)
    ensures Stutter(xs, 1) == xs
    decreases |xs|
  {
    if |xs| > 0 {
      StutterOne(xs[1..]);
      assert Copies(xs[0], 1) == [xs[0]];
      assert xs == [xs[0]] + xs[1..];
    }
  }

  lemma RepeatOne(xs: seq<string>)
    ensures Repeat(xs, 1) == xs
  {
    assert Repeat(xs, 0) == [];
    assert xs + [] == xs;
  }

  // ------------------------------------------------------ genres aggregation

  /** `GROUP_CONCAT(tg.genre)`: NULL when the group has no genre. */
  function GenreAggregate(genres: seq<string>): Option<string> {
    if |genres| == 0 then None else Some(Join(genres, ","))
  }

  /** `row.genres ? row.genres.split(',') : []`: NULL and the empty string are falsy. */
  function NormalizeGenres(agg: Option<string>): (gs: seq<string>)
    ensures agg == None || agg == Some("") ==> gs == []
    ensures agg.Some? && agg.value != "" ==> |gs| == CountChar(agg.value, ',') + 1
    ensures forall i :: 0 <= i < |gs| ==> ',' !in gs[i]
    ensures agg.Some? ==> Join(gs, ",") == agg.value
  {
    match agg
    case None => []
    case Some(s) =>
      if s == "" then [] else
      SplitCount(s, ',');
      JoinSplit(s, ',');
      Split(s, ',')
  }

  /** Genre strings that survive the comma round trip. */
  predicate CleanGenres(tags: seq<GenreTag>) {
    forall i :: 0 <= i < |tags| ==> tags[i].genre != "" && ',' !in tags[i].genre
  }

  predicate CleanList(gs: seq<string>) {
    forall i :: 0 <= i < |gs| ==> gs[i] != "" && ',' !in gs[i]
  }

  /** Normalising a group's aggregate gives back the group's genres: `[]` for an
      untagged track, never NULL, and the genres themselves otherwise. */
  lemma NormalizeAggregate(gs: seq<string>)
    requires CleanList(gs)
    ensures NormalizeGenres(GenreAggregate(gs)) == gs
  {
    if |gs| > 0 {
      assert Join(gs, ",") != "" by {
        if |gs| == 1 {
          assert Join(gs, ",") == gs[0];
        } else {
          assert |Join(gs, ",")| >= |gs[0] + ","|;
        }
      }
      SplitJoin(gs, ',');
    }
  }

  lemma {:induction false} StutterClean(xs: seq<string>, k: nat)
    requires CleanList(xs)
    ensures CleanList(Stutter(xs, k))
    decreases |xs|
  {
    if |xs| > 0 {
      StutterClean(xs[1..], k);
    }
  }

  lemma {:induction false} RepeatClean(xs: seq<string>, k: nat)
    requires CleanList(xs)
    ensures CleanList(Repeat(xs, k))
    decreases k
  {
    if k > 0 {
      RepeatClean(xs, k - 1);
    }
  }

  lemma GenresOfClean(tags: seq<GenreTag>, trackId: int)
    requires CleanGenres(tags)
    ensures CleanList(GenresOf(tags, trackId))
  {
    var gs := GenresOf(tags, trackId);
    forall i | 0 <= i < |gs|
      ensures gs[i] != "" && ',' !in gs[i]
    {
      assert GenreTag(trackId, gs[i]) in tags;
    }
  }

  // ----------------------------------------------------------- per-variant rows

  /** `popular`: history and genres are both LEFT JOINed before `COUNT`, so a
      track with p plays and g genres counts p·max(g,1)·max(f,1) plays (f its
      favorite rows for the user) and lists each genre max(p,1)·max(f,1) times. */
  function PopularRow(s: Store, user: UserId, t: Track): Candidate {
    var p := CountHistory(s.history, t.id);
    var g := GenresOf(s.trackGenres, t.id);
    var f := CountFavorites(s.favorites, user, t.id);
    Candidate(t, Times(Times(p, JoinFactor(|g|)), JoinFactor(f)),
              NormalizeGenres(GenreAggregate(Repeat(Stutter(g, JoinFactor(f)), JoinFactor(p)))),
              f > 0)
  }

  /** `new`: `play_count` is the constant 0. */
  function NewRow(s: Store, user: UserId, t: Track): Candidate {
    var g := GenresOf(s.trackGenres, t.id);
    var f := CountFavorites(s.favorites, user, t.id);
    Candidate(t, 0, NormalizeGenres(GenreAggregate(Stutter(g, JoinFactor(f)))), f > 0)
  }

  /** `mixed`: plays come from a per-track `COUNT(*)` subquery, so they are not
      multiplied by the genre join. */
  function MixedRow(s: Store, user: UserId, t: Track): Candidate {
    var g := GenresOf(s.trackGenres, t.id);
    var f := CountFavorites(s.favorites, user, t.id);
    Candidate(t, CountHistory(s.history, t.id),
              NormalizeGenres(GenreAggregate(Stutter(g, JoinFactor(f)))), f > 0)
  }

  /** The `SELECT DISTINCT tg2.genre` subquery: genres of the user's favorited tracks. */
  function FavoriteGenres(s: Store, user: UserId): set<string> {
    set tag | tag in s.trackGenres && Favorite(user, tag.trackId) in s.favorites :: tag.genre
  }

  /** The user has no favorite at all. */
  predicate NoFavorites(s: Store, user: UserId) {
    forall i :: 0 <= i < |s.favorites| ==> s.favorites[i].userId != user
  }

  /** Some genre tag of `t` is also a genre of a track the user favorited. */
  predicate SharesFavoriteGenre(s: Store, user: UserId, t: Track) {
    exists tag :: tag in s.trackGenres && tag.trackId == t.id && tag.genre in FavoriteGenres(s, user)
  }

  /** The genres of `gs` that lie in `keep`, in order. */
  function Matching(gs: seq<string>, keep: set<string>): (r: seq<string>)
    ensures forall g :: g in r <==> g in gs && g in keep
    decreases |gs|
  {
    if |gs| == 0 then []
    else (if gs[0] in keep then [gs[0]] else []) + Matching(gs[1..], keep)
  }

  lemma {:induction false} MatchingClean(gs: seq<string>, keep: set<string>)
    requires CleanList(gs)
    ensures CleanList(Matching(gs, keep))
    decreases |gs|
  {
    if |gs| > 0 {
      MatchingClean(gs[1..], keep);
    }
  }

  /** The `WHERE` of `genre-based`: not favorited, and some tag in a favorite genre. */
  predicate GenreEligible(s: Store, user: UserId, t: Track) {
    Favorite(user, t.id) !in s.favorites
    && |Matching(GenresOf(s.trackGenres, t.id), FavoriteGenres(s, user))| > 0
  }

  /** `genre-based`: the WHERE filter runs before `GROUP_CONCAT`, so only the
      matching genres are listed; `play_count` is the constant 0. */
  function GenreRow(s: Store, user: UserId, t: Track): Candidate {
    var g := Matching(GenresOf(s.trackGenres, t.id), FavoriteGenres(s, user));
    var f := CountFavorites(s.favorites, user, t.id);
    Candidate(t, 0, NormalizeGenres(GenreAggregate(Stutter(g, JoinFactor(f)))), f > 0)
  }

  /** Eligibility is exactly "not favorited and shares a genre with a favorite". */
  lemma GenreEligibleIff(s: Store, user: UserId, t: Track)
    ensures GenreEligible(s, user, t)
        <==> Favorite(user, t.id) !in s.favorites && SharesFavoriteGenre(s, user, t)
  {
    var fg := FavoriteGenres(s, user);
    var m := Matching(GenresOf(s.trackGenres, t.id), fg);
    if |m| > 0 {
      assert m[0] in m;
      assert GenreTag(t.id, m[0]) in s.trackGenres;
    }
    if SharesFavoriteGenre(s, user, t) {
      var tag :| tag in s.trackGenres && tag.trackId == t.id && tag.genre in fg;
      assert tag == GenreTag(t.id, tag.genre);
      assert tag.genre in m;
    }
  }

  /** The rows of all tracks, in table order, under one row function. */
  function PopularRows(s: Store, user: UserId): (rows: seq<Candidate>)
    ensures |rows| == |s.tracks|
    ensures forall i :: 0 <= i < |rows| ==> rows[i] == PopularRow(s, user, s.tracks[i])
  {
    seq(|s.tracks|, i requires 0 <= i < |s.tracks| => PopularRow(s, user, s.tracks[i]))
  }

  function NewRows(s: Store, user: UserId): (rows: seq<Candidate>)
    ensures |rows| == |s.tracks|
    ensures forall i :: 0 <= i < |rows| ==> rows[i] == NewRow(s, user, s.tracks[i])
  {
    seq(|s.tracks|, i requires 0 <= i < |s.tracks| => NewRow(s, user, s.tracks[i]))
  }

  function MixedRows(s: Store, user: UserId): (rows: seq<Candidate>)
    ensures |rows| == |s.tracks|
    ensures forall i :: 0 <= i < |rows| ==> rows[i] == MixedRow(s, user, s.tracks[i])
  {
    seq(|s.tracks|, i requires 0 <= i < |s.tracks| => MixedRow(s, user, s.tracks[i]))
  }

  /** The `genre-based` rows before ranking: one per eligible track, in table order,
      and every eligible track has one. */
  function GenreRows(s: Store, user: UserId, ts: seq<Track>): (rows: seq<Candidate>)
    ensures forall c :: c in rows ==> c.track in ts && GenreEligible(s, user, c.track) && c == GenreRow(s, user, c.track)
    ensures forall t :: t in ts && GenreEligible(s, user, t) ==> GenreRow(s, user, t) in rows
    decreases |ts|
  {
    if |ts| == 0 then []
    else
      var rest := GenreRows(s, user, ts[1..]);
      assert forall t :: t in ts ==> t == ts[0] || t in ts[1..];
      (if GenreEligible(s, user, ts[0]) then [GenreRow(s, user, ts[0])] else []) + rest
  }

  // ---------------------------------------------------------------- ranking

  /** `ORDER BY play_count DESC, t.created_at DESC`. */
  function PopularKey(c: Candidate): Rank {
    Rank(c.playCount, c.track.createdAt)
  }

  /** `ORDER BY t.created_at DESC`. */
  function NewKey(c: Candidate): Rank {
    Rank(c.track.createdAt, 0)
  }

  /** The variant's rows before ranking. */
  function VariantRows(s: Store, user: UserId, alg: Algorithm): seq<Candidate> {
    match alg
    case Popular => PopularRows(s, user)
    case GenreBased => GenreRows(s, user, s.tracks)
    case New => NewRows(s, user)
    case Mixed => MixedRows(s, user)
  }

  /** The variant's ranking key; the random orders come from the oracles. */
  function VariantKey(alg: Algorithm, score: Candidate -> int, shuffle: Candidate -> int): Candidate -> Rank {
    match alg
    case Popular => PopularKey
    case GenreBased => (c: Candidate) => Rank(shuffle(c), 0)
    case New => NewKey
    case Mixed => (c: Candidate) => Rank(score(c), 0)
  }

  /** `GET /api/discover` for a user and algorithm: at most 20 rows, ranked by the
      variant's key, and the best-ranked of the variant's rows. */
  function Discover(s: Store, user: UserId, alg: Algorithm, score: Candidate -> int, shuffle: Candidate -> int)
    : (r: seq<Candidate>)
    ensures |r| <= Limit
    ensures |VariantRows(s, user, alg)| <= Limit ==> multiset(r) == multiset(VariantRows(s, user, alg))
    ensures |VariantRows(s, user, alg)| >= Limit ==> |r| == Limit
    ensures SortedDesc(r, VariantKey(alg, score, shuffle))
    ensures forall x, y :: x in r && y in multiset(VariantRows(s, user, alg)) - multiset(r)
              ==> AtLeast(VariantKey(alg, score, shuffle)(x), VariantKey(alg, score, shuffle)(y))
    ensures forall c :: c in r ==> c in VariantRows(s, user, alg)
  {
    var rows := VariantRows(s, user, alg);
    var r := TopRanked(rows, VariantKey(alg, score, shuffle), Limit);
    assert forall c :: c in r ==> c in multiset(rows);
    r
  }

  /** Every returned row is a track of the catalog, its `is_favorited` says whether
      the user favorited it, and the `genre-based` rows are never favorites, share a
      genre with one, and carry `play_count` 0 like the `new` rows. */
  lemma DiscoverRows(s: Store, user: UserId, alg: Algorithm, score: Candidate -> int, shuffle: Candidate -> int)
    ensures forall c :: c in Discover(s, user, alg, score, shuffle) ==>
              && c.track in s.tracks
              && (c.isFavorited <==> Favorite(user, c.track.id) in s.favorites)
              && (alg == GenreBased || alg == New ==> c.playCount == 0)
              && (alg == GenreBased ==> !c.isFavorited && SharesFavoriteGenre(s, user, c.track))
  {
    forall c | c in Discover(s, user, alg, score, shuffle)
      ensures c.track in s.tracks
      ensures c.isFavorited <==> Favorite(user, c.track.id) in s.favorites
      ensures alg == GenreBased || alg == New ==> c.playCount == 0
      ensures alg == GenreBased ==> !c.isFavorited && SharesFavoriteGenre(s, user, c.track)
    {
      VariantRowFacts(s, user, alg, c);
    }
  }

  /** What every row of a variant, ranked or not, says. */
  lemma VariantRowFacts(s: Store, user: UserId, alg: Algorithm, c: Candidate)
    requires c in VariantRows(s, user, alg)
    ensures c.track in s.tracks
    ensures c.isFavorited <==> Favorite(user, c.track.id) in s.favorites
    ensures alg == GenreBased || alg == New ==> c.playCount == 0
    ensures alg == GenreBased ==> !c.isFavorited && SharesFavoriteGenre(s, user, c.track)
  {
    var rows := VariantRows(s, user, alg);
    if alg != GenreBased {
      var i :| 0 <= i < |rows| && rows[i] == c;
      assert c.track == s.tracks[i];
    } else {
      GenreEligibleIff(s, user, c.track);
    }
  }

  lemma NoFavoritesNoGenres(s: Store, user: UserId)
    requires NoFavorites(s, user)
    ensures FavoriteGenres(s, user) == {}
  {
    forall tag | tag in s.trackGenres
      ensures Favorite(user, tag.trackId) !in s.favorites
    {
    }
  }

  lemma {:induction false} MatchingNothing(gs: seq<string>)
    ensures Matching(gs, {}) == []
    decreases |gs|
  {
    if |gs| > 0 {
      MatchingNothing(gs[1..]);
    }
  }

  lemma {:induction false} NoneEligible(s: Store, user: UserId, ts: seq<Track>)
    requires forall t :: t in ts ==> !GenreEligible(s, user, t)
    ensures GenreRows(s, user, ts) == []
    decreases |ts|
  {
    if |ts| > 0 {
      NoneEligible(s, user, ts[1..]);
    }
  }

  /** A user without favorites gets no `genre-based` recommendation. */
  lemma GenreBasedWithoutFavorites(s: Store, user: UserId, score: Candidate -> int, shuffle: Candidate -> int)
    requires NoFavorites(s, user)
    ensures Discover(s, user, GenreBased, score, shuffle) == []
  {
    NoFavoritesNoGenres(s, user);
    forall t | t in s.tracks
      ensures !GenreEligible(s, user, t)
    {
      MatchingNothing(GenresOf(s.trackGenres, t.id));
    }
    NoneEligible(s, user, s.tracks);
  }

  /** With at most 20 eligible tracks, `genre-based` returns every one of them. */
  lemma GenreBasedComplete(s: Store, user: UserId, score: Candidate -> int, shuffle: Candidate -> int, t: Track)
    requires |GenreRows(s, user, s.tracks)| <= Limit
    requires t in s.tracks && Favorite(user, t.id) !in s.favorites && SharesFavoriteGenre(s, user, t)
    ensures GenreRow(s, user, t) in Discover(s, user, GenreBased, score, shuffle)
  {
    GenreEligibleIff(s, user, t);
    var rows := GenreRows(s, user, s.tracks);
    assert GenreRow(s, user, t) in multiset(rows);
  }

  // --------------------------------------------------- what each row reports

  /** In `popular`, a track with p plays and g genres reports p·max(g,1) plays and
      its genre list repeated max(p,1) times (favorites being unique per pair). */
  lemma PopularRowCounts(s: Store, user: UserId, t: Track)
    requires UniqueFavorites(s.favorites)
    requires CleanGenres(s.trackGenres)
    ensures PopularRow(s, user, t).playCount
         == CountHistory(s.history, t.id) * JoinFactor(|GenresOf(s.trackGenres, t.id)|)
    ensures PopularRow(s, user, t).genres
         == Repeat(GenresOf(s.trackGenres, t.id), JoinFactor(CountHistory(s.history, t.id)))
  {
    var g := GenresOf(s.trackGenres, t.id);
    var p := CountHistory(s.history, t.id);
    UniqueFavoritesAtMostOne(s.favorites, user, t.id);
    assert JoinFactor(CountFavorites(s.favorites, user, t.id)) == 1;
    StutterOne(g);
    GenresOfClean(s.trackGenres, t.id);
    RepeatClean(g, JoinFactor(p));
    NormalizeAggregate(Repeat(g, JoinFactor(p)));
  }

  /** In `new` and `mixed`, each row lists the track's genres exactly once, and
      `mixed` reports the track's true number of plays. */
  lemma NewAndMixedRowGenres(s: Store, user: UserId, t: Track)
    requires UniqueFavorites(s.favorites)
    requires CleanGenres(s.trackGenres)
    ensures NewRow(s, user, t).genres == GenresOf(s.trackGenres, t.id)
    ensures MixedRow(s, user, t).genres == GenresOf(s.trackGenres, t.id)
    ensures MixedRow(s, user, t).playCount == CountHistory(s.history, t.id)
  {
    var g := GenresOf(s.trackGenres, t.id);
    UniqueFavoritesAtMostOne(s.favorites, user, t.id);
    StutterOne(g);
    GenresOfClean(s.trackGenres, t.id);
    NormalizeAggregate(g);
  }

  /** In `genre-based`, a row lists only the track's genres that some favorite has. */
  lemma GenreRowGenres(s: Store, user: UserId, t: Track)
    requires CleanGenres(s.trackGenres)
    requires GenreEligible(s, user, t)
    ensures GenreRow(s, user, t).genres == Matching(GenresOf(s.trackGenres, t.id), FavoriteGenres(s, user))
  {
    var m := Matching(GenresOf(s.trackGenres, t.id), FavoriteGenres(s, user));
    assert CountFavorites(s.favorites, user, t.id) == 0;
    StutterOne(m);
    GenresOfClean(s.trackGenres, t.id);
    MatchingClean(GenresOf(s.trackGenres, t.id), FavoriteGenres(s, user));
    NormalizeAggregate(m);
  }

  // ------------------------------------------- popular: inflated play counts

  /** Two tracks: 1 has one play and three genres, 2 has two plays and one genre. */
  function InflationExample(): Store {
    Store([Track(1, "A", "X", None, "a.mp3", 100, None, 2), Track(2, "B", "Y", None, "b.mp3", 100, None, 1)],
          [GenreTag(1, "rock"), GenreTag(1, "jazz"), GenreTag(1, "pop"), GenreTag(2, "rock")],
          [],
          [HistoryEntry(Guest, 1, 40, true), HistoryEntry(Guest, 2, 40, true), HistoryEntry(Guest, 2, 40, true)],
          map[])
  }

  /** The two-row rankings of the example: the row of higher key comes first. */
  lemma TwoRowOrder(r: seq<Candidate>, a: Candidate, b: Candidate, key: Candidate -> Rank)
    requires multiset(r) == multiset([a, b])
    requires SortedDesc(r, key)
    requires !AtLeast(key(b), key(a))
    ensures r == [a, b]
  {
    assert |r| == 2;
    assert r[0] in multiset(r) && r[1] in multiset(r);
    assert r[0] == a;
    assert multiset(r) - multiset{a} == multiset{b};
    assert r == [r[0]] + [r[1]];
  }

  /** Plays and genres of the example's two tracks. */
  lemma InflationExampleCounts()
    ensures var s := InflationExample();
            && CountHistory(s.history, 1) == 1 && CountHistory(s.history, 2) == 2
            && |GenresOf(s.trackGenres, 1)| == 3 && |GenresOf(s.trackGenres, 2)| == 1
            && CountFavorites(s.favorites, Guest, 1) == 0 && CountFavorites(s.favorites, Guest, 2) == 0
  {
    var h := InflationExample().history;
    assert h[..2][..1] == h[..1] && h[..1][..0] == [];
    assert h[..3][..2] == h[..2];
    assert h[..3] == h;
    var g := InflationExample().trackGenres;
    assert g[1..][1..][1..][1..] == [];
  }

  /** AS WRITTEN, `popular` ranks a one-play track with three genres above a
      two-play track with one genre: the genre join triples the single play. */
  lemma PopularInflatesPlays(s: Store, a: Track, b: Track)
    requires s.tracks == [a, b] && s.favorites == []
    requires CountHistory(s.history, a.id) == 1 && |GenresOf(s.trackGenres, a.id)| == 3
    requires CountHistory(s.history, b.id) == 2 && |GenresOf(s.trackGenres, b.id)| == 1
    ensures var r := Discover(s, Guest, Popular, (c: Candidate) => 0, (c: Candidate) => 0);
            |r| == 2 && r[0].track == a && r[0].playCount == 3 && r[1].track == b && r[1].playCount == 2
  {
    var rows := PopularRows(s, Guest);
    assert rows == [rows[0], rows[1]];
    var r := Discover(s, Guest, Popular, (c: Candidate) => 0, (c: Candidate) => 0);
    TwoRowOrder(r, rows[0], rows[1], PopularKey);
  }

  /** The example store meets the conditions of the two lemmas around it. */
  lemma InflationExampleApplies()
    ensures var s := InflationExample();
            && CountHistory(s.history, s.tracks[0].id) == 1 && |GenresOf(s.trackGenres, s.tracks[0].id)| == 3
            && CountHistory(s.history, s.tracks[1].id) == 2 && |GenresOf(s.trackGenres, s.tracks[1].id)| == 1
            && s.tracks[1].createdAt <= s.tracks[0].createdAt
  {
    InflationExampleCounts();
  }

  /** Corrected `popular`: plays counted once per history row, as the mixed
      variant's per-track subquery does, ranked as `popular` ranks. */
  function DiscoverPopularCorrected(s: Store, user: UserId): (r: seq<Candidate>)
    ensures |r| <= Limit
    ensures SortedDesc(r, PopularKey)
    ensures forall c :: c in r ==> c.track in s.tracks && c.playCount == CountHistory(s.history, c.track.id)
    ensures forall x, y :: x in r && y in multiset(MixedRows(s, user)) - multiset(r) ==> AtLeast(PopularKey(x), PopularKey(y))
    ensures |s.tracks| <= Limit ==> multiset(r) == multiset(MixedRows(s, user))
  {
    var rows := MixedRows(s, user);
    var r := TopRanked(rows, PopularKey, Limit);
    assert forall c :: c in r ==> c in multiset(rows);
    r
  }

  /** With the correction, the same two tracks rank by their real plays. */
  lemma CorrectedPopularRanksByPlays(s: Store, a: Track, b: Track)
    requires s.tracks == [a, b] && s.favorites == []
    requires CountHistory(s.history, a.id) == 1 && |GenresOf(s.trackGenres, a.id)| == 3
    requires CountHistory(s.history, b.id) == 2 && |GenresOf(s.trackGenres, b.id)| == 1
    ensures var r := DiscoverPopularCorrected(s, Guest);
            |r| == 2 && r[0].track == b && r[0].playCount == 2 && r[1].track == a && r[1].playCount == 1
  {
    var x, y := MixedRow(s, Guest, a), MixedRow(s, Guest, b);
    TwoMixedRows(s, a, b);
    var r := DiscoverPopularCorrected(s, Guest);
    assert multiset(r) == multiset([x, y]);
    SwapPair(x, y);
    TwoRowOrder(r, y, x, PopularKey);
  }

  /** The mixed rows of a two-track store. */
  lemma TwoMixedRows(s: Store, a: Track, b: Track)
    requires s.tracks == [a, b]
    ensures MixedRows(s, Guest) == [MixedRow(s, Guest, a), MixedRow(s, Guest, b)]
  {
  }

  lemma SwapPair(x: Candidate, y: Candidate)
    ensures multiset([x, y]) == multiset([y, x])
  {
  }
}
