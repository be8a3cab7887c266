/** `POST /api/user-playlists/:id/tracks`: only the playlist's owner may append,
    and the new entry goes one past the highest position in use. */
module UserPlaylists {
  import opened Wrappers
  import opened Catalog

  /** A row of `user_playlists`. */
  datatype UserPlaylist = UserPlaylist(id: int, owner: UserId, name: string)

  /** A row of `user_playlist_tracks`. */
  datatype PlaylistEntry = PlaylistEntry(playlistId: int, trackId: int, position: int)

  datatype Playlists = Playlists(playlists: seq<UserPlaylist>, entries: seq<PlaylistEntry>)

  /** The reply: 403 for a playlist the user does not own, or the stored entry. */
  datatype AddOutcome = Forbidden | Added(state: Playlists, position: int)

  /** `SELECT * FROM user_playlists WHERE id = ? AND user_id = ?` finds a row. */
  predicate Owns(ps: Playlists, user: UserId, playlistId: int) {
    exists p :: p in ps.playlists && p.id == playlistId && p.owner == user
  }

  /** The positions in use in one playlist, in table order. */
  function PositionsOf(entries: seq<PlaylistEntry>, playlistId: int): (ps: seq<int>)
    ensures forall x :: x in ps <==> exists e :: e in entries && e.playlistId == playlistId && e.position == x
    decreases |entries|
  {
    if |entries| == 0 then []
    else
      var rest := PositionsOf(entries[..|entries| - 1], playlistId);
      var last := entries[|entries| - 1];
      assert forall e :: e in entries ==> e in entries[..|entries| - 1] || e == last;
      rest + (if last.playlistId == playlistId then [last.position] else [])
  }

  /** `MAX(position)`: NULL over no rows. */
  function MaxOf(xs: seq<int>): (m: Option<int>)
    ensures m.None? <==> |xs| == 0
    ensures m.Some? ==> m.value in xs && forall x :: x in xs ==> x <= m.value
    decreases |xs|
  {
    if |xs| == 0 then None
    else
      var rest := MaxOf(xs[..|xs| - 1]);
      var last := xs[|xs| - 1];
      assert xs == xs[..|xs| - 1] + [last];
      match rest
      case None => Some(last)
      case Some(m) => Some(if m >= last then m else last)
  }

  /** `(result.max_pos || 0) + 1`: one past the highest position in use, and 1 for an
      empty playlist (a NULL maximum counts as 0). */
  function NextPosition(entries: seq<PlaylistEntry>, playlistId: int): (p: int)
    ensures forall x :: x in PositionsOf(entries, playlistId) ==> x < p
    ensures PositionsOf(entries, playlistId) != [] ==> p - 1 in PositionsOf(entries, playlistId)
    ensures PositionsOf(entries, playlistId) == [] ==> p == 1
  {
    match MaxOf(PositionsOf(entries, playlistId))
    case None => 1
    case Some(m) => m + 1
  }

  /** The append: forbidden exactly when the user owns no playlist of that id;
      otherwise one entry is added after all others, one past the highest position
      in use. */
  function AddTrack(ps: Playlists, user: UserId, playlistId: int, trackId: int): (r: AddOutcome)
    ensures r.Forbidden? <==> !Owns(ps, user, playlistId)
    ensures r.Added? ==> r.state == ps.(entries := ps.entries + [PlaylistEntry(playlistId, trackId, r.position)])
    ensures r.Added? ==> forall x :: x in PositionsOf(ps.entries, playlistId) ==> x < r.position
    ensures r.Added? && PositionsOf(ps.entries, playlistId) != [] ==>
              r.position - 1 in PositionsOf(ps.entries, playlistId)
    ensures r.Added? && PositionsOf(ps.entries, playlistId) == [] ==> r.position == 1
  {
    if !Owns(ps, user, playlistId) then Forbidden
    else
      var p := NextPosition(ps.entries, playlistId);
      Added(ps.(entries := ps.entries + [PlaylistEntry(playlistId, trackId, p)]), p)
  }

  /** The positions 1, 2, …, n. */
  function Numbering(n: nat): (r: seq<int>)
    ensures |r| == n
    ensures forall i :: 0 <= i < n ==> r[i] == i + 1
  {
    seq(n, i => i + 1)
  }

  /** A playlist numbered 1..n gets n+1 next, so it stays numbered 1..n+1. */
  lemma AddKeepsNumbering(ps: Playlists, user: UserId, playlistId: int, trackId: int, n: nat)
    requires Owns(ps, user, playlistId)
    requires PositionsOf(ps.entries, playlistId) == Numbering(n)
    ensures var r := AddTrack(ps, user, playlistId, trackId);
            r.Added? && r.position == n + 1
            && PositionsOf(r.state.entries, playlistId) == Numbering(n + 1)
  {
    var e := PlaylistEntry(playlistId, trackId, n + 1);
    if n > 0 {
      var m := MaxOf(Numbering(n));
      assert Numbering(n)[n - 1] == n;
      assert m.value == n;
    }
    var r := AddTrack(ps, user, playlistId, trackId);
    assert (ps.entries + [e])[..|ps.entries|] == ps.entries;
    assert Numbering(n) + [n + 1] == Numbering(n + 1);
  }

  /** Appending to one playlist leaves the positions of every other alone. */
  lemma AddKeepsOtherPlaylists(ps: Playlists, user: UserId, playlistId: int, trackId: int, other: int)
    requires other != playlistId
    ensures var r := AddTrack(ps, user, playlistId, trackId);
            r.Added? ==> PositionsOf(r.state.entries, other) == PositionsOf(ps.entries, other)
  {
    var r := AddTrack(ps, user, playlistId, trackId);
    if r.Added? {
      assert r.state.entries[..|ps.entries|] == ps.entries;
    }
  }
}
