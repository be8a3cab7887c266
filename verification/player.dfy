/** The music player's playlist cursor, repeat mode, end-of-track behaviour, sort
    rules and the small URL and volume decisions of `public/player.js`. Audio
    playback is a parameter: how `audio.play()` came out (`PlayStart`), and for quick
    play whether the probe and the play both succeeded (`playOk`). */
module Player {
  import opened Wrappers
  import opened Ranking
  import MediaTypes

  /** A track as the player holds it. */
  datatype PlayerTrack = PlayerTrack(
    id: int,
    title: string,
    artist: string,
    url: string,
    playCount: Option<int>,
    createdAt: int)

  datatype RepeatMode = NoRepeat | RepeatOne | RepeatAll

  datatype PlayerState = PlayerState(
    tracks: seq<PlayerTrack>,
    current: nat,
    isPlaying: bool,
    shuffled: bool,
    repeat: RepeatMode)

  // ---------------------------------------------------------------- cursor

  /** `getNextTrackIndex`: the following index, wrapping to 0; when shuffled,
      `draw` is `floor(random·n)`, some index below n. */
  function NextIndex(n: nat, current: nat, shuffled: bool, draw: nat): (i: nat)
    requires n > 0
    requires shuffled ==> draw < n
    ensures i < n
    ensures shuffled ==> i == draw
    ensures !shuffled && current + 1 < n ==> i == current + 1
    ensures !shuffled && current + 1 == n ==> i == 0
  {
    if shuffled then draw else (current + 1) % n
  }

  /** The index `previousTrack` moves to: one back, wrapping from 0 to the last. */
  function PreviousIndex(n: nat, current: nat): (i: int)
    requires n > 0
    ensures current < n ==> 0 <= i < n
    ensures current == 0 ==> i == n - 1
    ensures current > 0 ==> i == current - 1
  {
    if current == 0 then n - 1 else current - 1
  }

  /** Stepping back then forward, or forward then back, returns to the same index. */
  lemma PreviousNextInverse(n: nat, current: nat)
    requires 0 < n && current < n
    ensures NextIndex(n, PreviousIndex(n, current), false, 0) == current
    ensures PreviousIndex(n, NextIndex(n, current, false, 0)) == current
  {
  }

  /** How `audio.play()` came out: its promise resolved, it rejected (the catch calls
      `handleAudioError`, which clears `isPlaying`), or the browser returned no
      promise at all, in which case `isPlaying` is not touched. */
  datatype PlayStart = Started | Failed | NoPromise

  /** `playTrack(index)`: an index out of range does nothing; otherwise the cursor
      moves there and the playing flag follows how `audio.play()` came out. */
  function PlayTrack(s: PlayerState, index: int, play: PlayStart): (r: PlayerState)
    ensures !(0 <= index < |s.tracks|) ==> r == s
    ensures 0 <= index < |s.tracks| ==> r.current == index
    ensures 0 <= index < |s.tracks| && play == Started ==> r.isPlaying
    ensures 0 <= index < |s.tracks| && play == Failed ==> !r.isPlaying
    ensures 0 <= index < |s.tracks| && play == NoPromise ==> r.isPlaying == s.isPlaying
    ensures r.tracks == s.tracks && r.shuffled == s.shuffled && r.repeat == s.repeat
  {
    if 0 <= index < |s.tracks| then
      match play
      case Started => s.(current := index, isPlaying := true)
      case Failed => s.(current := index, isPlaying := false)
      case NoPromise => s.(current := index)
    else s
  }

  /** `nextTrack`: nothing on an empty list, otherwise play the next index. */
  function NextTrack(s: PlayerState, draw: nat, play: PlayStart): (r: PlayerState)
    requires s.shuffled ==> draw < |s.tracks| || |s.tracks| == 0
    ensures |s.tracks| == 0 ==> r == s
    ensures |s.tracks| > 0 ==> r.current < |s.tracks|
    ensures |s.tracks| > 0 && !s.shuffled ==> r.current == (s.current + 1) % |s.tracks|
    ensures |s.tracks| > 0 && s.shuffled ==> r.current == draw
    ensures |s.tracks| > 0 ==> r.isPlaying == (play == Started || (play == NoPromise && s.isPlaying))
    ensures r.tracks == s.tracks && r.shuffled == s.shuffled && r.repeat == s.repeat
  {
    if |s.tracks| == 0 then s
    else PlayTrack(s, NextIndex(|s.tracks|, s.current, s.shuffled, draw), play)
  }

  /** `previousTrack`: nothing on an empty list, otherwise play the previous index.
      A search can shorten the list without moving the cursor, so the cursor may
      sit at or past the end: at the end it steps onto the last track, and further
      out the previous index is still out of range and `playTrack` ignores it. */
  function PreviousTrack(s: PlayerState, play: PlayStart): (r: PlayerState)
    ensures |s.tracks| == 0 ==> r == s
    ensures 0 < |s.tracks| && s.current < |s.tracks| ==>
              r.current < |s.tracks| && (r.current + 1) % |s.tracks| == s.current
    ensures 0 < |s.tracks| && s.current <= |s.tracks| ==>
              r.isPlaying == (play == Started || (play == NoPromise && s.isPlaying))
    ensures 0 < |s.tracks| == s.current ==> r.current == |s.tracks| - 1
    ensures 0 < |s.tracks| < s.current ==> r == s
    ensures r.tracks == s.tracks && r.shuffled == s.shuffled && r.repeat == s.repeat
  {
    if |s.tracks| == 0 then s else PlayTrack(s, PreviousIndex(|s.tracks|, s.current), play)
  }

  // ---------------------------------------------------------------- repeat

  /** `toggleRepeat`: none → one → all → none. */
  function ToggleRepeat(m: RepeatMode): (r: RepeatMode)
    ensures r != m
    ensures m == NoRepeat ==> r == RepeatOne
    ensures m == RepeatOne ==> r == RepeatAll
    ensures m == RepeatAll ==> r == NoRepeat
  {
    match m
    case NoRepeat => RepeatOne
    case RepeatOne => RepeatAll
    case RepeatAll => NoRepeat
  }

  /** Three presses bring back the mode, and every mode is one or two presses away. */
  lemma ToggleRepeatCycle(m: RepeatMode, target: RepeatMode)
    ensures ToggleRepeat(ToggleRepeat(ToggleRepeat(m))) == m
    ensures target == m || target == ToggleRepeat(m) || target == ToggleRepeat(ToggleRepeat(m))
  {
  }

  // ------------------------------------------------------------- track end

  /** `handleTrackEnd`: repeat-one replays the same track; repeat-all, or any track
      but the last, advances; otherwise playback stops where it is. */
  function HandleTrackEnd(s: PlayerState, draw: nat, play: PlayStart): (r: PlayerState)
    requires s.shuffled ==> draw < |s.tracks| || |s.tracks| == 0
    ensures s.repeat == RepeatOne ==> r == s
    ensures s.repeat != RepeatOne && !(s.repeat == RepeatAll || s.current + 1 < |s.tracks|) ==>
              r == s.(isPlaying := false)
    ensures s.repeat != RepeatOne && (s.repeat == RepeatAll || s.current + 1 < |s.tracks|) ==>
              r == NextTrack(s, draw, play)
  {
    if s.repeat == RepeatOne then s
    else if s.repeat == RepeatAll || s.current < |s.tracks| - 1 then NextTrack(s, draw, play)
    else s.(isPlaying := false)
  }

  /** `k` track ends in a row, unshuffled, every play starting. */
  function EndMany(s: PlayerState, k: nat): PlayerState
    requires !s.shuffled
    decreases k
  {
    if k == 0 then s else HandleTrackEnd(EndMany(s, k - 1), 0, Started)
  }

  /** Ends never change the list, the shuffle flag or the repeat mode. */
  lemma {:induction false} EndManyKeeps(s: PlayerState, k: nat)
    requires !s.shuffled
    ensures EndMany(s, k).tracks == s.tracks && !EndMany(s, k).shuffled && EndMany(s, k).repeat == s.repeat
    decreases k
  {
    if k > 0 {
      EndManyKeeps(s, k - 1);
    }
  }

  /** Repeat-all walks the list in order and wraps: after k ends the cursor sits k
      places further on, so after n ends it is back where it started. */
  lemma {:induction false} RepeatAllCycles(s: PlayerState, k: nat)
    requires !s.shuffled && s.repeat == RepeatAll
    requires 0 < |s.tracks| && s.current < |s.tracks|
    ensures EndMany(s, k).current == (s.current + k) % |s.tracks|
    decreases k
  {
    if k > 0 {
      RepeatAllCycles(s, k - 1);
      EndManyKeeps(s, k - 1);
      var n := |s.tracks|;
      var c := (s.current + k - 1) % n;
      assert (c + 1) % n == (s.current + k) % n by {
        ModStep(s.current + k - 1, n);
      }
    }
  }

  /** Adding one commutes with reducing modulo n. */
  lemma ModStep(x: nat, n: nat)
    requires n > 0
    ensures (x % n + 1) % n == (x + 1) % n
  {
    var q := x / n;
    var r := x % n;
    if r + 1 < n {
      ModUnique(x + 1, n, q, r + 1);
      ModUnique(r + 1, n, 0, r + 1);
    } else {
      ModUnique(x + 1, n, q + 1, 0);
      ModUnique(r + 1, n, 1, 0);
    }
  }

  /** The remainder is the one r in [0, n) with a = q·n + r. */
  lemma ModUnique(a: int, n: int, q: int, r: int)
    requires n > 0 && a == q * n + r && 0 <= r < n
    ensures a % n == r
  {
    var q' := a / n;
    var r' := a % n;
    assert (q' - q) * n == r - r';
    if q' > q {
      MulAtLeast(q' - q, n);
    } else if q' < q {
      MulAtLeast(q - q', n);
    }
  }

  /** A positive multiple of n is at least n. */
  lemma {:induction false} MulAtLeast(k: nat, n: nat)
    requires k >= 1
    ensures k * n >= n
    decreases k
  {
    if k > 1 {
      MulAtLeast(k - 1, n);
      assert k * n == (k - 1) * n + n;
    }
  }

  /** Without repeat, from the first track, the list plays through once and stops
      on the last track. */
  lemma {:induction false} NoRepeatPlaysThrough(s: PlayerState, k: nat)
    requires !s.shuffled && s.repeat == NoRepeat
    requires 0 < |s.tracks| && s.current == 0
    ensures EndMany(s, k).current == if k < |s.tracks| then k else |s.tracks| - 1
    ensures EndMany(s, k).isPlaying == (if k < |s.tracks| then (k > 0 || s.isPlaying) else false)
    decreases k
  {
    if k > 0 {
      NoRepeatPlaysThrough(s, k - 1);
      EndManyKeeps(s, k - 1);
    }
  }

  // ------------------------------------------------------------------ sort

  /** The `sortSelect` values. */
  datatype SortKey = ByTitle | ByArtist | Recent | Popular | Unsorted

  /** `play_count || 0`. */
  function PlayCountOrZero(t: PlayerTrack): int {
    t.playCount.GetOr(0)
  }

  /** `sortTracks`: `popular` by play count (missing as 0), `recent` by creation
      time, title and artist by a collation rank standing in for `localeCompare`,
      newest / most-played / first-collated first; any other value keeps the order. */
  function SortTracks(tracks: seq<PlayerTrack>, key: SortKey, collate: string -> int): (r: seq<PlayerTrack>)
    ensures multiset(r) == multiset(tracks)
    ensures key == Popular ==> forall i, j :: 0 <= i < j < |r| ==> PlayCountOrZero(r[i]) >= PlayCountOrZero(r[j])
    ensures key == Recent ==> forall i, j :: 0 <= i < j < |r| ==> r[i].createdAt >= r[j].createdAt
    ensures key == ByTitle ==> forall i, j :: 0 <= i < j < |r| ==> collate(r[i].title) <= collate(r[j].title)
    ensures key == ByArtist ==> forall i, j :: 0 <= i < j < |r| ==> collate(r[i].artist) <= collate(r[j].artist)
    ensures key == Unsorted ==> r == tracks
  {
    match key
    case Popular =>
      var r := SortDesc(tracks, (t: PlayerTrack) => Rank(PlayCountOrZero(t), 0));
      assert forall i, j :: 0 <= i < j < |r| ==> AtLeast(Rank(PlayCountOrZero(r[i]), 0), Rank(PlayCountOrZero(r[j]), 0));
      r
    case Recent =>
      var r := SortDesc(tracks, (t: PlayerTrack) => Rank(t.createdAt, 0));
      assert forall i, j :: 0 <= i < j < |r| ==> AtLeast(Rank(r[i].createdAt, 0), Rank(r[j].createdAt, 0));
      r
    case ByTitle =>
      var r := SortDesc(tracks, (t: PlayerTrack) => Rank(-collate(t.title), 0));
      assert forall i, j :: 0 <= i < j < |r| ==> AtLeast(Rank(-collate(r[i].title), 0), Rank(-collate(r[j].title), 0));
      r
    case ByArtist =>
      var r := SortDesc(tracks, (t: PlayerTrack) => Rank(-collate(t.artist), 0));
      assert forall i, j :: 0 <= i < j < |r| ==> AtLeast(Rank(-collate(r[i].artist), 0), Rank(-collate(r[j].artist), 0));
      r
    case Unsorted => tracks
  }

  // ------------------------------------------------------- URL decisions

  datatype Section = Videos | Music | Unknown

  /** `suggestCorrectSection`: a video URL goes to Videos even when it also looks
      like audio; audio-only URLs to Music; anything else is unknown. */
  function SuggestCorrectSection(url: string): (r: Section)
    ensures r == Videos <==> MediaTypes.IsVideoFile(url)
    ensures r == Music <==> !MediaTypes.IsVideoFile(url) && MediaTypes.IsAudioFile(url)
    ensures r == Unknown <==> !MediaTypes.IsVideoFile(url) && !MediaTypes.IsAudioFile(url)
  {
    if MediaTypes.IsVideoFile(url) then Videos
    else if MediaTypes.IsAudioFile(url) then Music
    else Unknown
  }

  /** `quickPlayTrack`: refused (None) for an index out of range or a video URL;
      otherwise the cursor moves and the track plays exactly when the URL probe and
      `audio.play()` both succeed (`playOk`); a failure goes to
      `handlePlaybackError`, which clears `isPlaying`. */
  function QuickPlayTrack(s: PlayerState, index: int, playOk: bool): (r: Option<PlayerState>)
    ensures r.Some? <==> 0 <= index < |s.tracks| && !MediaTypes.IsVideoFile(s.tracks[index].url)
    ensures r.Some? ==> r.value.current == index && r.value.isPlaying == playOk
    ensures r.Some? ==> r.value.tracks == s.tracks
  {
    if 0 <= index < |s.tracks| && !MediaTypes.IsVideoFile(s.tracks[index].url) then
      Some(s.(current := index, isPlaying := playOk))
    else None
  }

  /** Quick play is `playTrack` behind the video filter: whatever it lets through
      ends as `playTrack` would with the same play outcome, so the modes are kept. */
  lemma QuickPlayIsPlayTrack(s: PlayerState, index: int, playOk: bool)
    ensures QuickPlayTrack(s, index, playOk).Some? ==>
              QuickPlayTrack(s, index, playOk).value == PlayTrack(s, index, if playOk then Started else Failed)
  {
  }

  datatype VolumeIcon = Mute | VolumeDown | VolumeUp

  /** `updateVolumeIcon` on the slider's 0..100 value. */
  function VolumeIconFor(volume: int): (r: VolumeIcon)
    ensures r == Mute <==> volume == 0
    ensures r == VolumeDown <==> volume != 0 && volume < 50
    ensures r == VolumeUp <==> volume >= 50
  {
    if volume == 0 then Mute else if volume < 50 then VolumeDown else VolumeUp
  }

  /** The icon never goes down as the volume goes up over the slider's range. */
  lemma VolumeIconMonotone(a: int, b: int)
    requires 0 <= a <= b
    ensures VolumeIconFor(a) == VolumeUp ==> VolumeIconFor(b) == VolumeUp
    ensures VolumeIconFor(b) == Mute ==> VolumeIconFor(a) == Mute
  {
  }
}
