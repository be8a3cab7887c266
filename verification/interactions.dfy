/** `POST /api/track-interaction`: upsert the (user, track, type) counter of
    `user_interactions` and, for a play, append a `listening_history` row. */
module Interactions {
  import opened Wrappers
  import opened Catalog
  import Discovery

  /** `play_duration || 0`: a missing duration and the falsy 0 both count as 0. */
  function DurationOrZero(playDuration: Option<int>): (d: int)
    ensures playDuration.Some? ==> d == playDuration.value
    ensures playDuration.None? ==> d == 0
  {
    match playDuration
    case None => 0
    case Some(v) => v
  }

  /** A play counts as completed when it lasted more than 30 seconds. */
  const CompletedAfter := 30

  /** `INSERT … VALUES (…, 1, d) ON CONFLICT DO UPDATE SET count = count + 1,
      total = total + d`. */
  function Upsert(counters: map<InteractionKey, Counter>, key: InteractionKey, d: int)
    : (r: map<InteractionKey, Counter>)
    ensures key in r
    ensures key !in counters ==> r[key] == Counter(1, d)
    ensures key in counters ==> r[key] == Counter(counters[key].count + 1, counters[key].totalPlayTime + d)
    ensures forall k :: k != key ==> (k in r <==> k in counters)
    ensures forall k :: k != key && k in counters ==> r[k] == counters[k]
  {
    if key in counters then
      counters[key := Counter(counters[key].count + 1, counters[key].totalPlayTime + d)]
    else
      counters[key := Counter(1, d)]
  }

  /** One interaction: the counter is upserted, a play is logged, and tracks, genres
      and favorites are untouched. */
  function Record(s: Store, user: UserId, trackId: int, kind: string, playDuration: Option<int>): (r: Store)
    ensures r.tracks == s.tracks && r.trackGenres == s.trackGenres && r.favorites == s.favorites
    ensures r.interactions == Upsert(s.interactions, InteractionKey(user, trackId, kind), DurationOrZero(playDuration))
    ensures kind == "play" ==>
              r.history == s.history + [HistoryEntry(user, trackId, DurationOrZero(playDuration),
                                                     DurationOrZero(playDuration) > CompletedAfter)]
    ensures kind != "play" ==> r.history == s.history
  {
    var d := DurationOrZero(playDuration);
    var counters := Upsert(s.interactions, InteractionKey(user, trackId, kind), d);
    var history := if kind == "play" then s.history + [HistoryEntry(user, trackId, d, d > CompletedAfter)]
                   else s.history;
    s.(interactions := counters, history := history)
  }

  /** Repeated interactions of one kind on one track, oldest first. */
  function RecordAll(s: Store, user: UserId, trackId: int, kind: string, durations: seq<Option<int>>): Store
    decreases |durations|
  {
    if |durations| == 0 then s
    else Record(RecordAll(s, user, trackId, kind, durations[..|durations| - 1]),
                user, trackId, kind, durations[|durations| - 1])
  }

  /** The durations added up, a missing one as 0. */
  function TotalDuration(durations: seq<Option<int>>): int
    decreases |durations|
  {
    if |durations| == 0 then 0
    else TotalDuration(durations[..|durations| - 1]) + DurationOrZero(durations[|durations| - 1])
  }

  /** After n interactions the counter has grown by n and its total by the summed
      durations; from no row it reads exactly (n, sum). */
  lemma {:induction false} RecordAllAccumulates(s: Store, user: UserId, trackId: int, kind: string,
                                                durations: seq<Option<int>>)
    requires |durations| > 0
    ensures var key := InteractionKey(user, trackId, kind);
            var r := RecordAll(s, user, trackId, kind, durations).interactions;
            && key in r
            && (key !in s.interactions ==> r[key] == Counter(|durations|, TotalDuration(durations)))
            && (key in s.interactions ==>
                  r[key] == Counter(s.interactions[key].count + |durations|,
                                    s.interactions[key].totalPlayTime + TotalDuration(durations)))
    decreases |durations|
  {
    if |durations| > 1 {
      RecordAllAccumulates(s, user, trackId, kind, durations[..|durations| - 1]);
    }
  }

  /** Other counters never move, however many interactions are recorded. */
  lemma {:induction false} RecordAllKeepsOthers(s: Store, user: UserId, trackId: int, kind: string,
                                                durations: seq<Option<int>>, other: InteractionKey)
    requires other != InteractionKey(user, trackId, kind)
    ensures var r := RecordAll(s, user, trackId, kind, durations).interactions;
            (other in r <==> other in s.interactions)
            && (other in s.interactions ==> r[other] == s.interactions[other])
    decreases |durations|
  {
    if |durations| > 0 {
      RecordAllKeepsOthers(s, user, trackId, kind, durations[..|durations| - 1], other);
    }
  }

  /** Counting history rows of a longer log: the new row adds one for its track. */
  lemma CountHistoryAppend(history: seq<HistoryEntry>, e: HistoryEntry, trackId: int)
    ensures CountHistory(history + [e], trackId) == CountHistory(history, trackId) + (if e.trackId == trackId then 1 else 0)
  {
    assert (history + [e])[..|history|] == history;
  }

  /** A play raises the track's play count, as the `mixed` discovery variant reads
      it, by one for every user; any other interaction leaves it as it was. */
  lemma PlayRaisesPlayCount(s: Store, user: UserId, kind: string, playDuration: Option<int>,
                            viewer: UserId, t: Track)
    ensures var r := Record(s, user, t.id, kind, playDuration);
            Discovery.MixedRow(r, viewer, t).playCount
              == Discovery.MixedRow(s, viewer, t).playCount + (if kind == "play" then 1 else 0)
  {
    if kind == "play" {
      var d := DurationOrZero(playDuration);
      CountHistoryAppend(s.history, HistoryEntry(user, t.id, d, d > CompletedAfter), t.id);
    }
  }
}
