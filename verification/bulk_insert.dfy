/** `POST /api/tracks/bulk`: insert the submitted tracks one after another, count
    successes and failures, and report the first ten failure messages. */
module BulkInsert {
  import opened Wrappers

  /** One submitted track as the request body carries it. */
  datatype TrackInput = TrackInput(
    title: string,
    artist: string,
    album: Option<string>,
    url: string,
    duration: Option<int>,
    coverImage: Option<string>)

  /** The values bound to the insert's placeholders; `duration || 0`. */
  datatype Row = Row(title: string, artist: string, album: Option<string>, url: string, duration: int,
                     coverImage: Option<string>)

  /** 400 for a missing or empty array, otherwise the summary. */
  datatype Reply = BadRequest | Summary(successCount: nat, errorCount: nat, errors: seq<string>)

  /** `errors.slice(0, 10)`. */
  const MaxReportedErrors := 10

  /** The bound values: every field as submitted, a missing duration as 0. */
  function ToRow(t: TrackInput): (r: Row)
    ensures r.duration == (if t.duration.Some? then t.duration.value else 0)
    ensures r.title == t.title && r.artist == t.artist && r.album == t.album
    ensures r.url == t.url && r.coverImage == t.coverImage
  {
    Row(t.title, t.artist, t.album, t.url, t.duration.GetOr(0), t.coverImage)
  }

  /** `${title}: ${err.message}`. */
  function ErrorLine(title: string, message: string): string {
    title + ": " + message
  }

  /** The failure lines of the first tracks, in submission order; `insert(i, row)`
      is the storage layer's answer to the i-th insert, an error message or none. */
  function ErrorLines(tracks: seq<TrackInput>, insert: (nat, Row) -> Option<string>): (es: seq<string>)
    ensures |es| <= |tracks|
    ensures forall k :: 0 <= k < |tracks| && insert(k, ToRow(tracks[k])).Some? ==>
              ErrorLine(tracks[k].title, insert(k, ToRow(tracks[k])).value) in es
    ensures forall e :: e in es ==> exists k :: 0 <= k < |tracks| && Failed(tracks[k], k, insert, e)
    decreases |tracks|
  {
    if |tracks| == 0 then []
    else
      var n := |tracks| - 1;
      var rest := ErrorLines(tracks[..n], insert);
      assert forall k :: 0 <= k < n ==> tracks[..n][k] == tracks[k];
      match insert(n, ToRow(tracks[n]))
      case None => rest
      case Some(msg) => rest + [ErrorLine(tracks[n].title, msg)]
  }

  /** The rows that went in, in submission order. */
  function Inserted(tracks: seq<TrackInput>, insert: (nat, Row) -> Option<string>): (rs: seq<Row>)
    ensures |rs| + |ErrorLines(tracks, insert)| == |tracks|
    ensures forall k :: 0 <= k < |tracks| && insert(k, ToRow(tracks[k])).None? ==> ToRow(tracks[k]) in rs
    ensures forall r :: r in rs ==> exists k :: 0 <= k < |tracks| && Stored(tracks[k], k, insert, r)
    decreases |tracks|
  {
    if |tracks| == 0 then []
    else
      var n := |tracks| - 1;
      var rest := Inserted(tracks[..n], insert);
      assert forall k :: 0 <= k < n ==> tracks[..n][k] == tracks[k];
      if insert(n, ToRow(tracks[n])).None? then rest + [ToRow(tracks[n])] else rest
  }

  /** Track `t`, sent as the k-th insert, went in as row `r`. */
  predicate Stored(t: TrackInput, k: nat, insert: (nat, Row) -> Option<string>, r: Row) {
    r == ToRow(t) && insert(k, r).None?
  }

  /** Track `t`, sent as the k-th insert, failed with the report line `e`. */
  predicate Failed(t: TrackInput, k: nat, insert: (nat, Row) -> Option<string>, e: string) {
    insert(k, ToRow(t)).Some? && e == ErrorLine(t.title, insert(k, ToRow(t)).value)
  }

  function Min(a: int, b: int): int {
    if a <= b then a else b
  }

  /** The handler: every track is tried exactly once, each is either a success or a
      failure, and at most the first ten failure lines are reported. */
  method InsertAll(body: Option<seq<TrackInput>>, insert: (nat, Row) -> Option<string>)
    returns (reply: Reply, stored: seq<Row>)
    ensures reply.BadRequest? <==> body.None? || |body.value| == 0
    ensures reply.BadRequest? ==> stored == []
    ensures reply.Summary? ==>
              && reply.successCount + reply.errorCount == |body.value|
              && reply.successCount == |stored|
              && stored == Inserted(body.value, insert)
              && reply.errorCount == |ErrorLines(body.value, insert)|
              && reply.errors == ErrorLines(body.value, insert)[..Min(MaxReportedErrors, reply.errorCount)]
  {
    if body.None? || |body.value| == 0 {
      return BadRequest, [];
    }
    var tracks := body.value;
    var successCount: nat := 0;
    var errorCount: nat := 0;
    var errors: seq<string> := [];
    stored := [];
    var index := 0;
    while index < |tracks|
      invariant 0 <= index <= |tracks|
      invariant stored == Inserted(tracks[..index], insert)
      invariant errors == ErrorLines(tracks[..index], insert)
      invariant successCount == |stored| && errorCount == |errors|
      decreases |tracks| - index
    {
      var row := ToRow(tracks[index]);
      assert tracks[..index + 1][..index] == tracks[..index];
      match insert(index, row) {
        case Some(msg) =>
          errorCount := errorCount + 1;
          errors := errors + [ErrorLine(tracks[index].title, msg)];
        case None =>
          successCount := successCount + 1;
          stored := stored + [row];
      }
      index := index + 1;
    }
    assert tracks[..index] == tracks;
    reply := Summary(successCount, errorCount, errors[..Min(MaxReportedErrors, errorCount)]);
  }

  /** When every insert succeeds the reply counts every track and reports nothing. */
  lemma AllSucceed(tracks: seq<TrackInput>, insert: (nat, Row) -> Option<string>)
    requires forall i: nat :: i < |tracks| ==> insert(i, ToRow(tracks[i])).None?
    ensures ErrorLines(tracks, insert) == []
    ensures |Inserted(tracks, insert)| == |tracks|
    decreases |tracks|
  {
    if |tracks| > 0 {
      var n := |tracks| - 1;
      assert forall i: nat :: i < n ==> tracks[..n][i] == tracks[i];
      AllSucceed(tracks[..n], insert);
    }
  }
}
