/** The admin console's bulk-import preview: pipe-separated lines
    `title | artist | album | url [| cover]` become tracks or numbered errors.
    `validUrl` stands for `isValidUrl` (the WHATWG `URL` constructor). */
module BulkImport {
  import opened Wrappers
  import opened Strings

  /** A parsed track; an empty album or cover becomes null. */
  datatype ImportTrack = ImportTrack(
    title: string,
    artist: string,
    album: Option<string>,
    url: string,
    coverImage: Option<string>)

  /** Why a line was rejected, in the order the checks run. */
  datatype Reason = MissingFields | RequiredEmpty | InvalidUrl

  /** A rejection, citing the line's 1-based index among the non-blank lines. */
  datatype ImportError = ImportError(line: nat, reason: Reason)

  datatype LineOutcome = Accepted(track: ImportTrack) | Rejected(reason: Reason)

  datatype Preview = NothingEntered | Parsed(tracks: seq<ImportTrack>, errors: seq<ImportError>)

  function ReasonText(r: Reason): string {
    match r
    case MissingFields => "Missing required fields (need at least Title, Artist, Album, URL)"
    case RequiredEmpty => "Title, Artist, and URL are required"
    case InvalidUrl => "Invalid URL format"
  }

  /** The message shown for an error: `Line <n>: <reason>`. */
  function ErrorText(e: ImportError): string {
    "Line " + NatToString(e.line) + ": " + ReasonText(e.reason)
  }

  /** `value || null` for a trimmed field. */
  function NullIfEmpty(s: string): (r: Option<string>)
    ensures r.None? <==> s == ""
    ensures r.Some? ==> r.value == s
  {
    if s == "" then None else Some(s)
  }

  /** Every piece trimmed: `parts.map(part => part.trim())`. */
  function TrimAll(parts: seq<string>): (r: seq<string>)
    ensures |r| == |parts|
    ensures forall i :: 0 <= i < |parts| ==> r[i] == Trim(parts[i])
  {
    seq(|parts|, i requires 0 <= i < |parts| => Trim(parts[i]))
  }

  /** The fields of a line. */
  function Fields(line: string): (fs: seq<string>)
    ensures |fs| == CountChar(line, '|') + 1
  {
    SplitCount(line, '|');
    TrimAll(Split(line, '|'))
  }

  /** The checks on a line's trimmed fields: fewer than four fields, then an empty
      title, artist or url, then an invalid url reject it; otherwise the fields make
      the track, fields after the fifth being ignored. */
  function ParseFields(fs: seq<string>, validUrl: string -> bool): (r: LineOutcome)
    ensures r == Rejected(MissingFields) <==> |fs| < 4
    ensures r == Rejected(RequiredEmpty) <==> |fs| >= 4 && (fs[0] == "" || fs[1] == "" || fs[3] == "")
    ensures r == Rejected(InvalidUrl) <==>
              |fs| >= 4 && fs[0] != "" && fs[1] != "" && fs[3] != "" && !validUrl(fs[3])
    ensures r.Accepted? ==>
              && r.track.title == fs[0] && r.track.artist == fs[1] && r.track.url == fs[3]
              && r.track.album == NullIfEmpty(fs[2])
              && r.track.coverImage == (if |fs| >= 5 then NullIfEmpty(fs[4]) else None)
              && r.track.title != "" && r.track.artist != "" && r.track.url != "" && validUrl(r.track.url)
  {
    if |fs| < 4 then Rejected(MissingFields)
    else if fs[0] == "" || fs[1] == "" || fs[3] == "" then Rejected(RequiredEmpty)
    else if !validUrl(fs[3]) then Rejected(InvalidUrl)
    else Accepted(ImportTrack(fs[0], fs[1], NullIfEmpty(fs[2]), fs[3],
                              if |fs| >= 5 then NullIfEmpty(fs[4]) else None))
  }

  /** One line of the preview. */
  function ParseLine(line: string, validUrl: string -> bool): LineOutcome {
    ParseFields(Fields(line), validUrl)
  }

  /** `lines.filter(line => line.trim())`: the non-blank lines, in order. */
  function NonBlank(lines: seq<string>): (r: seq<string>)
    ensures forall l :: l in r <==> l in lines && Trim(l) != ""
    ensures |r| <= |lines|
    decreases |lines|
  {
    if |lines| == 0 then []
    else
      var rest := NonBlank(lines[1..]);
      assert forall l :: l in lines <==> l == lines[0] || l in lines[1..];
      (if Trim(lines[0]) != "" then [lines[0]] else []) + rest
  }

  /** The filter keeps a single line exactly when it is not blank. */
  lemma NonBlankOne(l: string)
    ensures NonBlank([l]) == if Trim(l) != "" then [l] else []
  {
    assert [l][1..] == [];
  }

  /** Filtering `a + b` and filtering `a` both begin with the verdict on `a[0]`. */
  lemma NonBlankStep(a: seq<string>, b: seq<string>)
    requires |a| > 0
    ensures NonBlank(a + b) == (if Trim(a[0]) != "" then [a[0]] else []) + NonBlank(a[1..] + b)
    ensures NonBlank(a) == (if Trim(a[0]) != "" then [a[0]] else []) + NonBlank(a[1..])
  {
    assert (a + b)[0] == a[0];
    assert (a + b)[1..] == a[1..] + b;
  }

  /** The filter keeps order and repeats: filtering a concatenation concatenates
      the filtered parts. */
  lemma {:induction false} NonBlankAppend(a: seq<string>, b: seq<string>)
    ensures NonBlank(a + b) == NonBlank(a) + NonBlank(b)
    decreases |a|
  {
    if |a| == 0 {
      assert a + b == b;
    } else {
      NonBlankStep(a, b);
      NonBlankAppend(a[1..], b);
      SeqAssoc(if Trim(a[0]) != "" then [a[0]] else [], NonBlank(a[1..]), NonBlank(b));
    }
  }

  /** Gathers the line outcomes in order; each error carries its line's 1-based number. */
  function Collect(outs: seq<LineOutcome>): (p: Preview)
    ensures p.Parsed?
    ensures |p.tracks| + |p.errors| == |outs|
    ensures forall e :: e in p.errors ==> 1 <= e.line <= |outs| && outs[e.line - 1] == Rejected(e.reason)
    ensures forall k :: 0 <= k < |outs| && outs[k].Rejected? ==> ImportError(k + 1, outs[k].reason) in p.errors
    ensures forall t :: t in p.tracks ==> Accepted(t) in outs
    ensures forall k :: 0 <= k < |outs| && outs[k].Accepted? ==> outs[k].track in p.tracks
    decreases |outs|
  {
    if |outs| == 0 then Parsed([], [])
    else
      var n := |outs| - 1;
      var rest := Collect(outs[..n]);
      CollectStep(outs, rest);
      match outs[n]
      case Accepted(t) => Parsed(rest.tracks + [t], rest.errors)
      case Rejected(why) => Parsed(rest.tracks, rest.errors + [ImportError(n + 1, why)])
  }

  /** The accepted lines' tracks, read from the first line on. */
  function AcceptedTracks(outs: seq<LineOutcome>): seq<ImportTrack>
    decreases |outs|
  {
    if |outs| == 0 then []
    else (if outs[0].Accepted? then [outs[0].track] else []) + AcceptedTracks(outs[1..])
  }

  lemma {:induction false} AcceptedTracksSnoc(outs: seq<LineOutcome>, o: LineOutcome)
    ensures AcceptedTracks(outs + [o]) == AcceptedTracks(outs) + (if o.Accepted? then [o.track] else [])
    decreases |outs|
  {
    if |outs| > 0 {
      assert (outs + [o])[1..] == outs[1..] + [o];
      AcceptedTracksSnoc(outs[1..], o);
    } else {
      assert [o][1..] == [];
    }
  }

  /** The preview lists the accepted tracks in line order. */
  lemma {:induction false} CollectKeepsOrder(outs: seq<LineOutcome>)
    ensures Collect(outs).tracks == AcceptedTracks(outs)
    decreases |outs|
  {
    if |outs| > 0 {
      var n := |outs| - 1;
      CollectKeepsOrder(outs[..n]);
      assert outs == outs[..n] + [outs[n]];
      AcceptedTracksSnoc(outs[..n], outs[n]);
    }
  }

  /** One more outcome at the end: what held of the earlier ones still holds. */
  lemma CollectStep(outs: seq<LineOutcome>, rest: Preview)
    requires |outs| > 0 && rest.Parsed?
    requires var n := |outs| - 1;
             && (forall e :: e in rest.errors ==> 1 <= e.line <= n && outs[..n][e.line - 1] == Rejected(e.reason))
             && (forall k :: 0 <= k < n && outs[..n][k].Rejected? ==> ImportError(k + 1, outs[..n][k].reason) in rest.errors)
             && (forall t :: t in rest.tracks ==> Accepted(t) in outs[..n])
             && (forall k :: 0 <= k < n && outs[..n][k].Accepted? ==> outs[..n][k].track in rest.tracks)
    ensures var n := |outs| - 1;
             && (forall e :: e in rest.errors ==> 1 <= e.line <= n && outs[e.line - 1] == Rejected(e.reason))
             && (forall k :: 0 <= k < n && outs[k].Rejected? ==> ImportError(k + 1, outs[k].reason) in rest.errors)
             && (forall t :: t in rest.tracks ==> Accepted(t) in outs)
             && (forall k :: 0 <= k < n && outs[k].Accepted? ==> outs[k].track in rest.tracks)
  {
    var n := |outs| - 1;
    assert forall k :: 0 <= k < n ==> outs[..n][k] == outs[k];
    assert forall o :: o in outs[..n] ==> o in outs;
  }

  /** The outcome of every line, in order. */
  function Outcomes(lines: seq<string>, validUrl: string -> bool): (outs: seq<LineOutcome>)
    ensures |outs| == |lines|
    ensures forall k :: 0 <= k < |lines| ==> outs[k] == ParseLine(lines[k], validUrl)
  {
    seq(|lines|, k requires 0 <= k < |lines| => ParseLine(lines[k], validUrl))
  }

  /** The lines the preview looks at. */
  function PreviewLines(text: string): seq<string> {
    NonBlank(Split(Trim(text), '\n'))
  }

  /** `previewBulkImport`: blank input is refused; otherwise every non-blank line of
      the trimmed text gives exactly one track or one error, numbered from 1. */
  function PreviewBulkImport(text: string, validUrl: string -> bool): (p: Preview)
    ensures p.NothingEntered? <==> AllSpace(text)
    ensures p.Parsed? ==> |p.tracks| + |p.errors| == |PreviewLines(text)|
    ensures p.Parsed? ==> forall l :: l in PreviewLines(text) ==> Trim(l) != ""
    ensures p.Parsed? ==> forall e :: e in p.errors ==>
              1 <= e.line <= |PreviewLines(text)| && ParseLine(PreviewLines(text)[e.line - 1], validUrl) == Rejected(e.reason)
    ensures p.Parsed? ==> forall t :: t in p.tracks ==> Accepted(t) in Outcomes(PreviewLines(text), validUrl)
    ensures p.Parsed? ==> forall k :: 0 <= k < |PreviewLines(text)| ==>
              var o := ParseLine(PreviewLines(text)[k], validUrl);
              (o.Rejected? ==> ImportError(k + 1, o.reason) in p.errors)
              && (o.Accepted? ==> o.track in p.tracks)
    ensures p.Parsed? ==> LinesIncrease(p.errors)
  {
    var data := Trim(text);
    if data == "" then NothingEntered
    else
      var outs := Outcomes(PreviewLines(text), validUrl);
      ErrorLinesIncrease(outs);
      Collect(outs)
  }

  /** The preview lists the accepted lines' tracks in line order, which is the order
      `executeBulkImport` then inserts them in. */
  lemma PreviewKeepsOrder(text: string, validUrl: string -> bool)
    ensures PreviewBulkImport(text, validUrl).Parsed? ==>
              PreviewBulkImport(text, validUrl).tracks == AcceptedTracks(Outcomes(PreviewLines(text), validUrl))
  {
    CollectKeepsOrder(Outcomes(PreviewLines(text), validUrl));
  }

  /** Errors listed in strictly increasing line order. */
  predicate LinesIncrease(es: seq<ImportError>) {
    forall i, j :: 0 <= i < j < |es| ==> es[i].line < es[j].line
  }

  /** The error line numbers strictly increase. */
  lemma {:induction false} ErrorLinesIncrease(outs: seq<LineOutcome>)
    ensures LinesIncrease(Collect(outs).errors)
    decreases |outs|
  {
    if |outs| > 0 {
      var n := |outs| - 1;
      ErrorLinesIncrease(outs[..n]);
      var rest := Collect(outs[..n]);
      match outs[n] {
        case Accepted(t) =>
          assert Collect(outs).errors == rest.errors;
        case Rejected(why) =>
          var es := Collect(outs).errors;
          assert es == rest.errors + [ImportError(n + 1, why)];
          forall i, j | 0 <= i < j < |es| ensures es[i].line < es[j].line {
            assert es[i] == rest.errors[i];
            if j == |rest.errors| {
              assert rest.errors[i] in rest.errors;
            } else {
              assert es[j] == rest.errors[j];
            }
          }
      }
    }
  }

  // ------------------------------------------------------------ round trip

  /** A line for a track: its fields joined by `|`, an absent album or cover empty. */
  function FormatLine(t: ImportTrack): string {
    Join([t.title, t.artist, t.album.GetOr(""), t.url, t.coverImage.GetOr("")], "|")
  }

  /** A field that survives a line: no `|`, nothing to trim. */
  predicate PlainField(s: string) {
    '|' !in s && IsTrimmed(s)
  }

  /** A track the import can produce: required fields non-empty, a valid url, and an
      album or cover, when present, non-empty; every field plain. */
  predicate Importable(t: ImportTrack, validUrl: string -> bool) {
    && PlainField(t.title) && PlainField(t.artist) && PlainField(t.url)
    && PlainField(t.album.GetOr("")) && PlainField(t.coverImage.GetOr(""))
    && t.title != "" && t.artist != "" && t.url != "" && validUrl(t.url)
    && t.album != Some("") && t.coverImage != Some("")
  }

  /** Parsing the line of an importable track gives the track back. */
  lemma ParseFormatLine(t: ImportTrack, validUrl: string -> bool)
    requires Importable(t, validUrl)
    ensures ParseLine(FormatLine(t), validUrl) == Accepted(t)
  {
    FieldsOfFormatLine(t, validUrl);
    ParseFieldsOfTrack(t, validUrl);
  }

  /** The fields of an importable track's line are its own fields. */
  lemma FieldsOfFormatLine(t: ImportTrack, validUrl: string -> bool)
    requires Importable(t, validUrl)
    ensures Fields(FormatLine(t)) == [t.title, t.artist, t.album.GetOr(""), t.url, t.coverImage.GetOr("")]
  {
    var parts := [t.title, t.artist, t.album.GetOr(""), t.url, t.coverImage.GetOr("")];
    assert forall k :: 0 <= k < |parts| ==> PlainField(parts[k]);
    SplitJoin(parts, '|');
    TrimAllPlain(parts);
  }

  /** Trimming fields that need no trimming changes nothing. */
  lemma TrimAllPlain(parts: seq<string>)
    requires forall k :: 0 <= k < |parts| ==> PlainField(parts[k])
    ensures TrimAll(parts) == parts
  {
  }

  /** The five fields of an importable track parse back to it. */
  lemma ParseFieldsOfTrack(t: ImportTrack, validUrl: string -> bool)
    requires Importable(t, validUrl)
    ensures ParseFields([t.title, t.artist, t.album.GetOr(""), t.url, t.coverImage.GetOr("")], validUrl) == Accepted(t)
  {
    assert NullIfEmpty(t.album.GetOr("")) == t.album;
    assert NullIfEmpty(t.coverImage.GetOr("")) == t.coverImage;
  }

  /** Anything after the fifth field changes nothing. */
  lemma ExtraFieldsIgnored(line: string, extra: string, validUrl: string -> bool)
    requires |Fields(line)| >= 5
    ensures ParseLine(line + "|" + extra, validUrl) == ParseLine(line, validUrl)
  {
    var a := Split(line, '|');
    var b := Split(extra, '|');
    SplitAround(line, extra, '|');
    assert Split(line + "|" + extra, '|') == a + b;
    var fs := Fields(line + "|" + extra);
    var gs := Fields(line);
    forall k | 0 <= k < 5 ensures fs[k] == gs[k] {
      assert (a + b)[k] == a[k];
    }
  }
}
