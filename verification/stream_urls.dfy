/** The admin console's stream-URL helpers: the Google Drive share-link rewriter
    (`convertGoogleDriveUrl`) and the direct-stream check (`validateStreamUrl`). */
module StreamUrls {
  import opened Wrappers
  import opened Strings
  import MediaTypes

  // ------------------------------------------------------------ Drive ids

  /** `[a-zA-Z0-9-_]`. */
  predicate IsIdChar(c: char) {
    ('a' <= c <= 'z') || ('A' <= c <= 'Z') || ('0' <= c <= '9') || c == '-' || c == '_'
  }

  predicate AllIdChars(s: string) {
    forall i :: 0 <= i < |s| ==> IsIdChar(s[i])
  }

  /** The greedy `[a-zA-Z0-9-_]+` run starting at `i`: id characters only, and the
      character after it (if any) is not one. */
  function IdRun(url: string, i: nat): (r: string)
    requires i <= |url|
    ensures i + |r| <= |url| && r == url[i..i + |r|]
    ensures AllIdChars(r)
    ensures i + |r| == |url| || !IsIdChar(url[i + |r|])
    decreases |url| - i
  {
    if i < |url| && IsIdChar(url[i]) then
      var rest := IdRun(url, i + 1);
      assert url[i..i + 1 + |rest|] == [url[i]] + rest;
      [url[i]] + rest
    else []
  }

  /** The two link shapes the rewriter looks for. */
  datatype Shape = FilePath | IdParam

  const FilePrefix: string := "/file/d/"

  /** Where the id would start for a match at `i`. */
  function IdStart(shape: Shape, i: nat): nat {
    match shape
    case FilePath => i + |FilePrefix|
    case IdParam => i + 4
  }

  /** `/\/file\/d\/([a-zA-Z0-9-_]+)/` or `/[?&]id=([a-zA-Z0-9-_]+)/` matches at `i`:
      the literal part occurs there and at least one id character follows. */
  predicate MatchAt(url: string, shape: Shape, i: nat) {
    && IdStart(shape, i) < |url|
    && IsIdChar(url[IdStart(shape, i)])
    && match shape
       case FilePath => url[i..i + |FilePrefix|] == FilePrefix
       case IdParam => (url[i] == '?' || url[i] == '&') && url[i + 1..i + 4] == "id="
  }

  /** The leftmost match at or after `from`, as `String.prototype.match` finds it. */
  function FirstMatch(url: string, shape: Shape, from: nat): (m: Option<nat>)
    ensures m.Some? ==> from <= m.value && MatchAt(url, shape, m.value)
    ensures m.Some? ==> forall k: nat :: from <= k < m.value ==> !MatchAt(url, shape, k)
    ensures m.None? ==> forall k: nat :: from <= k ==> !MatchAt(url, shape, k)
    decreases |url| - from
  {
    if from >= |url| then None
    else if MatchAt(url, shape, from) then Some(from)
    else FirstMatch(url, shape, from + 1)
  }

  /** The id the rewriter extracts: the `/file/d/` form wins wherever it occurs;
      only without it is the `?id=` / `&id=` form consulted. */
  function ExtractFileId(url: string): (id: Option<string>)
    ensures id.Some? ==> |id.value| >= 1 && AllIdChars(id.value)
    ensures FirstMatch(url, FilePath, 0).Some? ==>
              id == Some(IdRun(url, IdStart(FilePath, FirstMatch(url, FilePath, 0).value)))
    ensures FirstMatch(url, FilePath, 0).None? && FirstMatch(url, IdParam, 0).Some? ==>
              id == Some(IdRun(url, IdStart(IdParam, FirstMatch(url, IdParam, 0).value)))
    ensures id.None? <==> FirstMatch(url, FilePath, 0).None? && FirstMatch(url, IdParam, 0).None?
  {
    match FirstMatch(url, FilePath, 0)
    case Some(i) => Some(IdRun(url, IdStart(FilePath, i)))
    case None =>
      match FirstMatch(url, IdParam, 0)
      case Some(i) => Some(IdRun(url, IdStart(IdParam, i)))
      case None => None
  }

  /** The download endpoint, in two parts: host and path, then the query. */
  const DriveHost: string := "drive.google.com/uc"
  const DriveQuery: string := "?export=download"
  const DriveDownload: string := DriveHost + DriveQuery

  /** `https://drive.google.com/uc?export=download&id=`. */
  const DirectPrefix: string := "https://" + DriveDownload + "&id="

  /** The direct-download link for a file id. */
  function DirectUrl(id: string): string {
    DirectPrefix + id
  }

  /** What the rewriter does with its input. */
  datatype Conversion = NoUrl | InvalidFormat | Converted(directUrl: string)

  /** `convertGoogleDriveUrl`: an empty input is refused, an input with no id is
      reported invalid, anything else becomes the direct-download link. */
  function ConvertGoogleDriveUrl(url: string): (r: Conversion)
    ensures r == NoUrl <==> url == ""
    ensures r.Converted? <==> url != "" && ExtractFileId(url).Some?
    ensures r.Converted? ==> r.directUrl == DirectUrl(ExtractFileId(url).value)
  {
    if url == "" then NoUrl
    else match ExtractFileId(url)
      case Some(id) => Converted(DirectUrl(id))
      case None => InvalidFormat
  }

  /** A share link in the `/file/d/` form is rewritten around its id. */
  lemma ConvertFilePath(host: string, id: string, tail: string)
    requires |id| >= 1 && AllIdChars(id)
    requires '/' !in host
    requires tail == [] || !IsIdChar(tail[0])
    ensures ConvertGoogleDriveUrl(host + FilePrefix + id + tail) == Converted(DirectUrl(id))
  {
    var url := host + FilePrefix + id + tail;
    var i := |host|;
    assert url[i..i + |FilePrefix|] == FilePrefix;
    assert url[IdStart(FilePath, i)] == id[0];
    assert MatchAt(url, FilePath, i);
    forall k: nat | k < i ensures !MatchAt(url, FilePath, k) {
      assert url[k] == host[k];
    }
    var j := FirstMatch(url, FilePath, 0).value;
    assert j == i;
    var run := IdRun(url, IdStart(FilePath, i));
    assert url[i + |FilePrefix|..i + |FilePrefix| + |id|] == id;
    IdRunIs(url, IdStart(FilePath, i), id);
  }

  /** The run starting where `id` sits, `id` being followed by a non-id character or
      the end, is exactly `id`. */
  lemma IdRunIs(url: string, i: nat, id: string)
    requires i + |id| <= |url| && url[i..i + |id|] == id && AllIdChars(id)
    requires i + |id| == |url| || !IsIdChar(url[i + |id|])
    ensures IdRun(url, i) == id
    decreases |id|
  {
    if |id| > 0 {
      assert url[i] == id[0];
      assert url[i + 1..i + 1 + |id[1..]|] == id[1..];
      IdRunIs(url, i + 1, id[1..]);
      assert id == [id[0]] + id[1..];
    }
  }

  lemma SchemeMarks(j: nat)
    requires j < 8
    ensures "https://"[j] == '/' <==> j == 6 || j == 7
    ensures "https://"[j] != '?' && "https://"[j] != '&'
  {
  }

  lemma HostMarks(j: nat)
    requires j < |DriveHost|
    ensures DriveHost[j] == '/' <==> j == 16
    ensures DriveHost[j] != '?' && DriveHost[j] != '&'
  {
  }

  lemma QueryMarks(j: nat)
    requires j < |DriveQuery|
    ensures DriveQuery[j] == '?' <==> j == 0
    ensures DriveQuery[j] != '/' && DriveQuery[j] != '&'
  {
  }

  /** Where a direct link has a slash, a `?` or a `&`: only at fixed places of its
      prefix, never in the id. */
  lemma DirectUrlMarks(id: string, j: nat)
    requires AllIdChars(id)
    ensures j < |DirectUrl(id)| && DirectUrl(id)[j] == '/' ==> j == 6 || j == 7 || j == 24
    ensures j < |DirectUrl(id)| && DirectUrl(id)[j] == '?' ==> j == 27
    ensures j < |DirectUrl(id)| && DirectUrl(id)[j] == '&' ==> j == 43
  {
    var u := DirectUrl(id);
    assert u == "https://" + (DriveHost + (DriveQuery + ("&id=" + id)));
    if j < 8 {
      SchemeMarks(j);
    } else if j < 8 + 19 {
      HostMarks(j - 8);
    } else if j < 8 + 19 + 16 {
      QueryMarks(j - 27);
    } else if j < 47 {
      assert u[j] == "&id="[j - 43];
    } else if j < |u| {
      assert u[j] == id[j - 47];
      assert IsIdChar(id[j - 47]);
    }
  }

  /** The direct link has no `/file/d/` match anywhere. */
  lemma DirectUrlHasNoFilePath(id: string)
    requires AllIdChars(id)
    ensures FirstMatch(DirectUrl(id), FilePath, 0).None?
  {
    forall k: nat ensures !MatchAt(DirectUrl(id), FilePath, k) {
      NoFilePathAt(id, k);
    }
  }

  lemma NoFilePathAt(id: string, k: nat)
    requires AllIdChars(id)
    ensures !MatchAt(DirectUrl(id), FilePath, k)
  {
    var u := DirectUrl(id);
    if k + 8 < |u| {
      DirectUrlMarks(id, k);
      DirectUrlMarks(id, k + 7);
      assert u[k..k + 8][0] == u[k] && u[k..k + 8][7] == u[k + 7];
    }
  }

  /** The first `?id=` / `&id=` match of a direct link is its trailing parameter. */
  lemma DirectUrlIdParam(id: string)
    requires |id| >= 1 && AllIdChars(id)
    ensures FirstMatch(DirectUrl(id), IdParam, 0) == Some(43)
  {
    var u := DirectUrl(id);
    assert u == "https://" + DriveDownload + "&id=" + id;
    assert u[43] == '&' && u[44..47] == "id=" && u[47] == id[0];
    assert MatchAt(u, IdParam, 43);
    assert u[28] == DriveQuery[1] == 'e';
    forall k: nat | k < 43 ensures !MatchAt(u, IdParam, k) {
      DirectUrlMarks(id, k);
      assert k + 4 < |u| ==> u[k + 1..k + 4][0] == u[k + 1];
    }
  }

  /** Converting a converted link changes nothing: its only id source is the
      trailing `&id=` parameter. */
  lemma ConvertIdempotent(id: string)
    requires |id| >= 1 && AllIdChars(id)
    ensures ConvertGoogleDriveUrl(DirectUrl(id)) == Converted(DirectUrl(id))
  {
    var u := DirectUrl(id);
    DirectUrlHasNoFilePath(id);
    DirectUrlIdParam(id);
    assert u[47..47 + |id|] == id;
    IdRunIs(u, 47, id);
  }

  /** The `/file/d/` form wins even when an `id=` parameter comes first. */
  lemma FilePathTakesPrecedence()
    ensures ConvertGoogleDriveUrl("?id=AAA/file/d/BBB") == Converted(DirectUrl("BBB"))
  {
    var url := "?id=AAA/file/d/BBB";
    assert url == "?id=AAA" + FilePrefix + "BBB" + "";
    ConvertFilePath("?id=AAA", "BBB", "");
  }

  // --------------------------------------------------------- stream check

  /** The extensions `validateStreamUrl` accepts; unlike `isAudioFile` it has `.ogg`. */
  const StreamAudioExtensions: seq<string> := [".mp3", ".wav", ".ogg", ".m4a", ".aac", ".flac", ".wma"]

  /** The six hosting patterns, matched against the URL as typed (case-sensitive). */
  const StreamingPatterns: seq<string> :=
    [DriveDownload, ".s3.amazonaws.com", ".s3.", "cloudfront.net", "cdn.", "jsdelivr.net"]

  /** `validateStreamUrl`: an audio extension in the lower-cased URL, or a hosting
      pattern in the URL itself. */
  function ValidateStreamUrl(url: string): (b: bool)
    ensures b <==> (exists k, i :: 0 <= k < |StreamAudioExtensions| && OccursAt(ToLower(url), StreamAudioExtensions[k], i))
                   || (exists k, i :: 0 <= k < |StreamingPatterns| && OccursAt(url, StreamingPatterns[k], i))
  {
    ContainsAnyIff(ToLower(url), StreamAudioExtensions);
    MediaTypes.ContainsAnyOccurs(ToLower(url), StreamAudioExtensions);
    ContainsAnyIff(url, StreamingPatterns);
    MediaTypes.ContainsAnyOccurs(url, StreamingPatterns);
    ContainsAny(ToLower(url), StreamAudioExtensions) || ContainsAny(url, StreamingPatterns)
  }

  /** Every URL the player counts as audio passes the stream check. */
  lemma AudioFilesValidate(url: string)
    ensures MediaTypes.IsAudioFile(url) ==> ValidateStreamUrl(url)
  {
    if MediaTypes.IsAudioFile(url) {
      var k, i :| 0 <= k < |MediaTypes.AudioExtensions| && OccursAt(ToLower(url), MediaTypes.AudioExtensions[k], i);
      var k' := [0, 1, 4, 5, 3, 6][k];
      assert StreamAudioExtensions[k'] == MediaTypes.AudioExtensions[k];
      assert OccursAt(ToLower(url), StreamAudioExtensions[k'], i);
    }
  }

  /** `.ogg` passes the stream check though the audio classifier rejects it. */
  lemma OggValidatesButIsNotAudio()
    ensures ValidateStreamUrl("a.ogg") && !MediaTypes.IsAudioFile("a.ogg")
  {
    assert ToLower("a.ogg") == "a.ogg";
    assert OccursAt("a.ogg", StreamAudioExtensions[2], 1);
    forall k, i | 0 <= k < |MediaTypes.AudioExtensions| ensures !OccursAt("a.ogg", MediaTypes.AudioExtensions[k], i) {
      var e := MediaTypes.AudioExtensions[k];
      if 0 <= i && i + |e| <= 5 {
        assert e[0] == '.' && |e| >= 4 && e[|e| - 1] != 'g';
        assert "a.ogg"[i..i + |e|][0] == "a.ogg"[i];
        assert "a.ogg"[i..i + |e|][|e| - 1] == "a.ogg"[i + |e| - 1];
      }
    }
  }

  /** Every converted Drive link passes the stream check. */
  lemma DirectUrlValidates(id: string)
    ensures ValidateStreamUrl(DirectUrl(id))
  {
    assert DirectUrl(id) == "https://" + DriveDownload + ("&id=" + id);
    OccursInMiddle("https://", DriveDownload, "&id=" + id);
    assert OccursAt(DirectUrl(id), StreamingPatterns[0], 8);
  }
}
