/** The admin console's decisions that are not bulk import or stream links: the
    video category it suggests for a URL, the library totals it shows, and the
    order in which adding a track refuses a URL. `validUrl` stands for
    `isValidUrl` (the WHATWG `URL` constructor). */
module AdminConsole {
  import opened Wrappers
  import opened Strings
  import opened MediaTypes
  import opened Formatting
  import Player

  // ------------------------------------------------------ category suggestion

  /** `autoDetectVideoCategory`: an empty URL leaves the selection alone; an `.mp4`
      URL becomes `Podcast` when it mentions podcast, audio or talk and `Music Video`
      otherwise; then tutorial/howto, interview and performance/live are tried in
      that order; no match leaves the selection alone. */
  function AutoDetectVideoCategory(url: string, current: string): (r: string)
    ensures url == "" ==> r == current
    ensures r == current || r in SuggestedCategories
    ensures url != "" && Contains(ToLower(url), ".mp4") ==> r == "Podcast" || r == "Music Video"
  {
    if url == "" then current
    else
      var u := ToLower(url);
      if Contains(u, ".mp4") then
        if Contains(u, "podcast") || Contains(u, "audio") || Contains(u, "talk") then "Podcast"
        else "Music Video"
      else if Contains(u, "tutorial") || Contains(u, "howto") then "Tutorial"
      else if Contains(u, "interview") then "Interview"
      else if Contains(u, "performance") || Contains(u, "live") then "Performance"
      else current
  }

  const SuggestedCategories: set<string> := {"Podcast", "Music Video", "Tutorial", "Interview", "Performance"}

  /** One line of a first-match rule table: the URL must contain `need` and one of
      `anyOf` (the empty string is in every URL). */
  datatype Rule = Rule(need: string, anyOf: seq<string>, category: string)

  /** The suggestion as a table, read top to bottom. */
  const CategoryRules: seq<Rule> := [
    Rule(".mp4", ["podcast", "audio", "talk"], "Podcast"),
    Rule(".mp4", [""], "Music Video"),
    Rule("", ["tutorial", "howto"], "Tutorial"),
    Rule("", ["interview"], "Interview"),
    Rule("", ["performance", "live"], "Performance")]

  /** The category of the first rule the lower-cased URL meets, else `current`. */
  function FirstRule(u: string, rules: seq<Rule>, current: string): (r: string)
    ensures r == current || exists k :: 0 <= k < |rules| && r == rules[k].category
    decreases |rules|
  {
    if |rules| == 0 then current
    else if Contains(u, rules[0].need) && ContainsAny(u, rules[0].anyOf) then rules[0].category
    else
      var r := FirstRule(u, rules[1..], current);
      assert r != current ==> exists k :: 1 <= k < |rules| && r == rules[k].category by {
        if r != current {
          var k :| 0 <= k < |rules[1..]| && r == rules[1..][k].category;
          assert r == rules[k + 1].category;
        }
      }
      r
  }

  /** Every string contains the empty string. */
  lemma ContainsEmpty(s: string)
    ensures Contains(s, "")
  {
    assert OccursAt(s, "", 0);
    ContainsAt(s, "", 0);
  }

  /** The chain of tests is the first-match reading of the rule table. */
  lemma DetectIsFirstRule(url: string, current: string)
    requires url != ""
    ensures AutoDetectVideoCategory(url, current) == FirstRule(ToLower(url), CategoryRules, current)
  {
    var u := ToLower(url);
    ContainsEmpty(u);
    var rs := CategoryRules;
    assert ContainsAny(u, rs[0].anyOf) <==> Contains(u, "podcast") || Contains(u, "audio") || Contains(u, "talk") by {
      assert rs[0].anyOf[1..] == ["audio", "talk"];
      assert rs[0].anyOf[1..][1..] == ["talk"];
    }
    assert ContainsAny(u, rs[1].anyOf);
    assert ContainsAny(u, rs[2].anyOf) <==> Contains(u, "tutorial") || Contains(u, "howto") by {
      assert rs[2].anyOf[1..] == ["howto"];
    }
    assert ContainsAny(u, rs[3].anyOf) <==> Contains(u, "interview");
    assert ContainsAny(u, rs[4].anyOf) <==> Contains(u, "performance") || Contains(u, "live") by {
      assert rs[4].anyOf[1..] == ["live"];
    }
    assert rs[1..][1..][1..][1..][1..] == [];
  }

  /** The suggestion does not depend on the URL's ASCII case. */
  lemma DetectIgnoresCase(url: string, current: string)
    ensures AutoDetectVideoCategory(ToLower(url), current) == AutoDetectVideoCategory(url, current)
  {
    ToLowerIdempotent(url);
  }

  // ----------------------------------------------------------------- totals

  /** The sum of the lengths, a missing length counting as zero. */
  function TotalSeconds(durations: seq<Option<nat>>): nat
    decreases |durations|
  {
    if |durations| == 0 then 0
    else TotalSeconds(durations[..|durations| - 1]) + durations[|durations| - 1].GetOr(0)
  }

  /** Totals add up over a concatenation. */
  lemma {:induction false} TotalSecondsAppend(a: seq<Option<nat>>, b: seq<Option<nat>>)
    ensures TotalSeconds(a + b) == TotalSeconds(a) + TotalSeconds(b)
    decreases |b|
  {
    if |b| > 0 {
      var n := |b| - 1;
      assert (a + b)[..|a + b| - 1] == a + b[..n];
      TotalSecondsAppend(a, b[..n]);
    } else {
      assert a + b == a;
    }
  }

  /** Every known length is part of the total. */
  lemma {:induction false} TotalCoversEach(durations: seq<Option<nat>>, i: nat)
    requires i < |durations|
    ensures durations[i].GetOr(0) <= TotalSeconds(durations)
  {
    TotalSecondsAppend(durations[..i + 1], durations[i + 1..]);
    assert durations == durations[..i + 1] + durations[i + 1..];
    assert durations[..i + 1][..i] == durations[..i];
  }

  /** What a stats panel shows: how many items and their total as hours and minutes. */
  datatype Totals = Totals(count: nat, time: HoursMinutes)

  /** The stats half of `updateStats` for one list: the count, and the summed
      lengths split into whole hours and leftover minutes. */
  method ListTotals(durations: seq<Option<nat>>) returns (t: Totals)
    ensures t.count == |durations|
    ensures t.time.minutes < 60
    ensures t.time.hours * 3600 + t.time.minutes * 60 <= TotalSeconds(durations)
            < t.time.hours * 3600 + t.time.minutes * 60 + 60
  {
    var sum := 0;
    var i := 0;
    while i < |durations|
      invariant i <= |durations|
      invariant sum == TotalSeconds(durations[..i])
    {
      assert durations[..i + 1][..i] == durations[..i];
      sum := sum + durations[i].GetOr(0);
      i := i + 1;
    }
    assert durations[..i] == durations;
    t := Totals(|durations|, SplitHours(sum));
  }

  /** `updateStats`: the music totals always, the video totals when the page has a
      video panel. */
  method UpdateStats(tracks: seq<Option<nat>>, videos: seq<Option<nat>>, hasVideoPanel: bool)
    returns (music: Totals, video: Option<Totals>)
    ensures music.count == |tracks| && music.time == SplitHours(TotalSeconds(tracks))
    ensures video.Some? <==> hasVideoPanel
    ensures video.Some? ==> video.value.count == |videos| && video.value.time == SplitHours(TotalSeconds(videos))
  {
    music := ListTotals(tracks);
    SplitHoursUnique(TotalSeconds(tracks), music.time.hours, music.time.minutes);
    if hasVideoPanel {
      var v := ListTotals(videos);
      SplitHoursUnique(TotalSeconds(videos), v.time.hours, v.time.minutes);
      video := Some(v);
    } else {
      video := None;
    }
  }

  // ------------------------------------------------------------- add a track

  /** What `addTrack` does with a URL before any request: refuse it as invalid,
      refuse it as a video, or go on, with or without the "may not be audio" warning. */
  datatype AddCheck = RejectInvalid | RejectVideo | ProceedWithWarning | Proceed

  /** The URL checks of `addTrack`, in the order they run. */
  function CheckTrackUrl(url: string, validUrl: string -> bool): (d: AddCheck)
    ensures d == RejectInvalid <==> !validUrl(url)
    ensures d == RejectVideo <==> validUrl(url) && IsVideoFile(url)
    ensures d == ProceedWithWarning <==> validUrl(url) && !IsVideoFile(url) && !IsAudioFile(url)
    ensures d == Proceed <==> validUrl(url) && !IsVideoFile(url) && IsAudioFile(url)
  {
    if !validUrl(url) then RejectInvalid
    else if IsVideoFile(url) then RejectVideo
    else if !IsAudioFile(url) then ProceedWithWarning
    else Proceed
  }

  /** A request is sent exactly for a valid URL that is not a video URL. */
  lemma SendsIff(url: string, validUrl: string -> bool)
    ensures (CheckTrackUrl(url, validUrl) in {Proceed, ProceedWithWarning}) <==> validUrl(url) && !IsVideoFile(url)
  {
  }

  /** A valid URL naming both a video and an audio extension is refused as a video. */
  lemma VideoCheckComesFirst(validUrl: string -> bool)
    requires validUrl("clip.mp4.mp3")
    ensures CheckTrackUrl("clip.mp4.mp3", validUrl) == RejectVideo
  {
    VideoAndAudioOverlap();
  }

  /** The console and the player sort URLs alike: among valid URLs, the console
      refuses exactly the ones the player would send to Videos, adds without warning
      exactly the ones it would send to Music, and warns about exactly the rest. */
  lemma CheckAgreesWithSuggestion(url: string, validUrl: string -> bool)
    ensures validUrl(url) ==>
              (CheckTrackUrl(url, validUrl) == RejectVideo <==> Player.SuggestCorrectSection(url) == Player.Videos)
              && (CheckTrackUrl(url, validUrl) == Proceed <==> Player.SuggestCorrectSection(url) == Player.Music)
              && (CheckTrackUrl(url, validUrl) == ProceedWithWarning <==> Player.SuggestCorrectSection(url) == Player.Unknown)
  {
  }
}
