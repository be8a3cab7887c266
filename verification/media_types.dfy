/** The URL classifiers the player and the admin console share (their
    `isVideoFile` and `isAudioFile` are the same code in both clients): a
    case-insensitive substring test against a fixed extension list. */
module MediaTypes {
  import opened Strings

  const VideoExtensions: seq<string> := [".mp4", ".webm", ".avi", ".mov", ".wmv", ".flv", ".mkv"]
  const AudioExtensions: seq<string> := [".mp3", ".wav", ".aac", ".flac", ".m4a", ".wma"]
  const PodcastExtension: string := ".mp3"

  /** Some extension of the list occurs somewhere in the lower-cased URL. */
  ghost predicate MentionsAny(url: string, exts: seq<string>) {
    exists k, i :: 0 <= k < |exts| && OccursAt(ToLower(url), exts[k], i)
  }

  /** `isVideoFile`. */
  function IsVideoFile(url: string): (b: bool)
    ensures b <==> MentionsAny(url, VideoExtensions)
  {
    ContainsAnyIff(ToLower(url), VideoExtensions);
    ContainsAnyOccurs(ToLower(url), VideoExtensions);
    ContainsAny(ToLower(url), VideoExtensions)
  }

  /** `isAudioFile`. */
  function IsAudioFile(url: string): (b: bool)
    ensures b <==> MentionsAny(url, AudioExtensions)
  {
    ContainsAnyIff(ToLower(url), AudioExtensions);
    ContainsAnyOccurs(ToLower(url), AudioExtensions);
    ContainsAny(ToLower(url), AudioExtensions)
  }

  /** `isPodcastFile`: the player's test for `.mp3`. */
  function IsPodcastFile(url: string): (b: bool)
    ensures b <==> exists i :: OccursAt(ToLower(url), PodcastExtension, i)
  {
    ContainsIff(ToLower(url), PodcastExtension);
    Contains(ToLower(url), PodcastExtension)
  }

  /** `ContainsAny` read as an occurrence of one of the strings at some position. */
  lemma ContainsAnyOccurs(s: string, subs: seq<string>)
    ensures (exists k :: 0 <= k < |subs| && Contains(s, subs[k]))
            <==> exists k, i :: 0 <= k < |subs| && OccursAt(s, subs[k], i)
  {
    forall k | 0 <= k < |subs| {
      ContainsIff(s, subs[k]);
    }
  }

  /** Every podcast URL is an audio URL: `.mp3` heads the audio list. */
  lemma PodcastIsAudio(url: string)
    ensures IsPodcastFile(url) ==> IsAudioFile(url)
  {
    if IsPodcastFile(url) {
      var i :| OccursAt(ToLower(url), PodcastExtension, i);
      assert OccursAt(ToLower(url), AudioExtensions[0], i);
    }
  }

  /** The classifiers ignore ASCII case. */
  lemma ClassifiersIgnoreCase(url: string)
    ensures IsVideoFile(ToLower(url)) == IsVideoFile(url)
    ensures IsAudioFile(ToLower(url)) == IsAudioFile(url)
    ensures IsPodcastFile(ToLower(url)) == IsPodcastFile(url)
  {
    ToLowerIdempotent(url);
  }

  /** A URL can be both: `clip.mp4.mp3` is a video and an audio URL. */
  lemma VideoAndAudioOverlap()
    ensures IsVideoFile("clip.mp4.mp3") && IsAudioFile("clip.mp4.mp3")
  {
    var u := ToLower("clip.mp4.mp3");
    assert u == "clip.mp4.mp3";
    assert OccursAt(u, VideoExtensions[0], 4);
    assert OccursAt(u, AudioExtensions[0], 8);
  }
}
