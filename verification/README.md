# SoundWave core, modelled in Dafny

SoundWave is a small Express media server with two browser clients: a music and video player, and an admin console. This project models the parts of those three programs that make decisions, as pure functions over immutable data, and proves what each decision promises.

**Server (`server.js`).** The tables are sequences of rows, kept in table order:
- `tracks`, `track_genres`, `user_favorites` and `listening_history`;
- the `user_interactions` counters, kept as a map.

The SQL of each route is read as the specification of a function over those relations; it is not parsed. The model covers:
- the SQLite/Postgres shim: the `?` → `$1, $2, …` rewrite and `createInsertQuery`;
- the four `/api/discover` variants and their dispatch;
- the favorite toggle;
- the interaction upsert with its history append;
- appending a track to a user playlist;
- the bulk-insert accounting.

**Player (`public/player.js`).** The model covers:
- the URL classifiers;
- the playlist cursor, the repeat-mode cycle and the end-of-track state machine;
- the three time formatters and the sort rules;
- `suggestCorrectSection`, the refusal of video URLs in quick play, and the volume icon.

**Admin console (`public/admin.js`).** The model covers:
- the pipe-separated bulk-import preview;
- the Google Drive link rewriter and the stream-URL check;
- the video category suggestion and the library totals;
- the order of the URL checks when a track is added.

Modules, one per concern:
- `Wrappers`: `Option`.
- `Strings`: digits, substring search, ASCII lower case, ECMAScript `trim`, split and join.
- `Ranking`: a stable descending sort and `ORDER BY … LIMIT`.
- `SqlShim`
- `Catalog`: the relations and their counting queries.
- `Discovery`
- `Favorites`
- `Interactions`
- `UserPlaylists`
- `BulkInsert`
- `MediaTypes`
- `Formatting`
- `Player`
- `BulkImport`
- `StreamUrls`
- `AdminConsole`

What the code cannot decide on its own is passed in as a parameter:
- the outcome of `audio.play()`: resolved, rejected, or no promise on an old browser (`play`, and `playOk` for quick play);
- a shuffle draw (`draw`);
- the `ORDER BY RANDOM()` and recommendation-score orders (`shuffle`, `score`);
- the storage layer's answer to an insert (`insert`);
- the WHATWG `URL` constructor behind `isValidUrl` (`validUrl`);
- the `localeCompare` collation (`collate`);
- whether the admin page has a video panel (`hasVideoPanel`).

## Model

| member | source | states |
|---|---|---|
| SqlShim.ToPostgres | server.js:76-78 | the Postgres rewrite leaves no `?` behind, and a query without `?` is passed through unchanged |
| SqlShim.ToPostgresNumbersGaps | server.js:92-94 | the rewritten query is the text between the `?`s, in order, with `$1`, `$2`, … put back in their places: the k-th `?` from the left becomes `$k` and no other character changes |
| SqlShim.RewriteAppend | server.js:77-78 | the counter runs over the whole query: rewriting `a + b` numbers the marks of `b` after those of `a` |
| SqlShim.RewriteKeepsMarkFree | server.js:76-78 | a text with no `?` is left exactly as it is, whatever the counter's start |
| SqlShim.Prepare | server.js:60-106 | the query each wrapper sends: SQLite sends it as written; Postgres `get` and `all` send the rewrite, with no `?` left; Postgres `run` sends it as written |
| SqlShim.RunKeepsQuestionMark | server.js:60-62 | the track route's `DELETE FROM tracks WHERE id = ?` reaches Postgres through `run` with its `?` intact |
| SqlShim.PrepareCorrected | server.js:75-106 | with the rewrite applied in all three wrappers, nothing sent to Postgres contains `?`, and SQLite still gets the query unchanged |
| SqlShim.CreateInsertQuery | server.js:30-35 | the query ends in ` RETURNING id` exactly in Postgres mode; in SQLite mode it holds exactly one `?` per column when the names hold none |
| SqlShim.DialectsAgree | server.js:30-35 | the Postgres insert query is the SQLite one after the placeholder rewrite plus ` RETURNING id`, so its placeholders are `$1..$n` in column order and it holds no `?` |
| SqlShim.CorrectedKeepsInserts | server.js:60-62 | the corrected `run` sends an insert built by `createInsertQuery` unchanged |
| Catalog.SessionUser | server.js:1089 | the requesting user is the guest exactly when the session has no user id or a falsy (0) one; otherwise it is that id |
| Catalog.CountFavorites | server.js:1028 | the existence check finds a row exactly when the (user, track) pair is stored |
| Catalog.UniqueFavoritesAtMostOne | server.js:1028-1034 | with no duplicate pairs stored, a pair has at most one row |
| Catalog.GenresOf | server.js:1103 | a track's genre list holds exactly the genres tagged on that track |
| Discovery.ParseAlgorithm | server.js:1090-1095 | `popular`, `genre-based` and `new` select their variants; an absent or any other value selects `mixed` |
| Discovery.NormalizeGenres | server.js:1176-1179 | a NULL or empty aggregate becomes `[]`; otherwise the list has one more entry than the aggregate has commas, no entry holds a comma, and joining the entries with commas gives the aggregate back |
| Discovery.NormalizeAggregate | server.js:1176-1179 | splitting the `GROUP_CONCAT` of a list of comma-free, non-empty genres gives the list back, and an untagged track gets `[]` |
| Ranking.TopRanked | server.js:1106-1107 | `ORDER BY … LIMIT`: the result has min(n, limit) rows, is sorted descending, is a sub-multiset of the rows, is all of them when they fit, and ranks at or above every row it leaves out |
| Discovery.Discover | server.js:1095-1169 | every variant returns at most 20 rows, drawn from the variant's rows and ordered by the variant's key; when more than 20 qualify it returns 20, and every row left out ranks at or below every row returned |
| Discovery.DiscoverRows | server.js:1111-1145 | every returned row is a stored track and is flagged favorited exactly when the user favorited it; `genre-based` and `new` report 0 plays; `genre-based` returns only unfavorited tracks that share a genre with a favorite |
| Discovery.GenreEligibleIff | server.js:1119-1127 | the WHERE clause admits a track exactly when the user has not favorited it and it has a genre of a favorited track |
| Discovery.GenreRows | server.js:1111-1131 | every genre-based row is an eligible track with the row the query builds for it, and every eligible track's row is among them |
| Discovery.GenreBasedWithoutFavorites | server.js:1119-1124 | a user with no favorites gets an empty genre-based list |
| Discovery.GenreBasedComplete | server.js:1111-1130 | when at most 20 tracks qualify, every unfavorited track sharing a favorite genre is returned |
| Discovery.GenreRowGenres | server.js:1113-1124 | a genre-based row lists only the track's genres that a favorite also has, because the filter runs before `GROUP_CONCAT` |
| Discovery.PopularRowCounts | server.js:1098-1106 | in `popular` the genre join runs before `COUNT`: play_count is plays times the number of genres (at least 1), and the genre list repeats once per play |
| Discovery.NewAndMixedRowGenres | server.js:1149-1165 | `new` and `mixed` rows list each genre of the track once, and `mixed` counts each play once |
| Discovery.PopularInflatesPlays | server.js:1098-1106 | a track with 1 play and 3 genres is reported with play_count 3 and ranked above a track with 2 plays and 1 genre |
| Discovery.DiscoverPopularCorrected | server.js:1096-1109 | with plays counted per track, popular returns at most 20 stored tracks, each with its true play count, ordered by plays then recency, and ranked at or above every track it leaves out |
| Discovery.CorrectedPopularRanksByPlays | server.js:1106 | on the same two tracks, the corrected popular ranking puts the 2-play track first with 2 plays, then the 1-play track with 1 |
| Favorites.Without | server.js:1036 | the DELETE removes every row of the pair and keeps every other pair |
| Favorites.WithoutMultiset | server.js:1036 | the DELETE keeps every other row as often as before and the pair's row not at all |
| Favorites.Toggle | server.js:1028-1053 | the reply is `favorited: true` exactly when the pair was absent; afterwards the pair is stored exactly when the reply says so; no other pair and no other table changes |
| Favorites.ToggleKeepsOtherCounts | server.js:1036-1046 | a toggle leaves the row count of every other (user, track) pair unchanged |
| Favorites.ToggleKeepsUnique | server.js:1044-1046 | a toggle never creates a duplicate pair |
| Favorites.ToggleTwiceAbsent | server.js:1028-1053 | toggling an absent pair twice restores the store exactly |
| Favorites.ToggleTwicePresent | server.js:1028-1053 | toggling a present pair twice restores the same set of rows, with that pair's row moved to the end of the table |
| Favorites.ToggleSeenByDiscovery | server.js:1153-1164 | after a toggle, the `is_favorited` flag that `mixed` and `new` show for the track agrees with the toggle's reply |
| Interactions.DurationOrZero | server.js:975 | `play_duration \|\| 0`: a missing duration counts as 0 and a given one, 0 included, as itself |
| Interactions.Upsert | server.js:967-975 | a new key starts at count 1 with total equal to the duration; an existing key gains 1 and the duration; no other key appears, disappears or changes |
| Interactions.Record | server.js:966-992 | the counters are upserted; a history row is appended only for `play`, with `completed` set exactly when the duration exceeds 30; tracks, genres and favorites are untouched |
| Interactions.RecordAllAccumulates | server.js:971-973 | after n interactions of one key, its count has grown by n and its total by the sum of the durations |
| Interactions.RecordAllKeepsOthers | server.js:970 | interactions of one key leave every other key's counter as it was |
| Interactions.CountHistoryAppend | server.js:986-991 | appending a history row raises that track's play count by one and leaves every other track's count alone |
| Interactions.PlayRaisesPlayCount | server.js:1158-1162 | logging a `play` raises the track's `mixed` play count by exactly one; any other interaction leaves it unchanged |
| UserPlaylists.MaxOf | server.js:881 | `MAX(position)` is NULL exactly for a playlist with no tracks; otherwise it is a stored position at or above all of them |
| UserPlaylists.NextPosition | server.js:881-887 | the new position is one past the highest position in the playlist: above every position in use and directly after one of them; 1 for an empty playlist |
| UserPlaylists.AddTrack | server.js:869-892 | the request is refused with 403 exactly when the playlist is not the user's; otherwise exactly one entry is appended, at one past the highest existing position (1 for the first) |
| UserPlaylists.AddKeepsNumbering | server.js:887-892 | a playlist numbered 1..n stays numbered 1..n+1 after an append, and the new track gets n+1 |
| UserPlaylists.AddKeepsOtherPlaylists | server.js:889-892 | an append leaves every other playlist's positions unchanged |
| BulkInsert.ToRow | server.js:736-742 | the stored row keeps title, artist, album, url and cover image as submitted, and its duration is the given one or 0 |
| BulkInsert.ErrorLines | server.js:743-749 | every track whose insert failed is reported as `title: message`, and every reported line comes from a failed insert |
| BulkInsert.Inserted | server.js:743-749 | every track whose insert succeeded is stored as its row, every stored row is a track whose insert succeeded, and stored plus reported equal the number submitted |
| BulkInsert.InsertAll | server.js:723-776 | a missing or empty list gets 400 and stores nothing; otherwise every track is tried once in order, successes plus errors equal the number of tracks, the successes are what was stored, and the first ten error lines are reported |
| BulkInsert.AllSucceed | server.js:743-749 | when every insert succeeds there are no error lines and every track is stored |
| MediaTypes.IsVideoFile | public/player.js:69-73 | true exactly when one of the seven video extensions occurs in the lower-cased URL |
| MediaTypes.IsAudioFile | public/player.js:76-80 | true exactly when one of the six audio extensions occurs in the lower-cased URL |
| MediaTypes.IsPodcastFile | public/player.js:83-86 | true exactly when `.mp3` occurs in the lower-cased URL |
| MediaTypes.PodcastIsAudio | public/player.js:77-85 | every podcast URL is also an audio URL |
| MediaTypes.ClassifiersIgnoreCase | public/player.js:71-84 | the three classifiers give the same answer for a URL and its lower-cased form |
| MediaTypes.VideoAndAudioOverlap | public/admin.js:766-777 | one URL can name both a video and an audio extension, so the two checks are not exclusive |
| Formatting.FormatTime | public/player.js:615-619 | the text is minutes without a leading zero, a colon and exactly two digits of seconds below 60, and it reads back as the same number of seconds |
| Formatting.FormatTimeInjective | public/player.js:615-619 | two different durations never show the same clock text |
| Formatting.FormatVideoTime | public/player.js:1567-1572 | a missing or zero length shows `0:00`; every text is minutes without a leading zero, a colon and two digits of seconds, and reads back as the length (missing as 0) |
| Formatting.VideoTimeIsTime | public/player.js:1567-1572 | on whole seconds the video clock and the audio clock show the same text |
| Formatting.AdminFormatDuration | public/admin.js:689-694 | the text is `-` exactly for a missing or zero length; otherwise it is minutes without a leading zero, a colon and two digits of seconds, and reads back as the length |
| Formatting.SplitHours | public/player.js:1135-1136 | minutes stay below 60, and hours·3600 + minutes·60 is the largest whole-minute amount not above the total |
| Formatting.SplitHoursUnique | public/admin.js:408-409 | only one hours-and-minutes pair has those bounds, so both clients' splits agree |
| Formatting.PlayerFormatDuration | public/player.js:1133-1138 | a missing or zero length shows `0h 0m`; otherwise the text names the hours and leftover minutes of the split |
| Player.NextIndex | public/player.js:425-431 | the next index is always below n; shuffled it is the draw; otherwise it is current+1, wrapping from the last track to 0 |
| Player.PreviousIndex | public/player.js:481-484 | the previous index is current−1, wrapping from 0 to the last track, and stays below n |
| Player.PreviousNextInverse | public/player.js:478-493 | without shuffle, previous undoes next and next undoes previous |
| Player.PlayTrack | public/player.js:334-389 | an index outside the list changes nothing; otherwise that index becomes current, the player is playing if `play()` resolved, stopped if it rejected (the error handler at line 387 clears the flag), and as before if no promise came back; the list and the modes are untouched |
| Player.NextTrack | public/player.js:488-493 | an empty list changes nothing; otherwise the cursor lands in range, on the draw with shuffle and on (current+1) mod n without, and the player is playing exactly when `play()` resolved or gave no promise while already playing; the list and both modes are untouched |
| Player.PreviousTrack | public/player.js:478-486 | an empty list changes nothing; with the cursor inside the list it lands in range on the track whose next is the old current; a search can shorten the list under the cursor (line 1014), and then a cursor at the end moves to the last track while one further out changes nothing; the playing flag is the one `playTrack` gives; the list and both modes are untouched |
| Player.ToggleRepeat | public/player.js:501-504 | the mode always changes, cycling none → one → all → none |
| Player.ToggleRepeatCycle | public/player.js:502-504 | three toggles are the identity, and every mode is reachable from every other in at most two |
| Player.HandleTrackEnd | public/player.js:518-528 | repeat-one replays the same track with nothing else changed; repeat-all or a track that is not the last advances; otherwise playback stops in place |
| Player.RepeatAllCycles | public/player.js:522-523 | under repeat-all without shuffle, k track ends move the cursor k places round the list |
| Player.NoRepeatPlaysThrough | public/player.js:518-528 | without repeat or shuffle, starting at the first track, k track ends reach track k, and play stops on the last track once the list is done |
| Player.SortTracks | public/player.js:1027-1046 | the result is a permutation of the tracks: popular by play count descending (missing as 0), recent newest first, title and artist by the collation; any other key keeps the order |
| Player.SuggestCorrectSection | public/player.js:1326-1346 | `Videos` exactly for a video URL, even one that is also audio; `Music` exactly for audio-only URLs; `Unknown` otherwise |
| Player.QuickPlayTrack | public/player.js:1169-1217 | quick play goes ahead exactly for an in-range track whose URL is not a video, making it current and leaving the list unchanged; the player is then playing exactly when `play()` resolved, since a rejection reaches the error handler that clears the flag |
| Player.QuickPlayIsPlayTrack | public/player.js:1169-1217 | whatever quick play lets through ends exactly as `playTrack` would with the same play outcome, so the shuffle and repeat modes are kept |
| Player.VolumeIconFor | public/player.js:578-587 | mute exactly at 0, low exactly for other values below 50, high exactly from 50 up |
| Player.VolumeIconMonotone | public/player.js:580-586 | raising the volume never lowers the icon, and lowering it never leaves mute |
| Strings.Trim | public/admin.js:791 | the result is a stretch of the input with only whitespace before and after it, has no whitespace at either end, is empty exactly when the input is all whitespace, and an already trimmed text is kept |
| Strings.TrimUnique | public/admin.js:791 | any non-empty stretch without whitespace at its ends and with only whitespace around it is the trimmed text, so the result is determined |
| Strings.TrimStartDropsSpace | public/admin.js:791 | what is cut from the front is all whitespace |
| Strings.TrimEndDropsSpace | public/admin.js:791 | what is cut from the back is all whitespace |
| Strings.TrimIdempotent | public/admin.js:780-791 | trimming twice is trimming once |
| Strings.SplitJoin | public/admin.js:786-791 | splitting text joined with a separator that no part contains gives the parts back |
| Strings.JoinSplit | public/admin.js:786-791 | joining the pieces of a split with the separator gives the text back |
| BulkImport.NullIfEmpty | public/admin.js:813-815 | `value \|\| null`: an empty field becomes null and any other is kept |
| BulkImport.Fields | public/admin.js:791 | a line has one more field than it has `\|` characters |
| BulkImport.ParseFields | public/admin.js:793-816 | fewer than four fields, then an empty title, artist or url, then an invalid url are rejected, in that order and each with its own reason; an accepted line keeps its trimmed fields, with an empty album or cover as null |
| BulkImport.NonBlank | public/admin.js:786 | the kept lines are exactly the input lines that are not all whitespace |
| BulkImport.NonBlankAppend | public/admin.js:786 | the filter keeps order and repeats: filtering two lists one after the other gives the filtered lists one after the other |
| BulkImport.CollectKeepsOrder | public/admin.js:790-817 | the collected tracks are the accepted lines' tracks in line order |
| BulkImport.Collect | public/admin.js:790-817 | each line gives exactly one track or one error; every error cites its line's 1-based index; every accepted line's track is listed |
| BulkImport.ErrorLinesIncrease | public/admin.js:790-794 | the error line numbers strictly increase |
| BulkImport.PreviewBulkImport | public/admin.js:779-817 | all-whitespace input is refused; otherwise tracks plus errors equal the number of non-blank lines, every rejected line's error is listed under its 1-based number, every accepted line's track is listed, each listed track is one line's parse, and the error line numbers strictly increase |
| BulkImport.PreviewKeepsOrder | public/admin.js:779-817 | the preview's tracks are the accepted lines' parses in line order, the order in which they are later inserted |
| BulkImport.ParseFormatLine | public/admin.js:791-816 | a track written as a five-field line parses back to the same track |
| BulkImport.ExtraFieldsIgnored | public/admin.js:798 | fields after the fifth do not change how a line parses |
| StreamUrls.IdRun | public/admin.js:722 | the captured id is the longest run of `[A-Za-z0-9_-]` at that point |
| StreamUrls.FirstMatch | public/admin.js:722-729 | the match found is the leftmost one: it matches, and no earlier position does |
| StreamUrls.ExtractFileId | public/admin.js:718-733 | a `/file/d/` match wins; otherwise a `?id=` or `&id=` match is used; there is no id exactly when neither form matches, and an id is a non-empty run of id characters |
| StreamUrls.ConvertGoogleDriveUrl | public/admin.js:708-742 | an empty input is refused; the result is converted exactly when an id is found, and then it is the direct-download link for that id |
| StreamUrls.ConvertFilePath | public/admin.js:721-736 | a `…/file/d/<id>` share link becomes the direct-download link of that id |
| StreamUrls.ConvertIdempotent | public/admin.js:727-736 | converting a direct-download link gives the same link back |
| StreamUrls.FilePathTakesPrecedence | public/admin.js:722-733 | when a URL has both forms, the `/file/d/` id is used even though the `?id=` form comes first |
| StreamUrls.ValidateStreamUrl | public/admin.js:745-763 | accepted exactly when one of the seven audio extensions (`.ogg` included) occurs in the lower-cased URL or one of the six hosting patterns occurs in the URL as typed |
| StreamUrls.AudioFilesValidate | public/admin.js:747-748 | every URL the audio check accepts passes the stream check |
| StreamUrls.OggValidatesButIsNotAudio | public/admin.js:747 | an `.ogg` URL passes the stream check but not the audio check |
| StreamUrls.DirectUrlValidates | public/admin.js:752 | every direct-download link the rewriter produces passes the stream check |
| AdminConsole.AutoDetectVideoCategory | public/admin.js:628-651 | an empty URL keeps the selection; the result is the selection or one of the five suggested categories; an `.mp4` URL always becomes `Podcast` or `Music Video` |
| AdminConsole.DetectIsFirstRule | public/admin.js:635-650 | the chain of checks is the first-match reading of the five-rule table, so `.mp4` is decided before tutorial/howto, interview and performance/live |
| AdminConsole.DetectIgnoresCase | public/admin.js:632 | the suggestion does not depend on the URL's case |
| AdminConsole.TotalSecondsAppend | public/admin.js:407 | the summed length of two lists is the sum of their totals |
| AdminConsole.TotalCoversEach | public/admin.js:407 | every known length is part of the total |
| AdminConsole.ListTotals | public/admin.js:405-410 | the count is the list's length, and the hours and minutes shown are within a minute below the summed lengths (missing as 0) |
| AdminConsole.UpdateStats | public/admin.js:404-420 | the music totals are always computed, and the video totals exactly when the page has a video panel, each as the unique hours/minutes split of its sum |
| AdminConsole.CheckTrackUrl | public/admin.js:432-445 | an invalid URL is refused first, then a video URL, then a non-audio URL proceeds with a warning, and an audio URL proceeds quietly; each outcome happens exactly in its case |
| AdminConsole.SendsIff | public/admin.js:432-447 | a request is sent exactly for a valid URL that is not a video |
| AdminConsole.CheckAgreesWithSuggestion | public/admin.js:432-445 | among valid URLs, adding a track refuses exactly those the player's `suggestCorrectSection` sends to Videos, proceeds quietly on exactly those it sends to Music, and warns on exactly the rest |
| AdminConsole.VideoCheckComesFirst | public/admin.js:438-443 | a valid URL naming both a video and an audio extension is refused as a video |

## Left out

- Transport and storage: Express routing, the session store, the `pg` pool and the `sqlite3` driver, and static files are I/O. Queries are functions over in-memory relations, and a storage error (the 500 replies) is not modelled. The exception is bulk insert, where the `insert` oracle's answer is the error.
- Schema DDL and demo seeding: fixed strings and side effects.
- Races: the gap between the favorite check and its write, and the fire-and-forget history insert, are concurrency. The model runs every request to completion, one after another.
- Discovery.Discover: the `mixed` score (`julianday` float arithmetic plus SQLite `RANDOM()`) and `ORDER BY RANDOM()` in `genre-based` are injected as ranking oracles. The contract therefore says the rows are ordered by the oracle's key, not how that key is computed.
- Discovery.Discover: `GROUP_CONCAT` has no defined order in SQL. The model fixes the nested-loop join order, and under Postgres `GROUP_CONCAT` does not exist at all; that dialect difference is not modelled.
- Player.NextIndex: `Math.random` is the `draw` parameter, so the contract only says a shuffled index is the draw, which is below n. With an empty list, `getNextTrackIndex` returns `NaN`; that case is not modelled, because `nextTrack` never calls it on an empty list.
- Player.SortTracks: `localeCompare` is an injected collation key. The contract does not state that ties keep their previous relative order, although `Array.prototype.sort` is stable.
- Player.PlayTrack: the audio element, preloading, loading spinners and the interaction log are I/O. The `play` parameter says whether `audio.play()` resolved, rejected or returned no promise.
- Player.QuickPlayTrack: the `testAudioUrl` probe and the click feedback are I/O, and the warning for a refused video URL is a notification.
- Formatting: durations are whole seconds, and negative durations are not modelled. The clients can receive fractional durations. `formatTime` floors both parts, so only its flooring is left out. `formatVideoTime` and the admin `formatDuration` floor the minutes but print `seconds % 60` as it is, fraction included: 65.5 seconds shows as `1:5.5`. Their `m:ss` shape therefore holds only for whole seconds.
- Volume: the slider value is an integer; float volumes and `localStorage` are left out.
- Strings.ToLower: lower-cases ASCII letters only. JavaScript's `toLowerCase` also maps two non-ASCII characters to ASCII: the Kelvin sign U+212A becomes `k`, and U+0130 becomes `i` followed by U+0307. So on URLs holding those characters the members built on it differ from the source. For example, `a.m\u212Av` is a video URL in the source (`.mkv`), `x.AV\u0130` contains `.avi`, and `tal\u212A` matches the talk rule.
- MediaTypes.IsVideoFile, MediaTypes.IsAudioFile, MediaTypes.IsPodcastFile: differ from the source on URLs holding U+212A or U+0130, as described under Strings.ToLower.
- StreamUrls.ValidateStreamUrl: differs from the source on URLs holding U+212A or U+0130, for the same reason.
- AdminConsole.AutoDetectVideoCategory: differs from the source on URLs holding U+212A or U+0130, for the same reason.
- `isValidUrl`, the WHATWG `URL` constructor, is the `validUrl` parameter.
- AdminConsole.UpdateStats: whether the page has a video panel is the `hasVideoPanel` parameter. The DOM writes are the returned totals.
- `executeBulkImport`, `addVideo`, `addPlaylist`, the delete and edit handlers, and `getAudioDuration` are fetch and DOM glue around the modelled decisions.
- All DOM rendering, notifications, modals, timers and session polling in both clients are left out.
- The routes other than those listed above (track, video and playlist CRUD, search, statistics, authentication) are left out. So is the login page script `public/login.js`.

## Findings

| source | as written | input that shows it | evidently intended | confidence | as-written member | corrected member |
|---|---|---|---|---|---|---|
| server.js:60-74 | the Postgres `run` wrapper passes the query to `pool.query` without the `?` → `$n` rewrite that `get` and `all` apply, although routes send `?` queries through `run` (for example the track DELETE at server.js:782 and the favorite DELETE at server.js:1036) | `run('DELETE FROM tracks WHERE id = ?', [id])` in Postgres mode reaches Postgres with its `?` placeholder, which Postgres does not accept as a parameter | `run` rewrites `?` like `get` and `all`, so every query reaching Postgres uses `$n` | not executed | SqlShim.RunKeepsQuestionMark | SqlShim.PrepareCorrected |
| server.js:1098-1106 | `popular` counts `lh.track_id` over a join that also multiplies by the track's genre rows (and by its favorite rows), so `play_count` is plays × genres | track A with 1 play and 3 genres, track B with 2 plays and 1 genre: A is reported with play_count 3 and ranked above B | `play_count` is the number of plays, as in the per-track subquery of `mixed`, and popularity ranks by it | not executed | Discovery.PopularInflatesPlays | Discovery.CorrectedPopularRanksByPlays |
