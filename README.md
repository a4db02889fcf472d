# delsolbot core in Dafny

delsolbot is a Node.js bot. It reads the RSS feeds of a radio station's podcasts, downloads the new
episodes, posts them to Telegram channels and announces them on Twitter. Telegram limits an upload
to 50 MB, so larger episodes are first cut into parts at silent moments.

This project models the deterministic logic inside that pipeline:

- `split_planner.dfy`: the cut planner `calculateSplitTimes` of lib/splitter.js. It is an imperative
  method with the nested loop of the source, proved against the functional specification `Plan`.
- `silence_detector.dfy`: the two `silencedetect` line patterns, and the stderr handler of
  `findSilences` as a class whose fields are the handler's closure variables. It also gives an
  independent description of the pairing and proves that the handler agrees with it.
- `splitter.dfy`: `splitEpisode` and `splitPart`. The ffprobe result, the silence run and the
  `ffmpeg` extraction are inputs. The size threshold, the part count, the part ranges, the part
  names and the 0.1 MB floor are modelled.
- `helpers.dfy` and `utils.dfy`: the text sanitisers of lib/helpers.js and their copies in utils.js.
  Each copy is proved equal to the helper.
- `app.dfy`: from app.js,
  - the `archivo` extraction;
  - `ignoreUploadedPodcasts` as a method that splices a feed object's item list in place;
  - `parseFeed`;
  - the caption truncation;
  - the episode path;
  - the sanitiser copies;
  - the tweet status.
- `twitter_controller.dfy`: the status text of `TwController.tweet`, proved equal to the one in
  app.js.
- `js_string.dfy`, `node_path.dfy` and `wrappers.dfy`: the JavaScript string built-ins the core uses,
  Node's POSIX `path.dirname`, `path.join` and `path.normalize`, and `Option`/`Result`.

Times and sizes are exact reals. The drift bound (10 s) and the size threshold (50 MB) are
parameters, and the source's constants are declared beside them.

## Model

| member | source | states |
|---|---|---|
| SplitPlanner.CalculateSplitTimes | lib/splitter.js:92-127 | Returns `Plan(...)`. It has `max(1, ceil(total/ideal))` cuts and the first is 0. Every later cut is its ideal time `i·ideal`, or the midpoint of some silence within the drift bound of it. |
| SplitPlanner.ClosestSilence | lib/splitter.js:99-114 | The inner scan yields `Pick`: the unused midpoint within the drift bound that the strict `<` update keeps. |
| SplitPlanner.Pick | lib/splitter.js:99-114 | A picked midpoint is unused and within the drift bound. Nothing is picked exactly when no silence is eligible. |
| SplitPlanner.PickIsClosest | lib/splitter.js:102-113 | The picked midpoint belongs to an eligible silence. It is no farther than any eligible silence, and strictly closer than every eligible silence earlier in the list, since ties go to the first. |
| SplitPlanner.PickIsMidpoint | lib/splitter.js:103-112 | A picked value is the midpoint of one of the silences. |
| SplitPlanner.ScanStepChooses | lib/splitter.js:102-113 | One step of the scan keeps the choice closest among the silences seen so far. |
| SplitPlanner.Ceil | lib/splitter.js:96 | `Math.ceil`: the least integer not below `x`. |
| SplitPlanner.Iterate | lib/splitter.js:93-122 | After `n` rounds the plan has `n + 1` cuts and cut 0 is 0. |
| SplitPlanner.PlanCutsNearIdeal | lib/splitter.js:97-121 | Every cut `i ≥ 1` of the plan is `i·ideal`, or a silence midpoint within the drift bound of `i·ideal`. |
| SplitPlanner.PlanShape | lib/splitter.js:96-122 | Cut `i` of any later round is the cut chosen in round `i`, so earlier cuts are never changed. |
| SplitPlanner.CutNearIdeal | lib/splitter.js:97-121 | Cut `i` of round `n` is its ideal time, or a midpoint within the drift bound. |
| SplitPlanner.UsedGrows | lib/splitter.js:116-118 | The used set only grows, and it holds every midpoint chosen so far. |
| SplitPlanner.PicksNeverRepeat | lib/splitter.js:106-118 | No midpoint value is chosen in two different rounds. |
| SplitPlanner.DistinctMovedCuts | lib/splitter.js:106-118 | Two cuts that both moved away from their ideal times differ. |
| SplitPlanner.CutsAtIdealTimes | lib/splitter.js:110-121 | With no silences, or a drift bound of 0, cut `i` is exactly `i·ideal`. |
| SplitPlanner.PlanIncreasing | lib/splitter.js:96-121 | When `ideal` exceeds twice the drift bound, the cuts are strictly increasing. |
| SplitPlanner.IdealTimeNext | lib/splitter.js:97 | Consecutive ideal times are `ideal` apart, and they are non-negative for a positive `ideal`. |
| SplitPlanner.CutWithinDrift | lib/splitter.js:108-121 | Cut `i` lies within the drift bound of `i·ideal`. |
| SplitPlanner.CutCountOfParts | lib/splitter.js:27-28 | With `ideal = total/parts` (exact arithmetic) the plan has exactly `parts` cuts. |
| SplitPlanner.ScenarioSilenceNearIdeal | lib/splitter.js:92-127 | total 120, ideal 60 and one silence 58–61 give `[0, 59.5]`. |
| SplitPlanner.ScenarioNoSilence | lib/splitter.js:119-121 | total 120 and ideal 60 with no silences give `[0, 60]`. |
| SilenceDetector.DigitRun | lib/splitter.js:66-67 | The `\d+` run from an index: all digits, and maximal. |
| SilenceDetector.SpaceRun | lib/splitter.js:66-67 | The `\s+` run from an index: all white space, and maximal. |
| SilenceDetector.NumberValue | lib/splitter.js:70 | `parseFloat` of a matched number is non-negative. |
| SilenceDetector.NumberAt | lib/splitter.js:66-67 | A number is matched exactly when the text continues with a digit, and its value is non-negative. |
| SilenceDetector.MatchAt | lib/splitter.js:66-67 | A match at a position needs the key to occur there. |
| SilenceDetector.MatchFromNone | lib/splitter.js:66-67 | The leftmost-match search finds nothing exactly when no position matches. |
| SilenceDetector.MatchValue | lib/splitter.js:66-67 | A matched silence time is never negative. |
| SilenceDetector.NegativeStartNotMatched | lib/splitter.js:66 | `silence_start: -0.001` is not matched. |
| SilenceDetector.EndLineValue | lib/splitter.js:67 | `silence_end: 12.5` is matched with the value 12.5. |
| SilenceDetector.ClassifyAll | lib/splitter.js:65-67 | Each stderr line is classified on its own, in order. |
| SilenceDetector.SilenceCollector.constructor | lib/splitter.js:59-60 | No segments and no pending start. |
| SilenceDetector.SilenceCollector.OnStderr | lib/splitter.js:65-77 | The new pair `(segments, pending)` is `Handle` of the old one and the line's matches. |
| SilenceDetector.FindSilences | lib/splitter.js:57-83 | Settles with `SilencesOf(run)`: on `end`, the intervals paired from all lines; on `error`, the wrapped message. |
| SilenceDetector.LastStartBefore | lib/splitter.js:69-71 | The last line carrying a start before a position, or none if there is none. |
| SilenceDetector.LastStartPrefix | lib/splitter.js:69-71 | The last start before `m` does not depend on the lines after `m`. |
| SilenceDetector.PendingAtLine | lib/splitter.js:69-76 | The pending start at a line is that line's start if it has one, else the open start before it. |
| SilenceDetector.DetectIsExpected | lib/splitter.js:65-77 | The handler's state equals the independent description. The pending start is the last start not yet closed. Each end line with an open start emits `(that start, the end)`, in end-line order, and an end without one emits nothing. |
| SilenceDetector.TrailingLinesWithoutEnd | lib/splitter.js:73-76 | Lines without an end add no interval, so a trailing unmatched start is never emitted. |
| SilenceDetector.ExpectedMembers | lib/splitter.js:73-74 | Every emitted interval starts at some start line and ends at the same or a later end line. |
| Splitter.PartCommandOf | lib/splitter.js:160-161 | The command's start is the start. A duration is set exactly when an end is given, and start + duration = end. |
| Splitter.SplitPart | lib/splitter.js:137-165 | Succeeds exactly when ffmpeg produced at least 0.1 MB. An ffmpeg error is passed on, and a smaller output rejects as `Archivo resultante corrupto: <file>`. |
| Splitter.NumParts | lib/splitter.js:27 | `ceil(size/threshold)`, at least 2 above the threshold. |
| Splitter.MulMonotone | lib/splitter.js:27 | Multiplying by a positive threshold preserves order. |
| Splitter.PartEnd | lib/splitter.js:35 | `splitTimes[i+1] \|\| null`: the next cut if there is one and it is not 0, else no end. |
| Splitter.PartsOf | lib/splitter.js:33-37 | One part per cut: part `i` starts at cut `i`, ends at `PartEnd`, and is written to `PartPath`. |
| Splitter.SplitEpisode | lib/splitter.js:14-50 | Equals `EpisodeOutcome`. A file within the threshold gives `[filePath]`, and a failed probe gives its wrapped error. |
| Splitter.SplitParts | lib/splitter.js:32-45 | The loop yields `RunParts`: the part files in order, or the first part's error. |
| Splitter.RunPartsStopsAtFailure | lib/splitter.js:39-49 | After a failed part no later part changes the result. |
| Splitter.RunPartsMeaning | lib/splitter.js:32-49 | Success exactly when every part succeeds, with the part files in order. Otherwise the error is that of the first failing part. |
| Splitter.PartsTile | lib/splitter.js:33-35 | With cut 0 at 0 and no later cut at 0: the first part starts at 0, each part ends where the next starts, and only the last is open-ended. |
| Splitter.EpisodePartsTile | lib/splitter.js:25-37 | With parts longer than twice the drift bound, the planned parts of an oversized file tile the whole recording. |
| Splitter.PlanIncreasingFromZero | lib/splitter.js:33-35 | In an increasing plan from 0, every later cut is positive. |
| Splitter.PartCount | lib/splitter.js:27-30 | A recording of positive length gets exactly `NumParts` parts. |
| Splitter.PartFileNamesDistinct | lib/splitter.js:37 | Different part indices give different file names. |
| Splitter.PartPathsDistinct | lib/splitter.js:37 | Different part indices give different output paths. |
| Splitter.PartFileNameIsPlain | lib/splitter.js:37 | A part name built from a base without `/` is a plain file name. |
| Splitter.EpisodeOversized | lib/splitter.js:22-49 | For a file over the limit: a failed probe gives its wrapped error, and otherwise a failed silence run gives its error. Otherwise the result succeeds exactly when every part's `splitPart` succeeds, and lists `PartPath(filePath, base, i)` for every cut `i`, in order. Failing that, it is the error of the first part that fails. |
| Splitter.ScenarioAtThreshold | lib/splitter.js:18-20 | A file of exactly 50 MB is returned as it is, with the default base name and the 10 s drift. |
| Splitter.ScenarioThreeParts | lib/splitter.js:27-30 | A 120 MB file with a positive duration gets 3 parts at the 50 MB threshold. |
| Splitter.ScenarioDefaultPartName | lib/splitter.js:14 | The default base `output` names the third part `output_(parte_3).mp3`. |
| Splitter.PartBelowCurrentDir | lib/splitter.js:37 | A part of `./<d>/<file>` is written to `<d>/<part name>`, since `path.join` drops the leading `./`. |
| Splitter.PartBesideInput | lib/splitter.js:37 | A part of `dir/file` is written in `dir`. |
| NodePath.DirEnd | lib/splitter.js:15 | The scan's end index is -1 or between 1 and `i`. |
| NodePath.Dirname | lib/splitter.js:15 | `path.dirname` never returns the empty string. |
| NodePath.DirEndInSegment | lib/splitter.js:15 | Once the scan passes the last slash of a trailing segment, it stops at that slash. |
| NodePath.DirnameOfFile | lib/splitter.js:15 | The directory of `dir/file` is `dir`, for a non-empty `dir` without a trailing slash and a file name without `/`. |
| NodePath.DirnameOfBareName | lib/splitter.js:15 | A bare file name is in `.`. |
| NodePath.NoSlashScan | lib/splitter.js:15 | The scan over a slash-free text finds nothing. |
| NodePath.LastSlash | lib/splitter.js:37 | The index of the last `/`, or -1 when there is none. |
| NodePath.Segments | lib/splitter.js:37 | Splitting on `/` gives at least one segment. |
| NodePath.SegmentsOfJoined | lib/splitter.js:37 | Appending `/name` appends one segment. |
| NodePath.UnsplitSnoc | lib/splitter.js:37 | Rejoining segments after pushing a name appends `/name`. |
| NodePath.JoinPlainName | lib/splitter.js:37 | Joining a plain name appends it to the normalized directory prefix. |
| NodePath.LastSlashOfSuffix | lib/splitter.js:37 | After a prefix ending in `/`, a slash-free name leaves that slash as the last one. |
| NodePath.JoinInjective | lib/splitter.js:37 | Joining different plain names to one directory gives different paths. |
| NodePath.NormalizeDot | lib/splitter.js:37 | `.` normalizes to no segments. |
| NodePath.PrefixBelowCurrentDir | lib/splitter.js:37 | `./d` normalizes to the prefix `d/`. |
| NodePath.JoinBelowCurrentDir | lib/splitter.js:37 | `path.join("./d", name)` is `d/name`. |
| NodePath.JoinInCurrentDir | lib/splitter.js:37 | `path.join(".", name)` is `name`. |
| JsString.ReplaceAllChars | lib/helpers.js:22-32 | A global replacement leaves only untouched characters and characters of the replacement. |
| JsString.ReplaceAllSingle | lib/helpers.js:22-32 | On one character: the replacement if it matches, else the character. |
| JsString.ReplaceAllUntouched | lib/helpers.js:22-32 | Identity when no character matches. |
| JsString.ReplaceAllConcat | lib/helpers.js:22-32 | It distributes over concatenation. |
| JsString.ReplaceAllPointwise | lib/helpers.js:10 | A one-character replacement keeps the length and maps position by position. |
| JsString.TrimStart | lib/helpers.js:10 | Drops the leading white space and only that. |
| JsString.TrimEnd | lib/helpers.js:10 | Drops the trailing white space and only that. |
| JsString.Trim | lib/helpers.js:10 | The result neither starts nor ends with white space, and its characters come from the input. |
| JsString.TrimIdempotent | lib/helpers.js:10 | Trimming twice equals trimming once. |
| JsString.IndexFrom | lib/helpers.js:38 | The first occurrence at or after `i`, or -1 with none there. |
| JsString.IndexOf | lib/helpers.js:38 | The first occurrence, and -1 exactly when there is none. |
| JsString.LastIndexFrom | app.js:112 | -1 or an index not above `i`. |
| JsString.LastIndexOf | app.js:112 | At least -1. |
| JsString.LastIndexFromMeaning | app.js:112 | The result is an occurrence or -1, and no occurrence lies between it and `i`. |
| JsString.LastIndexOfMeaning | app.js:112 | The last occurrence, with none after it; -1 exactly when there is none. |
| JsString.Clamp | app.js:112 | Clamps into `[0, hi]`. |
| JsString.Substring | app.js:112 | `substring` clamps its bounds and swaps them when reversed; in range it is the slice. |
| JsString.Substr | app.js:447 | `substr` from an in-range start takes at most `length` characters. |
| JsString.NatToString | lib/splitter.js:37 | Decimal digits, with no leading zero. |
| JsString.NatToStringRoundTrip | lib/splitter.js:37 | Reading the digits back gives the number. |
| JsString.NatToStringInjective | lib/splitter.js:37 | Different numbers print differently. |
| Helpers.SanitizeEpisode | lib/helpers.js:9-11 | The result has no `/`, and each character comes from the title or is `-`. |
| Helpers.SanitizeEpisodeReplacesSlashes | lib/helpers.js:10 | The replacement step turns each `/` into `-` in place and leaves every other character. |
| Helpers.SanitizeEpisodeIdempotent | lib/helpers.js:9-11 | Sanitising twice equals sanitising once. |
| Helpers.ContentChar | lib/helpers.js:22-32 | What one character becomes contains no removed character. |
| Helpers.MapContent | lib/helpers.js:22-32 | The per-character description contains no removed character, and it is the identity on text without special characters. |
| Helpers.ApplyPassesConcat | lib/helpers.js:22-32 | The pass chain distributes over concatenation. |
| Helpers.ApplyPassesUntouched | lib/helpers.js:22-32 | The chain is the identity when no pass matches. |
| Helpers.ApplyPassesToChar | lib/helpers.js:22-32 | A character is replaced by the first pass that matches it, if later passes leave that replacement alone. |
| Helpers.FirstPass | lib/helpers.js:22-32 | The first pass whose pattern matches a special character. |
| Helpers.LaterPassesKeepReplacement | lib/helpers.js:23-32 | From the `&` pass on, no later pass matches a character of an earlier pass's replacement. |
| Helpers.SanitizeContentChar | lib/helpers.js:22-32 | On one character the chain gives `ContentChar`. |
| Helpers.SanitizeContentIsPerCharacter | lib/helpers.js:22-32 | The chain acts character by character: `SanitizeContent(s) == MapContent(s)`. |
| Helpers.PassesPerCharacter | lib/helpers.js:22-32 | A chain that acts as `ContentChar` on every character acts as `MapContent` on every string. |
| Helpers.SanitizeContentRemoves | lib/helpers.js:22-32 | The output has no `"`, `'`, `<`, `>` or space, and no á é í ó ú in either case. |
| Helpers.SanitizeContentIdentity | lib/helpers.js:22-32 | Identity on text without any of `" & < > '`, the space or the accented vowels. |
| Helpers.QuoteEscapedTwice | lib/helpers.js:22-23 | `"` becomes `&amp;quot;`. |
| Helpers.LessThanEscapedOnce | lib/helpers.js:24 | `<` becomes `&lt;`. |
| Helpers.ParseResponse | lib/helpers.js:35-43 | `file_too_large` exactly when the 413 marker occurs, and `""` exactly when it does not. |
| Utils.SanitizeEpisodeAgrees | utils.js:2-4 | Equals the helper, so the result has no `/`. |
| Utils.SanitizeContentAgrees | utils.js:6-25 | Equals the helper, and removes the same characters. |
| Utils.SanitizeContentIsChain | utils.js:14-24 | The chain as written is the helper's passes in their order. |
| Utils.ParseResponseAgrees | utils.js:27-35 | Equals the helper, and flags exactly the texts containing the marker. |
| App.ArchivoOfEpisodeUrl | app.js:112 | For `<prefix>/<name>.mp3` with no `/` in `name`, the `archivo` is `name`. |
| App.ArchivoWithoutExtension | app.js:112 | Without `.mp3` the end index is -1, so `substring` swaps its bounds and gives the text up to the last `/`. |
| App.Feed.constructor | app.js:135-137 | A feed with the given title and items. |
| App.Keep | app.js:110-118 | Keeping the items whose key is not among the ids never lengthens the list. |
| App.Splice | app.js:115 | `splice(i, 1)` removes one element. |
| App.IgnoreUploadedPodcasts | app.js:108-126 | Changes the feed's items in place to `Filtered` of the old items, as written, and leaves the title. |
| App.SubseqRefl | app.js:110-118 | A list is a subsequence of itself. |
| App.SubseqDropLast | app.js:110-118 | Dropping the last element keeps a subsequence. |
| App.SubseqShorter | app.js:110-118 | A subsequence without its last element is still a subsequence. |
| App.SubseqTrans | app.js:110-118 | Subsequences compose. |
| App.SpliceView | app.js:115 | The splice keeps the elements before `i` and shifts the ones after it. |
| App.SpliceSubseq | app.js:115 | A splice leaves a subsequence, so order is kept. |
| App.SpliceMultiset | app.js:115 | A splice removes exactly the item at `i`. |
| App.SplicePassSubseq | app.js:111-117 | One pass of the inner loop leaves a subsequence. |
| App.SplicePassCounts | app.js:111-117 | One pass keeps every item whose key differs from the stored id. |
| App.StoredIdsSnoc | app.js:110 | The stored ids grow by the last stored podcast's `archivo`. |
| App.FilteredKeeps | app.js:110-118 | The filter as written keeps survivors in their relative order and removes only items whose `archivo` is stored. |
| App.KeepConcat | app.js:110-118 | Keeping distributes over concatenation. |
| App.KeepCons | app.js:110-118 | Keeping on a cons. |
| App.KeepSnoc | app.js:110-118 | Keeping on a snoc. |
| App.KeepPrefixStep | app.js:111-117 | Keeping over one more prefix element. |
| App.KeepNone | app.js:110-118 | Keeping with no ids is the identity. |
| App.SpliceDistinct | app.js:115 | A splice keeps the keys pairwise distinct. |
| App.SplicePassDistinctRemoved | app.js:114-115 | With distinct keys, a splice at `i` followed by the rest of the pass removes exactly the matching items. |
| App.SplicePassDistinctKept | app.js:114 | With distinct keys, a non-matching item is kept and the pass continues. |
| App.SplicePassDistinct | app.js:111-117 | With distinct keys, one pass from `i` on removes exactly the items whose key is the stored id. |
| App.KeepDistinct | app.js:110-118 | Keeping preserves distinct keys, and the kept items are unstored items of the input. |
| App.ConsDistinct | app.js:110-118 | Consing an item whose key is new keeps the keys distinct. |
| App.KeepKeep | app.js:110-118 | Keeping twice is keeping once with the union of the ids. |
| App.FilteredDistinct | app.js:110-118 | With pairwise-distinct `archivo`s the filter as written removes exactly the stored items, and no survivor is stored. |
| App.FilteredIsKeep | app.js:110-118 | With pairwise-distinct keys, the filter is `Keep` with the stored ids. |
| App.AdjacentDuplicateSurvives | app.js:110-118 | Two adjacent items sharing a stored `archivo`: the second survives, though it should be removed. |
| App.DuplicateLinksExist | app.js:112 | Two different episode links can share an `archivo`. |
| App.RemoveUploadedPodcasts | app.js:108-126 | The corrected filter: the items become exactly the old items whose `archivo` is not stored, in order. |
| App.RemoveStored | app.js:111-117 | The corrected inner loop: the items become exactly the old items whose `archivo` differs from one stored id. |
| App.ParseFeed | app.js:133-159 | Resolves exactly when there are items, with the feed title and one `ParseItem` per item at the same index. Otherwise rejects with `[<title> parseFeed, Nothing to upload]`. |
| App.Caption | app.js:175-183 | At most 200 characters. A caption within 200 is unchanged. A longer one becomes its first 197 characters plus `...`, exactly 200. |
| App.Mp3InFolder | app.js:177 | In `<dir>/<episode>.mp3` with a slash-free episode, the file name follows the last slash. |
| App.EpisodeFileName | app.js:176-177 | The download path is `./downloads/<folder>/` followed by `<sanitised title>.mp3`. That file name has no `/`, so the last slash of the path is the one before it. |
| App.SanitizeEpisodeAgrees | app.js:341-343 | The copy equals the helper and leaves no `/`. |
| App.SanitizeContentAgrees | app.js:345-365 | The copy equals the helper and removes the same characters. |
| App.SanitizeContentIsChain | app.js:353-364 | The chain as written is the helper's passes in order. |
| App.TextLengths | app.js:435-436 | The body text has 35 characters and the hashtags 26. |
| App.TweetThresholds | app.js:437-445 | With those lengths counted out, the full status is too long exactly when title + url exceed 219 characters. The body alone is dropped exactly when they are under 252, and the truncated title keeps `249 - \|url\|` characters. |
| App.TelegramUrlShape | app.js:433-434 | `https://t.me/` + the channel without its first character + `/` + the message id. |
| App.TweetFull | app.js:437-439 | A full status of at most 280 characters is sent unchanged. |
| App.TweetWithoutBody | app.js:439-441 | Too long, but title + url + hashtags under 278: the body is dropped, and the status has at most 278 characters. |
| App.TweetTruncated | app.js:442-451 | Otherwise the title is cut to `275 - \|url\| - \|hashtags\|` characters plus `...`, and the status has exactly 279 characters. |
| App.TweetFits | app.js:437-451 | With a url of at most 250 characters the status never exceeds 280. |
| TwitterController.TweetAgrees | controllers/twitter.controller.js:62-82 | The controller's status equals the one `tweet` in app.js builds. |
| TwitterController.TweetUrl | controllers/twitter.controller.js:63-64 | The channel's first character is dropped from the t.me link. |
| TwitterController.TweetFull | controllers/twitter.controller.js:64-69 | A status of at most 280 characters is title + body + url + hashtags. |
| TwitterController.TweetWithoutBody | controllers/twitter.controller.js:69-71 | Too long with title + url + hashtags under 278: `title\n` + url + hashtags, at most 278 characters. |
| TwitterController.TweetTruncated | controllers/twitter.controller.js:72-81 | Otherwise a title prefix of `275 - \|url\| - \|hashtags\|` characters plus `...`, exactly 279 characters. |

## Left out

- Splitter.SplitEpisode assumes that `getFileSizeInMB`, `logError` and `debug` exist. lib/splitter.js:3
  imports all three from `./helpers`, but lib/helpers.js:45-51 exports none of them. `logError`
  and `debug` are defined in lib/logger.js:15-16, and `getFileSizeInMB` is defined nowhere in the
  files at hand. Taken as written, `getFileSizeInMB(filePath)` at lib/splitter.js:16 throws a
  TypeError before the `try`, so every call would reject. The call at line 145 would throw too, as
  would `debug` (lines 124 and 138) and `logError` (lines 47, 147 and 156) when reached. The model gives the file size as a
  parameter and treats the logging calls as doing nothing. No caller of `splitEpisode` appears in
  the files at hand.
- Running ffmpeg and ffprobe is not modelled. The probe result, the `silencedetect` stderr lines with
  the run's outcome, and each extraction's output size or error are parameters. `getFileSizeInMB`
  is not part of this model, and the file size is a parameter.
- Floating point: times and sizes are exact reals. In IEEE arithmetic `Math.ceil(d / (d / n))` can
  exceed `n`, and `CutCountOfParts` does not cover that.
- SplitPlanner.CalculateSplitTimes requires `ideal != 0 || total <= 0`. With `ideal == 0` and a
  positive total the source loops forever, because the bound is `Infinity`.
- Logging, `debug`, `toFixed` in messages, and the `log` calls in `splitEpisode` and `splitPart`
  are not modelled.
- Splitter.SplitEpisode: the `catch` in `splitEpisode` only logs and rethrows. It is modelled as
  passing the error on unchanged.
- The non-string branch of `sanitizeContent`, which wraps the input in `{nonstring}` and applies
  `JSON.stringify`, is not modelled.
- The expectations of test/tools.test.js are not part of this model. They expect spaces to become
  `_` in `sanitizeEpisode`, and a `pathToTitle` that lib/helpers.js does not export.
- String lengths count characters (Unicode scalar values), not UTF-16 code units. The two agree on
  text without astral characters.
- The `/gi` flag is modelled only for the accented vowels, where it matters: á é í ó ú and their
  capitals.
- Feed items are flattened: xml2js's one-element arrays (`link[0]`, `title[0]`) and `itunes:image`
  become plain fields of `Item`.
- App.IgnoreUploadedPodcasts: the Promise always resolves with the feed, in both branches. It is
  modelled as a method that returns.
- App.ParseFeed: resolve and reject are modelled as the `Success` and `Failure` of the result.
- `sendFeedToTelegram` is modelled only for its caption and episode path. The download, metadata
  editing, Telegram upload, database writes and `eachOf` concurrency are network, disk or
  concurrent code.
- `message_id` is taken as a string, as the template literal prints it.
- `TwController.tweet` and `tweet` in app.js: uploading the image and posting the status are left
  out (network).
- `main`, the cron job, `cleanDownloads`, `getFeed`, the database controller, the logger and the
  configuration are I/O or process plumbing.
- `path.dirname`, `path.join` and `path.normalize` are modelled for POSIX paths only.

## Findings

| source | as written | input that shows it | evidently intended | confidence | as-written member | corrected member |
|---|---|---|---|---|---|---|
| app.js:110-118 | `feed.item.splice(i, 1)` at line 115 is not followed by `i--`, so the item that moves into index `i` is skipped | two adjacent feed items with the same `archivo`, that `archivo` being stored | every item whose `archivo` is stored is removed | not executed | App.AdjacentDuplicateSurvives | App.RemoveUploadedPodcasts |

A related observation is not a defect. Both tweet builders test `< 278` (app.js:440,
controllers/twitter.controller.js:70). So a title, url and hashtags totalling 278 or 279 characters
is still cut, although `title\n` + url + hashtags would fit. The model keeps the `< 278`.
