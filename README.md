# YTDownloader core in Dafny

YTDownloader is a small Express server. It searches YouTube and downloads a video as MP3 audio or MP4 video. The downloads go through the `yt-dlp` command-line tool.

This project models the decision and text-processing logic of that server and proves properties of it:

- **Format table parser:** reads the table printed by `yt-dlp --list-formats` (`getAvailableFormats`). Three anchored regular expressions are tried in order. Captures are defaulted, a keyword filter decides whether a line is kept, and media flags are derived from the description. The thumbnail table parser is modelled too.
- **Format selection (`selectBestFormat`):**
  - `getHeight` reads a height from a resolution string.
  - Formats are split into audio-capable and video-only groups, and each group gets a stable descending sort.
  - A scan picks the first format whose height lies in (0, preferred].
  - If none fits, the head of the list is used; with no candidate at all, the answer is `best`.
- **Video download:**
  - the `yt-dlp` format selector string built from the preferred quality;
  - the order of `downloadVideoDynamic`: the merged download first, and the plain `best` download only when the merged one fails.
- **Search endpoint:**
  - the `limit` clamp;
  - the query check that answers 400 without searching;
  - the choice between a keyword search and a next-page request;
  - the projection of the library's items and `hasMore`.
- **Download endpoints:**
  - title sanitisation and the file path built from it;
  - title and quality defaults;
  - the cache hit that serves an existing file without downloading;
  - the check that the download produced the file;
  - the clean-up timer each one schedules;
  - the classification of errors into user-facing messages.
- **Clean-up endpoint:** empties the selected download folders except `.gitkeep`, and counts the deletions.

## How the model is built

- **External calls are parameters.** This covers the `yt-dlp` process, the title lookup, the search library and the file system.
  - A download is a function from its request to the outcome of its promise (`Resolved` or `Rejected` with a message).
  - The search library is a function from the call to its reply, or to the fact that it threw.
  - The title lookup is the text it printed, or nothing when it threw.
  - The file system is the set of paths that exist when a handler looks: once before downloading and once after.
  - Each handler also returns the calls it made: title lookups, downloads started, search calls, and clean-up timers scheduled. Its contract says which calls are made and when. For example, a download handler looks the title up only when the `title` parameter is missing or empty, and it does so before the cache check.
- **JavaScript semantics are written out.**
  - `parseInt` yields `NaN` or a number (`JsText.ParseInt`). It skips leading white space, reads an optional sign, reads the longest run of digits, and, without a radix, treats a `0x` prefix as hexadecimal.
  - Comparisons with `NaN` are false (`AtMost`, `Above`).
  - `includes`, `split`, `trim` and the first-occurrence `replace` of a one-character string are modelled as written, with the ECMAScript white-space set.
  - `Array.prototype.sort` is stable since ECMAScript 2019. It is modelled as a stable insertion sort, and lemmas state that this sort orders by descending key, permutes its input and keeps ties in input order.
- **File structure.**
  - `wrappers.dfy`: Option and Result.
  - `js_text.dfy`: string primitives.
  - `js_array.dfy`: `filter`, `map`, `sort` and the early-return scan.
  - `format_table.dfy`, `format_selection.dfy`, `video_download.dfy`: the three parts of `src/utils/ytdlp.js`.
  - `selection_examples.dfy`: concrete format lists.
  - `search_route.dfy`, `download_route.dfy`, `cleanup_route.dfy`: the routes of `src/routes/api.js`.

Three behaviours of the program are worth knowing, and the model states each of them:

- **Fallback when nothing fits.** When no format fits the preferred height, `selectBestFormat` does not pick the highest-resolution format overall. It takes the head of the combined list, and that list puts every format with audio before every video-only one. So a 720p format with audio wins over a 2160p video-only format. `SelectionExamples.FallbackIsNotHighestOverall` exhibits this. `FormatSelection.FallbackIsHighestWithAudio` states what does hold: the fallback is the highest format *with audio*.
- **Titles with no ASCII word character.** Sanitisation keeps only ASCII word characters, white space and `-`. A title with no ASCII letter, digit, `_` or `-` therefore becomes the empty name. All such videos share the file `.mp3` (or `.mp4`), and the cache check then serves one video's file for another (`DownloadRoute.UnsafeTitlesShareFile`).
- **A media keyword in the extension column does not count.** The first pattern takes the word after the resolution as the extension, and the keyword filter reads only the rest of the line. So a line such as `137 1920x1080 video only` has extension `video` and description `only`, and it is dropped (`FormatTable.KeywordAsExtension`).

## Model

| member | source | states |
|---|---|---|
| JsText.TrimEmptyIff | src/routes/api.js:23 | `s.trim()` is empty exactly when every character of `s` is white space |
| JsText.TrimKeeps | src/routes/api.js:156 | `trim` removes only white space: every character of the result is in the input, and every non-space character of the input is kept |
| JsText.ParseIntOfDigits | src/utils/ytdlp.js:369 | `parseInt` of a digit string followed by the end or by a character that is neither a digit nor `x` nor `X` is the digit string's decimal value (a following `x` or `X` after a leading `0` would make it hexadecimal) |
| JsArray.FilterOfMap | src/routes/api.js:43-51 | `map` then `filter` equals `filter` then `map` with the composed predicate, so order and selection are kept |
| JsArray.SortDescPermutes | src/utils/ytdlp.js:390-394 | the comparator sort is a permutation of its input |
| JsArray.SortDescSorted | src/utils/ytdlp.js:390-394 | the comparator `key(b) - key(a)` orders by non-increasing key |
| JsArray.SortDescStable | src/utils/ytdlp.js:390-394 | the sort is stable: the elements of each key keep their input order |
| JsArray.FirstWhereSpec | src/utils/ytdlp.js:420-427 | the early-return scan finds something exactly when some element satisfies the test, and then the earliest such element |
| JsArray.FirstWhereInSortedIsHighest | src/utils/ytdlp.js:420-427 | in a list sorted by descending key, the first element passing the test has the largest key among all elements passing it |
| FormatTable.SpacedTailIsGreedy | src/utils/ytdlp.js:300-302 | the trailing `\s+(.+)$` matches exactly when some split of the rest into white space and a line-terminator-free tail exists, and then takes the longest white-space run |
| FormatTable.MatchWithExtensionSound | src/utils/ytdlp.js:300 | whatever the first pattern captures, the line is exactly its four captures with a non-empty run of white space between each two |
| FormatTable.MatchWithExtensionComplete | src/utils/ytdlp.js:300 | a line made of a digit id, a resolution (a bare number allowed), a word and a rest without line terminators, separated by white space, matches the first pattern; when the rest does not start with white space, the captures are exactly these pieces |
| FormatTable.MatchResolutionOnlySound | src/utils/ytdlp.js:301 | whatever the second pattern captures, the line is exactly its three captures with white space between them |
| FormatTable.MatchResolutionOnlyComplete | src/utils/ytdlp.js:301 | a line made of a digit id, a `WxH`/`Np`/`Nk` resolution and a rest without line terminators, separated by white space, matches the second pattern; when the rest does not start with white space, the captures are exactly these pieces |
| FormatTable.MatchIdOnlySound | src/utils/ytdlp.js:302 | whatever the third pattern captures, the line is exactly its two captures with white space between them |
| FormatTable.MatchIdOnlyComplete | src/utils/ytdlp.js:302 | a digit id, white space and a rest without line terminators match the third pattern; when the rest does not start with white space, the captures are exactly the id and the rest |
| FormatTable.MatchLine | src/utils/ytdlp.js:299-309 | the pattern loop with its `break` returns the captures of the first pattern, in order, that matches |
| FormatTable.FirstMatchShape | src/utils/ytdlp.js:305-309 | the captures found are those of some pattern, and every earlier pattern failed on the line |
| FormatTable.MentionsMediaSixKeywords | src/utils/ytdlp.js:318-320 | the eight-keyword filter accepts exactly the descriptions that contain one of `video`, `audio`, `mp4`, `webm`, `m4a`, `mp3` |
| FormatTable.MakeFormat | src/utils/ytdlp.js:322-332 | the record's fields are the captures, and `hasAudio`/`hasVideo` are `includes` tests; combined means audio and video, video-only means video without audio, audio-only the converse |
| FormatTable.ConsistentFlagsExclusive | src/utils/ytdlp.js:329-331 | `isCombined`, `isVideoOnly` and `isAudioOnly` are pairwise exclusive |
| FormatTable.ParseFormatLineSpec | src/utils/ytdlp.js:311-334 | a line gives a record exactly when a pattern matches and its description (the last capture) mentions a media keyword. The record has the first capture as id, the second as resolution, the third as extension when there are three or more captures, else `mp4`, and consistent flags |
| FormatTable.WithExtensionRecord | src/utils/ytdlp.js:300-334 | a line the first pattern matches gives, when its fourth capture mentions media, the record with resolution, extension and description the second, third and fourth captures, and no record otherwise |
| FormatTable.ResolutionOnlyRecord | src/utils/ytdlp.js:301-334 | a line only the second pattern matches gives, when its third capture mentions media, a record whose extension and description are both that third capture, and no record otherwise |
| FormatTable.IdOnlyRecord | src/utils/ytdlp.js:302-334 | a line only the third pattern matches gives, when the rest of the line mentions media, a record whose resolution and description are both the rest of the line and whose extension is `mp4`, and no record otherwise |
| FormatTable.KeywordAsExtension | src/utils/ytdlp.js:300-320 | for a line of id, resolution, word and rest, the word is the extension whatever it says, and the line gives a record exactly when the rest mentions media |
| FormatTable.ParseFormatLinesAppend | src/utils/ytdlp.js:296-345 | the records of two blocks of lines are the records of the first followed by those of the second, so line order is kept |
| FormatTable.ParseFormatLinesSpec | src/utils/ytdlp.js:296-345 | no more records than lines; every record comes from a line, has consistent flags and mentions a media keyword; every line that parses contributes its record |
| FormatTable.KeepNonBlankSpec | src/utils/ytdlp.js:291 | the line filter keeps exactly the lines whose trim is non-empty |
| FormatTable.NonBlankLinesSpec | src/utils/ytdlp.js:291 | the kept lines hold no newline and are not blank, and every non-blank line of the output is kept |
| FormatTable.PushFormatOfLine | src/utils/ytdlp.js:311-334 | one loop iteration appends the line's record, if any, to the records so far |
| FormatTable.GetAvailableFormats | src/utils/ytdlp.js:285-352 | a failed listing gives the prefixed error; otherwise the loop's result is the records of the non-blank lines, each with consistent flags and a media keyword |
| FormatTable.ParseThumbnailsSpec | src/utils/ytdlp.js:450-460 | no more thumbnails than lines; each has a numeric id and a non-empty URL and is the thumbnail of one of the lines; every line matching `^(\d+)\s+(.+)$` gives one |
| FormatTable.ParseThumbnailsAppend | src/utils/ytdlp.js:450-460 | thumbnails keep line order |
| FormatSelection.GetHeightOfDimensions | src/utils/ytdlp.js:367-370 | `"WxH"` with digit strings W and H has height H |
| FormatSelection.GetHeightDimensionsFirst | src/utils/ytdlp.js:367-370 | the `x` test comes first: `"WxH"` followed by a suffix that holds no `x` and does not start with a digit or `X` (such as `p`) still has height H |
| FormatSelection.DimensionsSplit | src/utils/ytdlp.js:368 | a digit resolution with one `x` splits into exactly two parts, the width and the rest |
| FormatSelection.GetHeightOfProgressive | src/utils/ytdlp.js:372-374 | `"Np"` has height N |
| FormatSelection.GetHeightProgressiveFirst | src/utils/ytdlp.js:367-378 | the `p` test comes before the `k` test: digits, `p` and a rest without `x` that does not start with a digit have the digits' value as height, even when the rest holds a `k` |
| JsText.RemoveFirstAfter | src/utils/ytdlp.js:373 | `replace` with a one-character string removes only the first occurrence: the text after it is kept whatever it holds |
| FormatSelection.GetHeightOfKilo | src/utils/ytdlp.js:376-378 | `"Nk"` has height N·1000 |
| FormatSelection.GetHeightOfOther | src/utils/ytdlp.js:365-380 | the empty string, `unknown`, and any string without `x`, `p` or `k` have height 0 |
| FormatSelection.CombinedShape | src/utils/ytdlp.js:384-404 | the candidate list is the sorted audio group followed by the sorted video-only group; each is a permutation of its filter, sorted by descending height, and stable |
| FormatSelection.GroupMembers | src/utils/ytdlp.js:384-401 | the sorted audio group holds exactly the input formats with audio, the sorted video group exactly the video-only ones |
| FormatSelection.CombinedAudioFirstBy | src/utils/ytdlp.js:404 | for any sort key, the first positions of the combined list (as many as there are audio formats) hold formats with audio, and the rest video-only ones |
| FormatSelection.CombinedAudioFirst | src/utils/ytdlp.js:404 | every format with audio precedes every video-only format |
| FormatSelection.CombinedMembersBy | src/utils/ytdlp.js:384-404 | for any sort key, a format is in the combined list exactly when it is an input format with audio or video-only |
| FormatSelection.CombinedMembers | src/utils/ytdlp.js:384-404 | the same for the height key |
| FormatSelection.FindFitting | src/utils/ytdlp.js:420-427 | the `for` loop with its early return finds the first format, in list order, whose height lies in (0, preferred] |
| FormatSelection.SelectBestFormat | src/utils/ytdlp.js:357-439 | the method's answer is the declarative selection: `best` for no formats, else the first fitting candidate, else the head of the candidates, else `best` |
| FormatSelection.BestFormatIdIsCandidate | src/utils/ytdlp.js:384-438 | the answer is `best` or the id of an input format with audio or video-only, and it is `best` whenever no input format is either |
| FormatSelection.BestFormatIdFirstFitting | src/utils/ytdlp.js:418-427 | when some candidate fits, the answer is the id of the first fitting candidate in combined order |
| FormatSelection.BestFormatIdFallback | src/utils/ytdlp.js:358-438 | an empty input gives `best`; when no candidate fits, the answer is the head of the candidate list, or `best` when that list is empty |
| FormatSelection.HighestFittingBy | src/utils/ytdlp.js:390-427 | for any sort key and any test, when some format with audio passes, the scan picks a format with audio that passes and has the largest key among those |
| FormatSelection.PrefersHighestFittingWithAudio | src/utils/ytdlp.js:390-427 | when a format with audio fits, the answer is a fitting format with audio at least as high as every fitting format with audio |
| FormatSelection.FallbackBy | src/utils/ytdlp.js:429-434 | for any sort key and any test, when nothing passes and some format has audio, the head of the list is a format with audio with the largest key among them |
| FormatSelection.FallbackIsHighestWithAudio | src/utils/ytdlp.js:429-434 | when nothing fits and some format has audio, the answer is the highest format with audio |
| SelectionExamples.HeightKeyOf | src/utils/ytdlp.js:367-370 | a format with resolution `"WxH"` sorts by H |
| SelectionExamples.PreferredHeightOf | src/utils/ytdlp.js:418 | quality `"Np"` gives preferred height N |
| SelectionExamples.Quality1080 | src/utils/ytdlp.js:418 | `1080p` gives preferred height 1080 |
| SelectionExamples.Quality480 | src/utils/ytdlp.js:418 | `480p` gives preferred height 480 |
| SelectionExamples.TallHeight | src/utils/ytdlp.js:367-370 | `3840x2160` has height 2160 |
| SelectionExamples.MidHeight | src/utils/ytdlp.js:367-370 | `1280x720` has height 720 |
| SelectionExamples.PrefersAudioWithinRange | src/utils/ytdlp.js:384-427 | of a 2160p video-only, a 720p combined and a 480p combined format, quality `1080p` selects the 720p one |
| SelectionExamples.FallbackIsNotHighestOverall | src/utils/ytdlp.js:429-434 | of a 720p combined and a 2160p video-only format, quality `480p` selects the 720p one, though the other is higher |
| VideoDownload.FormatSelectorAlternatives | src/utils/ytdlp.js:155 | for a quality without `/`, the selector reads as three alternatives, tried left to right: merged streams up to the cap, one file up to the cap, then `best`; the cap is the quality without its first `p` |
| VideoDownload.DownloadVideoDynamic | src/utils/ytdlp.js:138-147 | the merged download is requested first and its outcome returned when it resolves; only when it rejects is the `best` download requested, and its outcome returned |
| SearchRoute.ClampLimitBounds | src/routes/api.js:12 | the limit is NaN exactly when `parseInt` reads no digit, otherwise lies in [1, 50], and is unchanged when already in range |
| SearchRoute.ClampLimitOfDigits | src/routes/api.js:12 | a decimal limit is its value brought into [1, 50] |
| SearchRoute.ClampLimitDefault | src/routes/api.js:12 | a missing or empty limit gives 12 |
| SearchRoute.QueryMissingIff | src/routes/api.js:23 | the query is rejected exactly when it is absent or all white space |
| SearchRoute.ProjectSpec | src/routes/api.js:42-51 | the results are the items with an id, in order, one video each; every video has an id and non-empty duration, views and publication text |
| SearchRoute.ResponseForSpec | src/routes/api.js:42-75 | a reply that did not throw gives a page of the projected items, with `hasMore` exactly when a non-empty next-page token came back; a throw gives 500 |
| SearchRoute.Search | src/routes/api.js:9-76 | a missing query answers 400 and calls nothing; otherwise exactly one call is made (next page when a token is given, else keyword search), and the answer is built from its reply |
| DownloadRoute.SafeTitleChars | src/routes/api.js:156 | the sanitised title holds only ASCII word characters, white space and `-`, and neither starts nor ends with white space |
| DownloadRoute.SafeTitleKeeps | src/routes/api.js:156 | every allowed non-space character of the title survives |
| DownloadRoute.SafeTitleEmptyIff | src/routes/api.js:156 | the sanitised title is empty exactly when the title has no allowed character other than white space |
| DownloadRoute.UnsafeTitlesShareFile | src/routes/api.js:156-158 | two titles without allowed non-space characters give the same file path |
| DownloadRoute.SafeTitleIdempotent | src/routes/api.js:239 | sanitising twice equals sanitising once |
| DownloadRoute.FileStaysInFolder | src/routes/api.js:157-158 | the path's components are the folder's followed by one file name, whatever the title |
| DownloadRoute.ResolveTitle | src/routes/api.js:146-154 | a non-empty `title` parameter wins; else the trimmed text the lookup printed; else, when the lookup threw, the video id |
| DownloadRoute.LookUpTitle | src/routes/api.js:146-154 | the title is looked up, once and for the watch URL, exactly when the `title` parameter is missing or empty, and the title is the one `ResolveTitle` gives for what the lookup printed |
| DownloadRoute.PreferredQuality | src/routes/api.js:251-254 | an absent quality or `highest` gives `1080p`; any other value passes through unchanged |
| DownloadRoute.ClassifyFallback | src/routes/api.js:193-202 | when no rule's text occurs in the message, classification gives the fallback |
| DownloadRoute.ClassifyFirstMatch | src/routes/api.js:193-202 | when rule i matches and no earlier rule does, classification gives rule i's message |
| DownloadRoute.ClassifyError | src/routes/api.js:282-291 | the if-chain computes the table classification over the four rules in their order |
| DownloadRoute.NotCreatedIsUnclassified | src/routes/api.js:186-202 | the missing-file error matches no rule, so the user gets the fallback message |
| DownloadRoute.DownloadAudio | src/routes/api.js:129-209 | an empty id gives 400 and calls nothing. Otherwise the title is looked up exactly when `title` is missing or empty, before the cache check, and the file name comes from the resolved title. A cached file is served with no download. Otherwise one download is requested: a rejection gives 500 with the classified message; a created file is served with a 5-minute clean-up; a missing file gives 500 with the fallback message |
| DownloadRoute.DownloadVideo | src/routes/api.js:212-298 | the same for video, with the same title lookup, with the mapped quality, the merged-then-`best` downloads, and a 10-minute clean-up |
| CleanupRoute.Folder.Clear | src/routes/api.js:345-353 | after the loop only `.gitkeep` can remain, and the count is the number of other files listed |
| CleanupRoute.CleanupKindCases | src/routes/api.js:338-356 | an absent `type` clears both folders; something is cleared exactly for `all`, `audio` or `video` |
| CleanupRoute.DecimalTextValue | src/routes/api.js:369 | the digits written for a count denote the count |
| CleanupRoute.DeletedMessageCount | src/routes/api.js:369 | `parseInt` of the message after its prefix gives back the count |
| CleanupRoute.Cleanup | src/routes/api.js:336-380 | each selected folder keeps only `.gitkeep` and the others are untouched; the count sums the selected folders' other files; the message carries the count |

## Left out

- **The `yt-dlp` process:** spawning it, its arguments other than the format selector and output path, stdout and stderr handling, progress parsing with `parseFloat`, and the exit-code error message. A download is a parameter that maps its request to its outcome.
- **`getVideoInfo`, the `/video/:videoId` endpoint and the `/formats/:videoId` endpoint:** they parse JSON from the tool or pass the parser's result straight through.
- **The search library, JSON parsing of `pageContext`, Express routing, `res.download` and `fs-extra`:** they are replaced by parameters and sets of paths. A route parameter is never empty in Express, but the handlers' 400 branch is kept.
- **The `cleanupFile` timer and its race with new downloads:** the handlers only record the timer they schedule.
- **Failures of `readdir` and `unlink` in the clean-up endpoint:** the 500 answer is not modelled. A folder is a set of names, so listing order and duplicates are not modelled.
- **`server.js` and `ecosystem.config.js`:** server set-up and process-manager configuration, with no logic of the core.
- **Paths:** they are written relative to the project root as `/`-joined components. The `__dirname` prefix is not modelled.
- **Strings:** a character is a Unicode scalar value, while JavaScript strings are sequences of UTF-16 code units. The difference does not show here: every character class the code tests (`\d`, `\w`, `\s`, the line terminators and the literal letters) is made of single code units, and `\w` and `\s` follow the regular expressions without the `u` flag.
- **Query values that are not strings:** every query parameter is taken to be absent or a string. Express can also give an array or an object (`?q=a&q=b`). Then `q.trim` (src/routes/api.js:23) or `videoTitle.replace` (src/routes/api.js:156, 239) is not a function, the handler throws and answers 500. A non-string `quality` makes `preferredQuality.replace` (src/utils/ytdlp.js:155) throw inside the merged download's promise, which rejects and triggers the `best` retry.
- **Number sizes:** integers are unbounded. Heights and limits are far below 2^53, where JavaScript numbers stay exact.
- FormatSelection.HeightKey: a format whose height is `NaN` sorts as height 0. In JavaScript, the comparator returns `NaN` for such a format, and `sort` reads that as a tie with every other format. The comparator is then inconsistent. The order of the whole group that holds such a format is implementation-defined, not only its head. Take an audio group in input order `1280x720`, then a format whose height is `NaN`, then `1920x1080`: a run-detecting sort can leave it in that order, and then quality `1080p` selects the 720p format. The model sorts one way that JavaScript may or may not choose.
- FormatSelection.CombinedShape: the sortedness and stability of each group hold for the program only when no format of that group has a `NaN` height. The membership of the groups and the audio-first order hold always.
- FormatSelection.HighestFittingBy: applied to the program's sort, it holds only when no format with audio has a `NaN` height (see HeightKey above).
- FormatSelection.PrefersHighestFittingWithAudio: holds for the program only when no format with audio has a `NaN` height. Otherwise the audio group's order, and so the format picked, is implementation-defined.
- FormatSelection.FallbackBy: applied to the program's sort, it holds only when no format with audio has a `NaN` height.
- FormatSelection.FallbackIsHighestWithAudio: holds for the program only when no format with audio has a `NaN` height. Otherwise the head of the audio group is implementation-defined.
- VideoDownload.FormatSelectorAlternatives: states the three-alternative reading only for a quality without `/`. The quality is the client's unchecked `quality` query value (src/routes/api.js:215, 251-254), so a `/` in it adds alternatives of the client's choosing to the selector; the model builds the same selector string but does not say what yt-dlp then does.
- JsArray.SortDesc: `sort` reorders the filtered arrays in place. The model works on values, because the arrays are fresh copies made by `filter`.
