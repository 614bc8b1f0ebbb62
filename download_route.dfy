/**
 * The two download endpoints (src/routes/api.js, GET /download/audio/:videoId
 * and GET /download/video/:videoId): the file name made from the video's
 * title, the quality mapping, the cache hit that serves an existing file
 * without downloading, the check that the download produced the file, the
 * clean-up timer, and the classification of a failure into a user-facing
 * message. The downloader, the title lookup and the file system are
 * parameters: the downloader a function from the request to the outcome of
 * its promise, the title lookup the text it printed (or nothing when it
 * threw), the file system the sets of paths that exist before and after the
 * download.
 */
module DownloadRoute {
  import opened Wrappers
  import opened JsText
  import opened JsArray
  import opened VideoDownload

  /** `[\w\s-]`: the characters a title keeps. */
  predicate IsTitleChar(c: char)
  {
    IsWordChar(c) || IsSpace(c) || c == '-'
  }

  /** `title.replace(/[^\w\s-]/g, '').trim()` */
  function SafeTitle(title: string): string
  {
    Trim(Filter(title, IsTitleChar))
  }

  /**
   * The safe title holds only letters, digits, `_`, `-` and white space, and
   * never starts or ends with white space.
   */
  lemma SafeTitleChars(title: string)
    ensures forall c | c in SafeTitle(title) :: IsTitleChar(c)
    ensures var r := SafeTitle(title); r == [] || (!IsSpace(r[0]) && !IsSpace(r[|r| - 1]))
  {
    TrimKeeps(Filter(title, IsTitleChar));
    TrimSpec(Filter(title, IsTitleChar));
  }

  /** Every kept character that is not white space survives: only the unsafe ones and the white space at the ends go. */
  lemma SafeTitleKeeps(title: string)
    ensures forall c | c in title && IsTitleChar(c) && !IsSpace(c) :: c in SafeTitle(title)
  {
    TrimKeeps(Filter(title, IsTitleChar));
  }

  /** A title gives an empty file stem exactly when it has no safe character other than white space. */
  lemma SafeTitleEmptyIff(title: string)
    ensures SafeTitle(title) == "" <==> forall c | c in title :: !IsTitleChar(c) || IsSpace(c)
  {
    SafeTitleKeeps(title);
    var kept := Filter(title, IsTitleChar);
    TrimEmptyIff(kept);
  }

  /**
   * Two titles written without any ASCII letter, digit, `_` or `-` (a title
   * in Japanese, say) both sanitise to the empty name, so their videos are
   * stored under the same file and the cache check serves one for the other.
   */
  lemma UnsafeTitlesShareFile(a: string, b: string, ext: string)
    requires forall c | c in a :: !IsTitleChar(c) || IsSpace(c)
    requires forall c | c in b :: !IsTitleChar(c) || IsSpace(c)
    ensures SafeTitle(a) == SafeTitle(b) == ""
    ensures FilePath(AudioDir, SafeTitle(a) + ext) == FilePath(AudioDir, SafeTitle(b) + ext)
  {
    SafeTitleEmptyIff(a);
    SafeTitleEmptyIff(b);
  }

  /** Sanitising a sanitised title changes nothing. */
  lemma SafeTitleIdempotent(title: string)
    ensures SafeTitle(SafeTitle(title)) == SafeTitle(title)
  {
    var kept := Filter(title, IsTitleChar);
    SafeTitleChars(title);
    FilterAllPass(Trim(kept), IsTitleChar);
    TrimIdempotent(kept);
  }

  /** A path inside the project: its directory's components and the file name, joined with `/`. */
  function FilePath(dir: seq<string>, name: string): string
  {
    Join(dir + [name], '/')
  }

  const AudioDir: seq<string> := ["downloads", "audio"]
  const VideoDir: seq<string> := ["downloads", "video"]

  /**
   * Whatever the title, the file lands directly in its folder: the path's
   * components are the folder's followed by one file name.
   */
  lemma FileStaysInFolder(dir: seq<string>, title: string, ext: string)
    requires forall i | 0 <= i < |dir| :: '/' !in dir[i]
    requires '/' !in ext
    ensures Split(FilePath(dir, SafeTitle(title) + ext), '/') == dir + [SafeTitle(title) + ext]
  {
    SafeTitleChars(title);
    var parts := dir + [SafeTitle(title) + ext];
    assert forall i | 0 <= i < |parts| :: '/' !in parts[i];
    SplitJoin(parts, '/');
  }

  /**
   * The title used for the file: the `title` query parameter when it is
   * non-empty, else what the title lookup printed (trimmed), else, when
   * the lookup threw, the video id.
   */
  function ResolveTitle(title: Option<string>, printedTitle: Option<string>, videoId: string): (r: string)
    ensures Truthy(title) ==> r == title.value
    ensures !Truthy(title) && printedTitle.Some? ==> r == Trim(printedTitle.value)
    ensures !Truthy(title) && printedTitle.None? ==> r == videoId
  {
    if Truthy(title) then title.value
    else if printedTitle.Some? then Trim(printedTitle.value)
    else videoId
  }

  /** `quality` defaults to '1080p' when absent, and 'highest' stands for '1080p'. */
  function PreferredQuality(quality: Option<string>): (r: string)
    ensures quality.None? || quality == Some("highest") ==> r == "1080p"
    ensures quality.Some? && quality.value != "highest" ==> r == quality.value
  {
    var q := if quality.Some? then quality.value else "1080p";
    if q == "highest" then "1080p" else q
  }

  /** A known failure: the text that identifies it in an error message, and what the user is told. */
  datatype Rule = Rule(needle: string, message: string)

  /** The known failures, in the order the handlers test them. */
  const ErrorRules: seq<Rule> := [
    Rule("Video unavailable", "El video no está disponible o es privado."),
    Rule("Sign in to confirm your age", "El video tiene restricciones de edad."),
    Rule("Private video", "El video es privado y no se puede descargar."),
    Rule("This video is not available", "Este video no está disponible en tu región.")
  ]

  /** The message of the first rule whose text the error message contains, else the fallback. */
  function Classify(rules: seq<Rule>, message: string, fallback: string): string
  {
    if rules == [] then fallback
    else if Contains(message, rules[0].needle) then rules[0].message
    else Classify(rules[1..], message, fallback)
  }

  /** Classification answers the fallback when no rule matches. */
  lemma {:induction false} ClassifyFallback(rules: seq<Rule>, message: string, fallback: string)
    requires forall i | 0 <= i < |rules| :: !Contains(message, rules[i].needle)
    ensures Classify(rules, message, fallback) == fallback
  {
    if rules != [] {
      assert forall i | 1 <= i < |rules| :: rules[1..][i - 1] == rules[i];
      ClassifyFallback(rules[1..], message, fallback);
    }
  }

  /** Classification answers the message of the earliest matching rule. */
  lemma {:induction false} ClassifyFirstMatch(rules: seq<Rule>, message: string, fallback: string, i: nat)
    requires i < |rules| && Contains(message, rules[i].needle)
    requires forall j | 0 <= j < i :: !Contains(message, rules[j].needle)
    ensures Classify(rules, message, fallback) == rules[i].message
  {
    if i > 0 {
      assert !Contains(message, rules[0].needle);
      assert forall j | 0 <= j < i - 1 :: rules[1..][j] == rules[j + 1];
      ClassifyFirstMatch(rules[1..], message, fallback, i - 1);
    }
  }

  /** The error-message chain of both handlers' `catch` blocks. */
  method ClassifyError(message: string, fallback: string) returns (errorMessage: string)
    ensures errorMessage == Classify(ErrorRules, message, fallback)
  {
    assert ErrorRules[0].needle == "Video unavailable" && ErrorRules[1].needle == "Sign in to confirm your age";
    assert ErrorRules[2].needle == "Private video" && ErrorRules[3].needle == "This video is not available";
    errorMessage := fallback;
    if Contains(message, "Video unavailable") {
      errorMessage := "El video no está disponible o es privado.";
      ClassifyFirstMatch(ErrorRules, message, fallback, 0);
    } else if Contains(message, "Sign in to confirm your age") {
      errorMessage := "El video tiene restricciones de edad.";
      ClassifyFirstMatch(ErrorRules, message, fallback, 1);
    } else if Contains(message, "Private video") {
      errorMessage := "El video es privado y no se puede descargar.";
      ClassifyFirstMatch(ErrorRules, message, fallback, 2);
    } else if Contains(message, "This video is not available") {
      errorMessage := "Este video no está disponible en tu región.";
      ClassifyFirstMatch(ErrorRules, message, fallback, 3);
    } else {
      ClassifyFallback(ErrorRules, message, fallback);
    }
  }

  /** The error a handler throws when the download settled but left no file. */
  const NotCreated := "El archivo no se creó correctamente"

  /** A message cannot contain a text whose first character it lacks. */
  lemma MissingFirstChar(message: string, needle: string)
    requires needle != [] && forall i | 0 <= i < |message| :: message[i] != needle[0]
    ensures !Contains(message, needle)
  {
    if Contains(message, needle) {
      ContainsPrefixOfNeedle(message, needle, [needle[0]]);
      ContainsCharIff(message, needle[0]);
    }
  }

  /** The missing-file error has none of the capitals the rules' texts start with. */
  lemma NotCreatedCapitals(m: string)
    requires m == NotCreated
    ensures forall i | 0 <= i < |m| :: m[i] != 'V' && m[i] != 'S' && m[i] != 'P' && m[i] != 'T'
  {
  }

  /** The missing-file error matches no rule, so the user gets the handler's fallback message. */
  lemma NotCreatedIsUnclassified(fallback: string)
    ensures Classify(ErrorRules, NotCreated, fallback) == fallback
  {
    NotCreatedCapitals(NotCreated);
    forall i | 0 <= i < |ErrorRules|
      ensures !Contains(NotCreated, ErrorRules[i].needle)
    {
      MissingFirstChar(NotCreated, ErrorRules[i].needle);
    }
    ClassifyFallback(ErrorRules, NotCreated, fallback);
  }

  /** `https://www.youtube.com/watch?v=${videoId}` */
  function WatchUrl(videoId: string): string
  {
    "https://www.youtube.com/watch?v=" + videoId
  }

  /**
   * The title both handlers start from: `title` when it is non-empty, else
   * what getTitle printed for the URL, else, when it threw, the video id.
   * Only a missing or empty `title` makes the handler look the title up.
   */
  method LookUpTitle(videoUrl: string, title: Option<string>, videoId: string, lookupTitle: string -> Option<string>)
    returns (videoTitle: string, titleLookups: seq<string>)
    ensures videoTitle == ResolveTitle(title, lookupTitle(videoUrl), videoId)
    ensures titleLookups == if Truthy(title) then [] else [videoUrl]
  {
    var printedTitle := None;
    titleLookups := [];
    if !Truthy(title) {
      titleLookups := [videoUrl];
      printedTitle := lookupTitle(videoUrl);
    }
    videoTitle := ResolveTitle(title, printedTitle, videoId);
  }

  /** The attempts of downloadVideoDynamic as one list: the merged one, then the retry only when it failed. */
  lemma AttemptsInOrder(requests: seq<Request>, result: Outcome, merged: Request, retry: Request, run: Request -> Outcome)
    requires 1 <= |requests| <= 2 && requests[0] == merged && (|requests| == 2 <==> run(merged).Rejected?)
    requires |requests| == 1 ==> result == run(merged)
    requires |requests| == 2 ==> requests[1] == retry && result == run(retry)
    ensures requests == if run(merged).Rejected? then [merged, retry] else [merged]
    ensures result == if run(merged).Rejected? then run(retry) else run(merged)
  {
  }

  /** What a handler sends. */
  datatype Response =
    | BadRequest(error: string)
    | SendFile(path: string, filename: string)
    | ServerError(error: string, message: string)

  /** A `cleanupFile` call: the file to delete once the delay has passed. */
  datatype Timer = Timer(path: string, delayMs: nat)

  /** The arguments of `downloadAudio` that vary: the output template and the URL. */
  datatype AudioRequest = AudioRequest(outputPath: string, url: string)

  const MissingId := "ID de video requerido"

  /**
   * GET /download/audio/:videoId. `lookupTitle` is getTitle: what it printed
   * for a URL, or None when it threw. `existing` and `created` are the paths
   * that exist when the handler looks before and after downloading;
   * `titleLookups` lists the URLs whose title was looked up, `downloads` the
   * downloads started and `timers` the clean-ups scheduled.
   */
  method DownloadAudio(videoId: string, title: Option<string>, lookupTitle: string -> Option<string>,
                       existing: set<string>, created: set<string>, run: AudioRequest -> Outcome)
    returns (response: Response, titleLookups: seq<string>, downloads: seq<AudioRequest>, timers: seq<Timer>)
    ensures videoId == "" ==> response == BadRequest(MissingId) && titleLookups == [] && downloads == [] && timers == []
    ensures videoId != "" ==> titleLookups == if Truthy(title) then [] else [WatchUrl(videoId)]
    ensures videoId != "" ==>
      var safe := SafeTitle(ResolveTitle(title, lookupTitle(WatchUrl(videoId)), videoId));
      var final := FilePath(AudioDir, safe + ".mp3");
      var request := AudioRequest(FilePath(AudioDir, safe + ".%(ext)s"), WatchUrl(videoId));
      && (final in existing ==> response == SendFile(final, safe + ".mp3") && downloads == [] && timers == [])
      && (final !in existing ==> downloads == [request])
      && (final !in existing && run(request).Rejected? ==>
            && response == ServerError("Error descargando audio",
                 Classify(ErrorRules, run(request).message, "No se pudo descargar el audio del video"))
            && timers == [])
      && (final !in existing && run(request).Resolved? && final in created ==>
            response == SendFile(final, safe + ".mp3") && timers == [Timer(final, 300000)])
      && (final !in existing && run(request).Resolved? && final !in created ==>
            response == ServerError("Error descargando audio", "No se pudo descargar el audio del video") && timers == [])
  {
    titleLookups, downloads, timers := [], [], [];
    if videoId == "" {
      return BadRequest(MissingId), titleLookups, downloads, timers;
    }
    var videoUrl := WatchUrl(videoId);
    var videoTitle;
    videoTitle, titleLookups := LookUpTitle(videoUrl, title, videoId, lookupTitle);
    var safeTitle := SafeTitle(videoTitle);
    var audioPath := FilePath(AudioDir, safeTitle + ".%(ext)s");
    var finalAudioPath := FilePath(AudioDir, safeTitle + ".mp3");
    if finalAudioPath in existing {
      return SendFile(finalAudioPath, safeTitle + ".mp3"), titleLookups, downloads, timers;
    }
    var request := AudioRequest(audioPath, videoUrl);
    downloads := [request];
    var result := run(request);
    var failure: string;
    if result.Resolved? {
      if finalAudioPath in created {
        timers := [Timer(finalAudioPath, 300000)];
        return SendFile(finalAudioPath, safeTitle + ".mp3"), titleLookups, downloads, timers;
      }
      failure := NotCreated;
      NotCreatedIsUnclassified("No se pudo descargar el audio del video");
    } else {
      failure := result.message;
    }
    var errorMessage := ClassifyError(failure, "No se pudo descargar el audio del video");
    response := ServerError("Error descargando audio", errorMessage);
  }

  /**
   * GET /download/video/:videoId, in the terms of DownloadAudio. The
   * download goes through downloadVideoDynamic, so `downloads` holds the
   * merged attempt and, when that one fails, the plain `best` retry; the
   * handler's outcome is that of the last attempt.
   */
  method DownloadVideo(videoId: string, quality: Option<string>, title: Option<string>, lookupTitle: string -> Option<string>,
                       existing: set<string>, created: set<string>, run: Request -> Outcome)
    returns (response: Response, titleLookups: seq<string>, downloads: seq<Request>, timers: seq<Timer>)
    ensures videoId == "" ==> response == BadRequest(MissingId) && titleLookups == [] && downloads == [] && timers == []
    ensures videoId != "" ==> titleLookups == if Truthy(title) then [] else [WatchUrl(videoId)]
    ensures videoId != "" ==>
      var safe := SafeTitle(ResolveTitle(title, lookupTitle(WatchUrl(videoId)), videoId));
      var final := FilePath(VideoDir, safe + ".mp4");
      var template := FilePath(VideoDir, safe + ".%(ext)s");
      var merged := Request(FormatSelector(PreferredQuality(quality)), template, WatchUrl(videoId));
      var retry := Request("best", template, WatchUrl(videoId));
      var outcome := if run(merged).Rejected? then run(retry) else run(merged);
      && (final in existing ==> response == SendFile(final, safe + ".mp4") && downloads == [] && timers == [])
      && (final !in existing ==> downloads == if run(merged).Rejected? then [merged, retry] else [merged])
      && (final !in existing && outcome.Rejected? ==>
            && response == ServerError("Error descargando video",
                 Classify(ErrorRules, outcome.message, "No se pudo descargar el video"))
            && timers == [])
      && (final !in existing && outcome.Resolved? && final in created ==>
            response == SendFile(final, safe + ".mp4") && timers == [Timer(final, 600000)])
      && (final !in existing && outcome.Resolved? && final !in created ==>
            response == ServerError("Error descargando video", "No se pudo descargar el video") && timers == [])
  {
    titleLookups, downloads, timers := [], [], [];
    if videoId == "" {
      return BadRequest(MissingId), titleLookups, downloads, timers;
    }
    var videoUrl := WatchUrl(videoId);
    var videoTitle;
    videoTitle, titleLookups := LookUpTitle(videoUrl, title, videoId, lookupTitle);
    var safeTitle := SafeTitle(videoTitle);
    var videoPath := FilePath(VideoDir, safeTitle + ".%(ext)s");
    var finalVideoPath := FilePath(VideoDir, safeTitle + ".mp4");
    if finalVideoPath in existing {
      return SendFile(finalVideoPath, safeTitle + ".mp4"), titleLookups, downloads, timers;
    }
    var preferredQuality := PreferredQuality(quality);
    var result;
    result, downloads := DownloadVideoDynamic(videoUrl, videoPath, preferredQuality, run);
    AttemptsInOrder(downloads, result, Request(FormatSelector(preferredQuality), videoPath, videoUrl),
      Request("best", videoPath, videoUrl), run);
    var failure: string;
    if result.Resolved? {
      if finalVideoPath in created {
        timers := [Timer(finalVideoPath, 600000)];
        return SendFile(finalVideoPath, safeTitle + ".mp4"), titleLookups, downloads, timers;
      }
      failure := NotCreated;
      NotCreatedIsUnclassified("No se pudo descargar el video");
    } else {
      failure := result.message;
    }
    var errorMessage := ClassifyError(failure, "No se pudo descargar el video");
    response := ServerError("Error descargando video", errorMessage);
  }
}
