/**
 * Video downloads (src/utils/ytdlp.js): the yt-dlp format selector built
 * from the preferred quality, and downloadVideoDynamic, which tries the
 * merged best-video-plus-best-audio download first and retries with the
 * plain `best` selector only when that attempt fails. The yt-dlp process is
 * a parameter: a function from the request it is given to the outcome of
 * the promise that wraps it.
 */
module VideoDownload {
  import opened JsText

  /** What a download promise settles to: the output path, or an error message. */
  datatype Outcome = Resolved(path: string) | Rejected(message: string)

  /** The arguments that vary between downloads: `--format`, `--output` and the URL. */
  datatype Request = Request(format: string, outputPath: string, url: string)

  /** `preferredQuality.replace('p', '')`, the height cap written into the selector. */
  function HeightCap(preferredQuality: string): string
  {
    RemoveFirst(preferredQuality, 'p')
  }

  /** The first alternative: best video stream up to the cap, merged with the best audio stream. */
  function MergedAlternative(cap: string): string
  {
    "bestvideo[height<=" + cap + "]+bestaudio"
  }

  /** The second alternative: the best single file up to the cap. */
  function CappedAlternative(cap: string): string
  {
    "best[height<=" + cap + "]"
  }

  /**
   * The selector string of downloadVideoWithSeparateAudio:
   * `bestvideo[height<=CAP]+bestaudio/best[height<=CAP]/best`.
   */
  function FormatSelector(preferredQuality: string): string
  {
    var cap := HeightCap(preferredQuality);
    MergedAlternative(cap) + "/" + CappedAlternative(cap) + "/" + "best"
  }

  /**
   * For a quality without `/`, the selector reads as three alternatives
   * which yt-dlp tries left to right: merged streams up to the cap, a single
   * file up to the cap, and finally `best` with no cap at all.
   */
  lemma FormatSelectorAlternatives(preferredQuality: string)
    requires '/' !in preferredQuality
    ensures var cap := HeightCap(preferredQuality);
      Split(FormatSelector(preferredQuality), '/') == [MergedAlternative(cap), CappedAlternative(cap), "best"]
  {
    var cap := HeightCap(preferredQuality);
    RemoveFirstKeepsOut(preferredQuality, 'p', '/');
    var a := MergedAlternative(cap);
    var b := CappedAlternative(cap);
    AlternativesHaveNoSlash(cap);
    assert FormatSelector(preferredQuality) == a + ['/'] + (b + ['/'] + "best");
    SplitAtFirstSeparator(a, '/', b + ['/'] + "best");
    SplitInTwo(b, '/', "best");
  }

  lemma AlternativesHaveNoSlash(cap: string)
    requires '/' !in cap
    ensures '/' !in MergedAlternative(cap) && '/' !in CappedAlternative(cap)
  {
    assert '/' !in "bestvideo[height<=" && '/' !in "]+bestaudio";
    assert '/' !in "best[height<=" && '/' !in "]";
  }

  /**
   * downloadVideoDynamic: request the merged download; if its promise
   * rejects, request the `best` download instead. `requests` lists the
   * downloads started, in order.
   */
  method DownloadVideoDynamic(url: string, outputPath: string, preferredQuality: string, run: Request -> Outcome)
    returns (result: Outcome, requests: seq<Request>)
    ensures |requests| in {1, 2}
    ensures requests[0] == Request(FormatSelector(preferredQuality), outputPath, url)
    ensures |requests| == 2 <==> run(requests[0]).Rejected?
    ensures |requests| == 1 ==> result == run(requests[0])
    ensures |requests| == 2 ==> requests[1] == Request("best", outputPath, url) && result == run(requests[1])
  {
    var merged := Request(FormatSelector(preferredQuality), outputPath, url);
    requests := [merged];
    result := run(merged);
    if result.Rejected? {
      var fallback := Request("best", outputPath, url);
      requests := requests + [fallback];
      result := run(fallback);
    }
  }
}
