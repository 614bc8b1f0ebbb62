/**
 * Reading the tables yt-dlp prints: the format table of `--list-formats`
 * (getAvailableFormats in src/utils/ytdlp.js) and the thumbnail table of
 * `--list-thumbnails` (getThumbnails). Each non-blank line is tried against
 * three anchored regular expressions, the first that matches wins, its
 * captures fill a format record, and the record is kept only when its
 * description mentions a media keyword.
 */
module FormatTable {
  import opened Wrappers
  import opened JsText

  /** One downloadable stream variant, with the flags derived from its description. */
  datatype Format = Format(
    id: string,
    resolution: string,
    ext: string,
    info: string,
    hasAudio: bool,
    hasVideo: bool,
    isVideoOnly: bool,
    isAudioOnly: bool,
    isCombined: bool)

  datatype Thumbnail = Thumbnail(id: string, url: string)

  /** The three line patterns, in the order they are tried. */
  datatype Pattern =
    | WithExtension   // ^(\d+)\s+(\d+x\d+|\d+p|\d+k|\d+)\s+(\w+)\s+(.+)$
    | ResolutionOnly  // ^(\d+)\s+(\d+x\d+|\d+p|\d+k)\s+(.+)$
    | IdOnly          // ^(\d+)\s+(.+)$

  const Patterns: seq<Pattern> := [WithExtension, ResolutionOnly, IdOnly]

  /** The character classes the patterns repeat with `+`. */
  datatype CharClass = Digit | Space | Word

  predicate InClass(c: char, cls: CharClass)
  {
    match cls
    case Digit => IsDigit(c)
    case Space => IsSpace(c)
    case Word => IsWordChar(c)
  }

  predicate AllIn(s: string, cls: CharClass)
  {
    forall i | 0 <= i < |s| :: InClass(s[i], cls)
  }

  /** Length of the longest prefix of `s` in the class: what a greedy `\d+`, `\s+` or `\w+` takes. */
  function RunOf(s: string, cls: CharClass): (n: nat)
    ensures n <= |s| && AllIn(s[..n], cls)
    ensures n < |s| ==> !InClass(s[n], cls)
    decreases |s|
  {
    if |s| > 0 && InClass(s[0], cls) then
      var n := 1 + RunOf(s[1..], cls);
      assert s[..n] == [s[0]] + s[1..][..n - 1];
      n
    else 0
  }

  /** Every character matches `.` */
  predicate NoLineTerminator(s: string)
  {
    forall i | 0 <= i < |s| :: !IsLineTerminator(s[i])
  }

  /**
   * `\s+(.+)$` matched at the start of `s`, with the backtracking of the regular
   * expression engine: `\s+` first takes all the white space and gives one
   * character back when nothing is left for `.+`. The capture of `(.+)`.
   */
  function SpacedTail(s: string): (r: Option<string>)
    ensures r.Some? ==> r.value != "" && NoLineTerminator(r.value)
    ensures r.Some? ==> |r.value| < |s| && r.value == s[|s| - |r.value|..]
  {
    var w := RunOf(s, Space);
    if w == 0 then None
    else if w < |s| then (if NoLineTerminator(s[w..]) then Some(s[w..]) else None)
    else if w >= 2 && !IsLineTerminator(s[w - 1]) then Some(s[w - 1..])
    else None
  }

  /** `\s+` can take `s[..k]` and `.+$` the rest. */
  predicate TailSplit(s: string, k: int)
  {
    1 <= k < |s| && AllIn(s[..k], Space) && NoLineTerminator(s[k..])
  }

  /** SpacedTail matches exactly when some split works, and then takes the one with the longest `\s+`. */
  lemma SpacedTailIsGreedy(s: string)
    ensures SpacedTail(s).None? ==> forall k :: !TailSplit(s, k)
    ensures SpacedTail(s).Some? ==>
      var t := SpacedTail(s).value;
      TailSplit(s, |s| - |t|) && forall k | |s| - |t| < k :: !TailSplit(s, k)
  {
    var w := RunOf(s, Space);
    assert forall k | TailSplit(s, k) :: k <= w by {
      forall k | TailSplit(s, k) && w < k
        ensures s[..k][w] == s[w]
      {
      }
    }
    if 0 < w < |s| && !NoLineTerminator(s[w..]) {
      var j :| 0 <= j < |s[w..]| && IsLineTerminator(s[w..][j]);
      assert forall k | 1 <= k <= w :: s[k..][w + j - k] == s[w + j];
    }
    if w == |s| && w >= 1 && (w < 2 || IsLineTerminator(s[w - 1])) {
      assert forall k | 1 <= k < w :: s[k..][w - 1 - k] == s[w - 1];
    }
    if w == |s| && w >= 2 && !IsLineTerminator(s[w - 1]) {
      assert AllIn(s[..w - 1], Space) by {
        assert forall i | 0 <= i < w - 1 :: s[..w - 1][i] == s[..w][i];
      }
    }
  }

  /** The resolution group `\d+x\d+|\d+p|\d+k`, and `|\d+` when `bare`, as a string. */
  predicate IsResolution(t: string, bare: bool)
  {
    || (exists i | 0 < i < |t| - 1 :: t[i] == 'x' && AllIn(t[..i], Digit) && AllIn(t[i + 1..], Digit))
    || (|t| >= 2 && AllIn(t[..|t| - 1], Digit) && (t[|t| - 1] == 'p' || t[|t| - 1] == 'k'))
    || (bare && |t| > 0 && AllIn(t, Digit))
  }

  /**
   * The resolution group matched at the start of `s`: the length it takes. At
   * most one alternative can match, since each one is told apart by the
   * character after the leading digits.
   */
  function ResolutionToken(s: string, bare: bool): (r: Option<nat>)
    ensures r.Some? ==> 0 < r.value <= |s|
  {
    var d := RunOf(s, Digit);
    if d == 0 then None
    else if d < |s| && s[d] == 'x' then
      var d2 := RunOf(s[d + 1..], Digit);
      if d2 == 0 then None else Some(d + 1 + d2)
    else if d < |s| && (s[d] == 'p' || s[d] == 'k') then Some(d + 1)
    else if bare then Some(d)
    else None
  }

  /** What the resolution group takes is a resolution. */
  lemma ResolutionTokenIsResolution(s: string, bare: bool)
    requires ResolutionToken(s, bare).Some?
    ensures IsResolution(s[..ResolutionToken(s, bare).value], bare)
  {
    var d := RunOf(s, Digit);
    if d < |s| && s[d] == 'x' {
      var d2 := RunOf(s[d + 1..], Digit);
      var t := s[..d + 1 + d2];
      assert t[..d] == s[..d] && t[d + 1..] == s[d + 1..][..d2];
    } else if d < |s| && (s[d] == 'p' || s[d] == 'k') {
      assert s[..d + 1][..d] == s[..d];
    }
  }

  /**
   * The captures of a successful match: non-empty, a numeric id first, a
   * resolution token second when the pattern has one, a word third when the
   * pattern has one, and a last capture that `.` matched throughout.
   */
  predicate WellFormedCaptures(g: seq<string>)
  {
    && 2 <= |g| <= 4
    && (forall i | 0 <= i < |g| :: g[i] != "")
    && AllIn(g[0], Digit)
    && NoLineTerminator(g[|g| - 1])
    && (|g| >= 3 ==> IsResolution(g[1], |g| == 4))
    && (|g| == 4 ==> AllIn(g[2], Word))
  }

  /**
   * `^(\d+)\s+` followed by a digit: the id and what follows the white space.
   * Since the next group starts with a digit, `\s+` takes all the white space.
   */
  function IdThenSpace(line: string): (r: Option<(string, string)>)
    ensures r.Some? ==> r.value.0 != "" && AllIn(r.value.0, Digit)
  {
    var d := RunOf(line, Digit);
    var a := line[d..];
    var s1 := RunOf(a, Space);
    if d == 0 || s1 == 0 then None else Some((line[..d], a[s1..]))
  }

  /**
   * `\s+(\w+)\s+(.+)$` at the start of `c`: the extension and the description.
   * `\s` and `\w` share no character, so each greedy run takes all it can.
   */
  function ExtensionAndTail(c: string): (r: Option<(string, string)>)
    ensures r.Some? ==> r.value.0 != "" && AllIn(r.value.0, Word)
    ensures r.Some? ==> r.value.1 != "" && NoLineTerminator(r.value.1)
  {
    var s2 := RunOf(c, Space);
    var e := c[s2..];
    var w := RunOf(e, Word);
    if s2 == 0 || w == 0 then None
    else
      match SpacedTail(e[w..])
      case None => None
      case Some(info) => Some((e[..w], info))
  }

  /** The captures of a successful match, assembled from the pieces each group matched. */
  lemma CapturesOfPieces(id: string, resolution: string, ext: Option<string>, info: string)
    requires id != "" && AllIn(id, Digit)
    requires IsResolution(resolution, ext.Some?)
    requires ext.Some? ==> ext.value != "" && AllIn(ext.value, Word)
    requires info != "" && NoLineTerminator(info)
    ensures WellFormedCaptures([id, resolution] + (if ext.Some? then [ext.value] else []) + [info])
  {
  }

  /** `^(\d+)\s+(\d+x\d+|\d+p|\d+k|\d+)\s+(\w+)\s+(.+)$`: the four captures. */
  function MatchWithExtension(line: string): (r: Option<seq<string>>)
    ensures r.Some? ==> |r.value| == 4 && WellFormedCaptures(r.value)
  {
    match IdThenSpace(line)
    case None => None
    case Some((id, b)) =>
      match ResolutionToken(b, true)
      case None => None
      case Some(n) =>
        match ExtensionAndTail(b[n..])
        case None => None
        case Some((ext, info)) =>
          ResolutionTokenIsResolution(b, true);
          CapturesOfPieces(id, b[..n], Some(ext), info);
          Some([id, b[..n]] + [ext] + [info])
  }

  /** `^(\d+)\s+(\d+x\d+|\d+p|\d+k)\s+(.+)$`: the three captures. */
  function MatchResolutionOnly(line: string): (r: Option<seq<string>>)
    ensures r.Some? ==> |r.value| == 3 && WellFormedCaptures(r.value)
  {
    match IdThenSpace(line)
    case None => None
    case Some((id, b)) =>
      match ResolutionToken(b, false)
      case None => None
      case Some(n) =>
        match SpacedTail(b[n..])
        case None => None
        case Some(info) =>
          ResolutionTokenIsResolution(b, false);
          CapturesOfPieces(id, b[..n], None, info);
          Some([id, b[..n]] + [info])
  }

  /** `^(\d+)\s+(.+)$`: the two captures. */
  function MatchIdOnly(line: string): (r: Option<seq<string>>)
    ensures r.Some? ==> |r.value| == 2 && WellFormedCaptures(r.value)
  {
    var d := RunOf(line, Digit);
    if d == 0 then None
    else
      match SpacedTail(line[d..])
      case None => None
      case Some(rest) => Some([line[..d], rest])
  }

  /** `\s+`: a non-empty run of white space. */
  predicate IsGap(s: string)
  {
    s != "" && AllIn(s, Space)
  }

  /** The captures with one gap between each two. */
  function Interleave(g: seq<string>, gaps: seq<string>): string
    requires |g| == |gaps| + 1
    decreases |gaps|
  {
    if gaps == [] then g[0] else g[0] + gaps[0] + Interleave(g[1..], gaps[1..])
  }

  /** The line is made of the captures, with a run of white space between each two. */
  ghost predicate SpansLine(g: seq<string>, line: string)
  {
    && |g| >= 1
    && exists gaps: seq<string> | |gaps| == |g| - 1 && (forall i | 0 <= i < |gaps| :: IsGap(gaps[i])) ::
         Interleave(g, gaps) == line
  }

  lemma InterleaveTwo(a: string, x: string, b: string)
    ensures Interleave([a, b], [x]) == a + x + b
  {
    assert [a, b][1..] == [b] && [x][1..] == [];
  }

  lemma InterleaveThree(a: string, x: string, b: string, y: string, c: string)
    ensures Interleave([a, b, c], [x, y]) == a + x + b + y + c
  {
    assert [a, b, c][1..] == [b, c] && [x, y][1..] == [y];
    InterleaveTwo(b, y, c);
  }

  lemma InterleaveFour(a: string, x: string, b: string, y: string, c: string, z: string, e: string)
    ensures Interleave([a, b, c, e], [x, y, z]) == a + x + b + y + c + z + e
  {
    assert [a, b, c, e][1..] == [b, c, e] && [x, y, z][1..] == [y, z];
    InterleaveThree(b, y, c, z, e);
  }

  /** Helper: three captures as the matchers assemble them, as one sequence display. */
  lemma ThreeCaptures(a: string, b: string, c: string)
    ensures [a, b] + [c] == [a, b, c]
  {
  }

  /** Helper: four captures as the matchers assemble them, as one sequence display. */
  lemma FourCaptures(a: string, b: string, c: string, e: string)
    ensures [a, b] + [c] + [e] == [a, b, c, e]
  {
  }

  /** A greedy run stops where the class ends. */
  lemma {:induction false} RunOfConcat(a: string, b: string, cls: CharClass)
    requires AllIn(a, cls) && (b == [] || !InClass(b[0], cls))
    ensures RunOf(a + b, cls) == |a|
  {
    if a == [] {
      assert a + b == b;
    } else {
      assert (a + b)[0] == a[0] && (a + b)[1..] == a[1..] + b;
      RunOfConcat(a[1..], b, cls);
    }
  }

  /** What SpacedTail captures leaves a run of white space in front of it. */
  lemma SpacedTailSplits(s: string)
    requires SpacedTail(s).Some?
    ensures var t := SpacedTail(s).value;
      IsGap(s[..|s| - |t|]) && s == s[..|s| - |t|] + t
  {
    SpacedTailIsGreedy(s);
  }

  /** White space and then a tail: SpacedTail matches, and takes the tail itself when it does not start with white space. */
  lemma SpacedTailOf(gap: string, tail: string)
    requires IsGap(gap) && tail != "" && NoLineTerminator(tail)
    ensures SpacedTail(gap + tail).Some?
    ensures !IsSpace(tail[0]) ==> SpacedTail(gap + tail) == Some(tail)
  {
    var s := gap + tail;
    assert s[..|gap|] == gap && s[|gap|..] == tail;
    assert TailSplit(s, |gap|);
    SpacedTailIsGreedy(s);
    if !IsSpace(tail[0]) {
      RunOfConcat(gap, tail, Space);
    }
  }

  /** The resolution group, followed by white space, takes exactly the resolution. */
  lemma ResolutionTokenOf(res: string, after: string, bare: bool)
    requires IsResolution(res, bare) && after != [] && IsSpace(after[0])
    ensures ResolutionToken(res + after, bare) == Some(|res|)
  {
    if i :| 0 < i < |res| - 1 && res[i] == 'x' && AllIn(res[..i], Digit) && AllIn(res[i + 1..], Digit) {
      ResolutionTokenOfDimensions(res, after, bare, i);
    } else if |res| >= 2 && AllIn(res[..|res| - 1], Digit) && (res[|res| - 1] == 'p' || res[|res| - 1] == 'k') {
      ResolutionTokenOfSuffixed(res, after, bare);
    } else {
      ResolutionTokenOfBare(res, after, bare);
    }
  }

  lemma ResolutionTokenOfDimensions(res: string, after: string, bare: bool, i: nat)
    requires 0 < i < |res| - 1 && res[i] == 'x' && AllIn(res[..i], Digit) && AllIn(res[i + 1..], Digit)
    requires after != [] && IsSpace(after[0])
    ensures ResolutionToken(res + after, bare) == Some(|res|)
  {
    DigitsBeforeSeparator(res, after, i);
    DigitsAfterSeparator(res, after, i);
    ResolutionTokenWhenDimensions(res + after, bare, i, |res| - i - 1);
  }

  lemma DigitsBeforeSeparator(res: string, after: string, i: nat)
    requires 0 < i < |res| && !InClass(res[i], Digit) && AllIn(res[..i], Digit)
    ensures RunOf(res + after, Digit) == i && (res + after)[i] == res[i]
  {
    assert res + after == res[..i] + (res[i..] + after);
    RunOfConcat(res[..i], res[i..] + after, Digit);
  }

  lemma DigitsAfterSeparator(res: string, after: string, i: nat)
    requires i < |res| && AllIn(res[i + 1..], Digit) && after != [] && !InClass(after[0], Digit)
    ensures RunOf((res + after)[i + 1..], Digit) == |res| - i - 1
  {
    assert (res + after)[i + 1..] == res[i + 1..] + after;
    RunOfConcat(res[i + 1..], after, Digit);
  }

  lemma ResolutionTokenWhenDimensions(s: string, bare: bool, d: nat, d2: nat)
    requires 0 < d < |s| && s[d] == 'x' && RunOf(s, Digit) == d && RunOf(s[d + 1..], Digit) == d2 && d2 > 0
    ensures ResolutionToken(s, bare) == Some(d + 1 + d2)
  {
    var r := ResolutionToken(s, bare);
    assert RunOf(s, Digit) == d && d < |s| && s[d] == 'x';
  }

  lemma ResolutionTokenOfSuffixed(res: string, after: string, bare: bool)
    requires |res| >= 2 && AllIn(res[..|res| - 1], Digit) && (res[|res| - 1] == 'p' || res[|res| - 1] == 'k')
    requires after != [] && IsSpace(after[0])
    ensures ResolutionToken(res + after, bare) == Some(|res|)
  {
    var s := res + after;
    assert s == res[..|res| - 1] + (res[|res| - 1..] + after);
    RunOfConcat(res[..|res| - 1], res[|res| - 1..] + after, Digit);
    ResolutionTokenWhenSuffixed(s, bare, |res| - 1);
  }

  lemma ResolutionTokenWhenSuffixed(s: string, bare: bool, d: nat)
    requires 0 < d < |s| && (s[d] == 'p' || s[d] == 'k') && RunOf(s, Digit) == d
    ensures ResolutionToken(s, bare) == Some(d + 1)
  {
  }

  lemma ResolutionTokenOfBare(res: string, after: string, bare: bool)
    requires bare && |res| > 0 && AllIn(res, Digit) && after != [] && IsSpace(after[0])
    ensures ResolutionToken(res + after, bare) == Some(|res|)
  {
    var s := res + after;
    RunOfConcat(res, after, Digit);
    assert s[|res|] == after[0];
    ResolutionTokenWhenBare(s, |res|);
  }

  lemma ResolutionTokenWhenBare(s: string, d: nat)
    requires 0 < d < |s| && IsSpace(s[d]) && RunOf(s, Digit) == d
    ensures ResolutionToken(s, true) == Some(d)
  {
  }

  /** MatchIdOnly in terms of the pieces it reads: the digits, then SpacedTail of the rest. */
  lemma MatchIdOnlyParts(line: string)
    ensures var d := RunOf(line, Digit);
      MatchIdOnly(line) == if d == 0 || SpacedTail(line[d..]).None? then None
        else Some([line[..d], SpacedTail(line[d..]).value])
  {
  }

  /** Pattern 3 matches only a line made of its two captures with white space between them. */
  lemma MatchIdOnlySound(line: string)
    ensures MatchIdOnly(line).Some? ==> SpansLine(MatchIdOnly(line).value, line)
  {
    MatchIdOnlyParts(line);
    var d := RunOf(line, Digit);
    if d > 0 && SpacedTail(line[d..]).Some? {
      var s := line[d..];
      var t := SpacedTail(s).value;
      SpacedTailSplits(s);
      var gap := s[..|s| - |t|];
      Recompose(line, d, gap, t);
      TwoCapturesSpan(line[..d], gap, t, line);
    }
  }

  lemma TwoCapturesSpan(a: string, x: string, b: string, line: string)
    requires IsGap(x) && line == a + x + b
    ensures SpansLine([a, b], line)
  {
    InterleaveTwo(a, x, b);
    assert forall i | 0 <= i < |[x]| :: IsGap([x][i]);
  }

  lemma ThreeCapturesSpan(a: string, x: string, b: string, y: string, c: string, line: string, rest: string)
    requires IsGap(x) && IsGap(y) && line == a + x + rest && rest == b + y + c
    ensures SpansLine([a, b] + [c], line)
  {
    assert line == a + x + b + y + c;
    ThreeCaptures(a, b, c);
    InterleaveThree(a, x, b, y, c);
    assert forall i | 0 <= i < |[x, y]| :: IsGap([x, y][i]);
  }

  lemma FourCapturesSpan(a: string, x: string, b: string, y: string, c: string, z: string, e: string,
                         line: string, rest: string, after: string)
    requires IsGap(x) && IsGap(y) && IsGap(z) && line == a + x + rest && rest == b + after && after == y + c + z + e
    ensures SpansLine([a, b] + [c] + [e], line)
  {
    assert line == a + x + b + y + c + z + e;
    FourCaptures(a, b, c, e);
    InterleaveFour(a, x, b, y, c, z, e);
    assert forall i | 0 <= i < |[x, y, z]| :: IsGap([x, y, z][i]);
  }

  /**
   * Pattern 3 matches every line made of a numeric id, white space and a
   * tail, and captures the id and the tail when the tail does not itself
   * start with white space.
   */
  lemma MatchIdOnlyComplete(id: string, gap: string, tail: string)
    requires id != "" && AllIn(id, Digit) && IsGap(gap) && tail != "" && NoLineTerminator(tail)
    ensures MatchIdOnly(id + gap + tail).Some?
    ensures !IsSpace(tail[0]) ==> MatchIdOnly(id + gap + tail) == Some([id, tail])
  {
    var line := id + gap + tail;
    assert line == id + (gap + tail);
    assert (gap + tail)[0] == gap[0];
    RunOfConcat(id, gap + tail, Digit);
    assert line[..|id|] == id && line[|id|..] == gap + tail;
    SpacedTailOf(gap, tail);
    MatchIdOnlyParts(line);
  }

  /** IdThenSpace in terms of the two runs it reads. */
  lemma IdThenSpaceParts(line: string)
    ensures var d := RunOf(line, Digit);
      var s1 := RunOf(line[d..], Space);
      IdThenSpace(line) == if d == 0 || s1 == 0 then None else Some((line[..d], line[d..][s1..]))
  {
  }

  /** The id and the white space after it, when the line starts that way. */
  lemma IdThenSpaceOf(id: string, gap: string, rest: string)
    requires id != "" && AllIn(id, Digit) && IsGap(gap) && rest != [] && !IsSpace(rest[0])
    ensures IdThenSpace(id + gap + rest) == Some((id, rest))
  {
    var line := id + gap + rest;
    assert line == id + (gap + rest);
    assert (gap + rest)[0] == gap[0];
    RunOfConcat(id, gap + rest, Digit);
    assert line[..|id|] == id && line[|id|..] == gap + rest;
    RunOfConcat(gap, rest, Space);
    assert (gap + rest)[|gap|..] == rest;
    IdThenSpaceParts(line);
  }

  /** The pieces IdThenSpace consumed: the id, then white space. */
  lemma IdThenSpaceSplits(line: string)
    requires IdThenSpace(line).Some?
    ensures exists gap | IsGap(gap) :: line == IdThenSpace(line).value.0 + gap + IdThenSpace(line).value.1
  {
    IdThenSpaceParts(line);
    var d := RunOf(line, Digit);
    var a := line[d..];
    var s1 := RunOf(a, Space);
    assert IsGap(a[..s1]);
    assert line == line[..d] + a[..s1] + a[s1..];
  }

  /** Helper: a string is its prefix up to `k` followed by the rest. */
  lemma SplitAt(s: string, k: nat)
    requires k <= |s|
    ensures s == s[..k] + s[k..]
  {
  }

  /** A string is its prefix followed by what its suffix is made of. */
  lemma Recompose(b: string, n: nat, x: string, t: string)
    requires n <= |b| && b[n..] == x + t
    ensures b == b[..n] + x + t
  {
    assert b == b[..n] + b[n..];
  }

  lemma RecomposeTwice(c: string, s2: nat, w: nat, y: string, t: string)
    requires s2 <= |c| && w <= |c| - s2 && c[s2..][w..] == y + t
    ensures c == c[..s2] + c[s2..][..w] + y + t
  {
    var e := c[s2..];
    assert e == e[..w] + e[w..];
    assert c == c[..s2] + e;
  }

  /** MatchResolutionOnly in terms of the pieces it reads. */
  lemma MatchResolutionOnlyParts(line: string, id: string, b: string, n: nat)
    requires IdThenSpace(line) == Some((id, b)) && ResolutionToken(b, false) == Some(n)
    ensures MatchResolutionOnly(line) ==
      if SpacedTail(b[n..]).None? then None else Some([id, b[..n]] + [SpacedTail(b[n..]).value])
  {
  }

  /** Pattern 2 matches only a line made of its three captures with white space between them. */
  lemma MatchResolutionOnlySound(line: string)
    ensures MatchResolutionOnly(line).Some? ==> SpansLine(MatchResolutionOnly(line).value, line)
  {
    if MatchResolutionOnly(line).Some? {
      var (id, b) := IdThenSpace(line).value;
      IdThenSpaceSplits(line);
      var gap1 :| IsGap(gap1) && line == id + gap1 + b;
      var n := ResolutionToken(b, false).value;
      MatchResolutionOnlyParts(line, id, b, n);
      var c := b[n..];
      var t := SpacedTail(c).value;
      SpacedTailSplits(c);
      var gap2 := c[..|c| - |t|];
      Recompose(b, n, gap2, t);
      ThreeCapturesSpan(id, gap1, b[..n], gap2, t, line, b);
    }
  }

  /**
   * Pattern 2 matches every line made of a numeric id, a resolution
   * (`WxH`, `Np` or `Nk`) and a tail, with white space between them.
   */
  lemma MatchResolutionOnlyComplete(id: string, gap1: string, res: string, gap2: string, tail: string)
    requires id != "" && AllIn(id, Digit) && IsGap(gap1) && IsResolution(res, false)
    requires IsGap(gap2) && tail != "" && NoLineTerminator(tail)
    ensures MatchResolutionOnly(id + gap1 + res + gap2 + tail).Some?
    ensures !IsSpace(tail[0]) ==> MatchResolutionOnly(id + gap1 + res + gap2 + tail) == Some([id, res, tail])
  {
    var line := id + gap1 + res + gap2 + tail;
    var rest := res + (gap2 + tail);
    assert line == id + gap1 + rest;
    assert rest[0] == res[0];
    IdThenSpaceOf(id, gap1, rest);
    ResolutionTokenOf(res, gap2 + tail, false);
    assert rest[..|res|] == res && rest[|res|..] == gap2 + tail;
    SpacedTailOf(gap2, tail);
    MatchResolutionOnlyParts(line, id, rest, |res|);
    ThreeCaptures(id, res, tail);
  }

  /** ExtensionAndTail in terms of the runs it reads. */
  lemma ExtensionAndTailParts(c: string)
    ensures var s2 := RunOf(c, Space);
      var e := c[s2..];
      var w := RunOf(e, Word);
      ExtensionAndTail(c) ==
        if s2 == 0 || w == 0 || SpacedTail(e[w..]).None? then None else Some((e[..w], SpacedTail(e[w..]).value))
  {
  }

  /** MatchWithExtension in terms of the pieces it reads. */
  lemma MatchWithExtensionParts(line: string, id: string, b: string, n: nat)
    requires IdThenSpace(line) == Some((id, b)) && ResolutionToken(b, true) == Some(n)
    ensures MatchWithExtension(line) ==
      if ExtensionAndTail(b[n..]).None? then None
      else Some([id, b[..n]] + [ExtensionAndTail(b[n..]).value.0] + [ExtensionAndTail(b[n..]).value.1])
  {
  }

  /** What ExtensionAndTail consumed: white space, the word, white space, the tail. */
  lemma ExtensionAndTailSplits(c: string)
    requires ExtensionAndTail(c).Some?
    ensures exists x, y | IsGap(x) && IsGap(y) ::
      c == x + ExtensionAndTail(c).value.0 + y + ExtensionAndTail(c).value.1
  {
    ExtensionAndTailParts(c);
    var s2 := RunOf(c, Space);
    var e := c[s2..];
    var w := RunOf(e, Word);
    var t := SpacedTail(e[w..]).value;
    SpacedTailSplits(e[w..]);
    var y := e[w..][..|e[w..]| - |t|];
    assert IsGap(c[..s2]);
    RecomposeTwice(c, s2, w, y, t);
  }

  /** Pattern 1 matches only a line made of its four captures with white space between them. */
  lemma MatchWithExtensionSound(line: string)
    ensures MatchWithExtension(line).Some? ==> SpansLine(MatchWithExtension(line).value, line)
  {
    if MatchWithExtension(line).Some? {
      var (id, b) := IdThenSpace(line).value;
      IdThenSpaceSplits(line);
      var gap1 :| IsGap(gap1) && line == id + gap1 + b;
      var n := ResolutionToken(b, true).value;
      MatchWithExtensionParts(line, id, b, n);
      var c := b[n..];
      var (ext, t) := ExtensionAndTail(c).value;
      ExtensionAndTailSplits(c);
      var x, y :| IsGap(x) && IsGap(y) && c == x + ext + y + t;
      SplitAt(b, n);
      FourCapturesSpan(id, gap1, b[..n], x, ext, y, t, line, b, c);
    }
  }

  /** White space, a word, white space and a tail: ExtensionAndTail takes the word and matches the rest. */
  lemma ExtensionAndTailOf(gap2: string, ext: string, gap3: string, tail: string)
    requires IsGap(gap2) && ext != "" && AllIn(ext, Word) && IsGap(gap3) && tail != "" && NoLineTerminator(tail)
    ensures ExtensionAndTail(gap2 + ext + gap3 + tail).Some?
    ensures ExtensionAndTail(gap2 + ext + gap3 + tail).value.0 == ext
    ensures !IsSpace(tail[0]) ==> ExtensionAndTail(gap2 + ext + gap3 + tail) == Some((ext, tail))
  {
    var c := gap2 + ext + gap3 + tail;
    var e := ext + (gap3 + tail);
    assert c == gap2 + e && e[0] == ext[0];
    RunOfConcat(gap2, e, Space);
    assert c[|gap2|..] == e;
    assert (gap3 + tail)[0] == gap3[0];
    RunOfConcat(ext, gap3 + tail, Word);
    assert e[..|ext|] == ext && e[|ext|..] == gap3 + tail;
    SpacedTailOf(gap3, tail);
    ExtensionAndTailParts(c);
  }

  /**
   * Pattern 1 matches every line made of a numeric id, a resolution (`WxH`,
   * `Np`, `Nk` or bare digits), a word and a tail, with white space between
   * them; the word is captured as the extension.
   */
  lemma MatchWithExtensionComplete(id: string, gap1: string, res: string, gap2: string, ext: string, gap3: string, tail: string)
    requires id != "" && AllIn(id, Digit) && IsGap(gap1) && IsResolution(res, true) && IsGap(gap2)
    requires ext != "" && AllIn(ext, Word) && IsGap(gap3) && tail != "" && NoLineTerminator(tail)
    ensures MatchWithExtension(id + gap1 + res + gap2 + ext + gap3 + tail).Some?
    ensures !IsSpace(tail[0]) ==>
      MatchWithExtension(id + gap1 + res + gap2 + ext + gap3 + tail) == Some([id, res, ext, tail])
  {
    var line := id + gap1 + res + gap2 + ext + gap3 + tail;
    var c := gap2 + ext + gap3 + tail;
    var rest := res + c;
    assert line == id + gap1 + rest;
    assert rest[0] == res[0] && c[0] == gap2[0];
    IdThenSpaceOf(id, gap1, rest);
    ResolutionTokenOf(res, c, true);
    assert rest[..|res|] == res && rest[|res|..] == c;
    ExtensionAndTailOf(gap2, ext, gap3, tail);
    MatchWithExtensionParts(line, id, rest, |res|);
    FourCaptures(id, res, ext, tail);
  }

  function MatchPattern(p: Pattern, line: string): (r: Option<seq<string>>)
    ensures r.Some? ==> WellFormedCaptures(r.value)
    ensures r.Some? ==> |r.value| == match p case WithExtension => 4 case ResolutionOnly => 3 case IdOnly => 2
  {
    match p
    case WithExtension => MatchWithExtension(line)
    case ResolutionOnly => MatchResolutionOnly(line)
    case IdOnly => MatchIdOnly(line)
  }

  /** The captures of the first pattern of `ps` that matches the line. */
  function FirstMatch(ps: seq<Pattern>, line: string): (r: Option<seq<string>>)
    ensures r.Some? ==> WellFormedCaptures(r.value)
  {
    if ps == [] then None
    else if MatchPattern(ps[0], line).Some? then MatchPattern(ps[0], line)
    else FirstMatch(ps[1..], line)
  }

  /** The inner loop of getAvailableFormats: try the patterns in order and stop at the first match. */
  method MatchLine(line: string) returns (m: Option<seq<string>>)
    ensures m == FirstMatch(Patterns, line)
  {
    m := None;
    var i := 0;
    while i < |Patterns|
      invariant 0 <= i <= |Patterns|
      invariant m.None? ==> forall j | 0 <= j < i :: MatchPattern(Patterns[j], line).None?
      invariant m.None? ==> FirstMatch(Patterns[i..], line) == FirstMatch(Patterns, line)
      invariant m.Some? ==> i < |Patterns| && forall j | 0 <= j < i :: MatchPattern(Patterns[j], line).None?
      invariant m.Some? ==> m == FirstMatch(Patterns, line) && m == MatchPattern(Patterns[i], line)
      decreases |Patterns| - i, m.None?
    {
      m := MatchPattern(Patterns[i], line);
      if m.Some? {
        break;
      }
      i := i + 1;
    }
    if m.None? {
      forall p | p in Patterns
        ensures MatchPattern(p, line).None?
      {
        var j :| 0 <= j < |Patterns| && Patterns[j] == p;
      }
    }
  }

  /** `match[i + 1]`: the capture, or undefined past the pattern's groups. */
  function Group(g: seq<string>, i: nat): Option<string>
  {
    if i < |g| then Some(g[i]) else None
  }

  /** Whether the description mentions one of the media keywords the table filter looks for. */
  predicate MentionsMedia(info: string)
  {
    || Contains(info, "video") || Contains(info, "audio") || Contains(info, "mp4")
    || Contains(info, "webm") || Contains(info, "m4a") || Contains(info, "mp3")
    || Contains(info, "video+audio") || Contains(info, "audio+video")
  }

  /** The two combined keywords add nothing: each contains `video` or `audio`. */
  lemma MentionsMediaSixKeywords(info: string)
    ensures MentionsMedia(info) <==>
      || Contains(info, "video") || Contains(info, "audio") || Contains(info, "mp4")
      || Contains(info, "webm") || Contains(info, "m4a") || Contains(info, "mp3")
  {
    if Contains(info, "video+audio") {
      ContainsPrefixOfNeedle(info, "video+audio", "video");
    }
    if Contains(info, "audio+video") {
      ContainsPrefixOfNeedle(info, "audio+video", "audio");
    }
  }

  /** The record getAvailableFormats pushes, with its flags derived from the description. */
  function MakeFormat(id: string, resolution: string, ext: string, info: string): (f: Format)
    ensures f.id == id && f.resolution == resolution && f.ext == ext && f.info == info
    ensures f.hasAudio <==> Contains(info, "audio")
    ensures f.hasVideo <==> Contains(info, "video")
    ensures f.isCombined <==> f.hasAudio && f.hasVideo
    ensures f.isVideoOnly <==> f.hasVideo && !f.hasAudio
    ensures f.isAudioOnly <==> f.hasAudio && !f.hasVideo
  {
    var audio := Contains(info, "audio");
    var video := Contains(info, "video");
    Format(id, resolution, ext, info, audio, video, video && !audio, audio && !video, video && audio)
  }

  /** The flags of a record as getAvailableFormats derives them: at most one of the three kinds holds. */
  predicate ConsistentFlags(f: Format)
  {
    && (f.isCombined <==> f.hasAudio && f.hasVideo)
    && (f.isVideoOnly <==> f.hasVideo && !f.hasAudio)
    && (f.isAudioOnly <==> f.hasAudio && !f.hasVideo)
  }

  lemma ConsistentFlagsExclusive(f: Format)
    requires ConsistentFlags(f)
    ensures !(f.isCombined && f.isVideoOnly) && !(f.isCombined && f.isAudioOnly) && !(f.isVideoOnly && f.isAudioOnly)
  {
  }

  /** The record built from a match: missing captures fall back to 'unknown', 'mp4' and the later captures. */
  function FormatOfMatch(g: seq<string>): Format
    requires |g| >= 1
  {
    var resolution := Or(Group(g, 1), "unknown");
    var ext := Or(Group(g, 2), "mp4");
    var info := Or(Group(g, 3), Or(Group(g, 2), Or(Group(g, 1), "")));
    MakeFormat(g[0], resolution, ext, info)
  }

  /** One line of the format table: a record when a pattern matches and the description is kept. */
  function ParseFormatLine(line: string): Option<Format>
  {
    match FirstMatch(Patterns, line)
    case None => None
    case Some(g) =>
      if |g| >= 1 && MentionsMedia(FormatOfMatch(g).info) then Some(FormatOfMatch(g)) else None
  }

  /** The first match wins: the captures are those of the first pattern that matches. */
  lemma {:induction false} FirstMatchShape(ps: seq<Pattern>, line: string)
    requires FirstMatch(ps, line).Some?
    ensures exists i | 0 <= i < |ps| ::
      FirstMatch(ps, line) == MatchPattern(ps[i], line) && forall j | 0 <= j < i :: MatchPattern(ps[j], line).None?
  {
    if MatchPattern(ps[0], line).None? {
      FirstMatchShape(ps[1..], line);
      var i :| 0 <= i < |ps[1..]| && FirstMatch(ps[1..], line) == MatchPattern(ps[1..][i], line)
        && forall j | 0 <= j < i :: MatchPattern(ps[1..][j], line).None?;
      FirstMatchStep(ps, line, i);
    }
  }

  /** One pattern further: a match found at `i` in the rest of the list is found at `i + 1` in the whole list. */
  lemma FirstMatchStep(ps: seq<Pattern>, line: string, i: nat)
    requires ps != [] && i < |ps| - 1 && MatchPattern(ps[0], line).None?
    requires FirstMatch(ps[1..], line) == MatchPattern(ps[1..][i], line)
    requires forall j | 0 <= j < i :: MatchPattern(ps[1..][j], line).None?
    ensures FirstMatch(ps, line) == MatchPattern(ps[i + 1], line)
    ensures forall j | 0 <= j < i + 1 :: MatchPattern(ps[j], line).None?
  {
    assert ps[i + 1] == ps[1..][i];
    forall j | 0 <= j < i + 1
      ensures MatchPattern(ps[j], line).None?
    {
      if j > 0 {
        assert ps[j] == ps[1..][j - 1];
      }
    }
  }

  /**
   * A line yields a record exactly when a pattern matches and its description
   * mentions a media keyword; the resolution is the second capture, the
   * extension the third when there are at least three (with the second
   * pattern that is the description itself), else `mp4`, the description
   * the last capture, and the flags follow the description.
   */
  lemma ParseFormatLineSpec(line: string)
    ensures ParseFormatLine(line).Some? <==>
      FirstMatch(Patterns, line).Some? && MentionsMedia(FirstMatch(Patterns, line).value[|FirstMatch(Patterns, line).value| - 1])
    ensures ParseFormatLine(line).Some? ==>
      var g := FirstMatch(Patterns, line).value;
      var f := ParseFormatLine(line).value;
      && f.id == g[0] && AllIn(f.id, Digit) && f.id != ""
      && f.resolution == g[1]
      && f.ext == (if |g| >= 3 then g[2] else "mp4")
      && f.info == g[|g| - 1]
      && ConsistentFlags(f)
  {
    var m := FirstMatch(Patterns, line);
    if m.Some? {
      FormatOfMatchSpec(m.value);
    }
  }

  lemma PatternsInOrder()
    ensures Patterns[0] == WithExtension && Patterns[1..][0] == ResolutionOnly && Patterns[1..][1..][0] == IdOnly
  {
  }

  lemma FirstMatchSkip(ps: seq<Pattern>, line: string)
    requires ps != [] && MatchPattern(ps[0], line).None?
    ensures FirstMatch(ps, line) == FirstMatch(ps[1..], line)
  {
  }

  lemma FirstMatchHit(ps: seq<Pattern>, line: string)
    requires ps != [] && MatchPattern(ps[0], line).Some?
    ensures FirstMatch(ps, line) == MatchPattern(ps[0], line)
  {
  }

  /** Of four captures, `match[2]`, `match[3]` and `match[4]` are resolution, extension and description. */
  lemma FormatOfFourCaptures(g: seq<string>)
    requires WellFormedCaptures(g) && |g| == 4
    ensures FormatOfMatch(g) == MakeFormat(g[0], g[1], g[2], g[3])
  {
  }

  /** Of three captures, `match[3]` is the description, and `match[3] || 'mp4'` takes it as the extension too. */
  lemma FormatOfThreeCaptures(g: seq<string>)
    requires WellFormedCaptures(g) && |g| == 3
    ensures FormatOfMatch(g) == MakeFormat(g[0], g[1], g[2], g[2])
  {
  }

  /** Of two captures, `match[2]` is both resolution and description, and the extension defaults. */
  lemma FormatOfTwoCaptures(g: seq<string>)
    requires WellFormedCaptures(g) && |g| == 2
    ensures FormatOfMatch(g) == MakeFormat(g[0], g[1], "mp4", g[1])
  {
  }

  /**
   * A line the first pattern matches: the word after the resolution is the
   * extension, and only the rest of the line is the description the media
   * filter reads.
   */
  lemma WithExtensionRecord(line: string, g: seq<string>)
    requires MatchWithExtension(line) == Some(g)
    ensures ParseFormatLine(line) == if MentionsMedia(g[3]) then Some(MakeFormat(g[0], g[1], g[2], g[3])) else None
  {
    PatternsInOrder();
    FirstMatchHit(Patterns, line);
    FormatOfFourCaptures(g);
  }

  /**
   * A line only the second pattern matches: the third capture, the
   * description, is also taken as the extension.
   */
  lemma ResolutionOnlyRecord(line: string, g: seq<string>)
    requires MatchWithExtension(line).None? && MatchResolutionOnly(line) == Some(g)
    ensures ParseFormatLine(line) == if MentionsMedia(g[2]) then Some(MakeFormat(g[0], g[1], g[2], g[2])) else None
  {
    PatternsInOrder();
    FirstMatchSkip(Patterns, line);
    FirstMatchHit(Patterns[1..], line);
    FormatOfThreeCaptures(g);
  }

  /**
   * A line only the third pattern matches: the rest of the line is both the
   * resolution and the description, and the extension is `mp4`.
   */
  lemma IdOnlyRecord(line: string, g: seq<string>)
    requires MatchWithExtension(line).None? && MatchResolutionOnly(line).None? && MatchIdOnly(line) == Some(g)
    ensures ParseFormatLine(line) == if MentionsMedia(g[1]) then Some(MakeFormat(g[0], g[1], "mp4", g[1])) else None
  {
    PatternsInOrder();
    FirstMatchSkip(Patterns, line);
    FirstMatchSkip(Patterns[1..], line);
    FirstMatchHit(Patterns[1..][1..], line);
    FormatOfTwoCaptures(g);
  }

  /**
   * An id, a resolution, a word and a rest of line that does not start with
   * white space: the word is the extension whatever it says, so a media
   * keyword there does not keep the line; only the rest of the line does.
   */
  lemma KeywordAsExtension(id: string, gap1: string, res: string, gap2: string, ext: string, gap3: string, tail: string)
    requires id != "" && AllIn(id, Digit) && IsGap(gap1) && IsResolution(res, true) && IsGap(gap2)
    requires ext != "" && AllIn(ext, Word) && IsGap(gap3) && tail != "" && NoLineTerminator(tail) && !IsSpace(tail[0])
    ensures ParseFormatLine(id + gap1 + res + gap2 + ext + gap3 + tail).Some? <==> MentionsMedia(tail)
    ensures ParseFormatLine(id + gap1 + res + gap2 + ext + gap3 + tail).Some? ==>
      ParseFormatLine(id + gap1 + res + gap2 + ext + gap3 + tail).value.ext == ext
  {
    MatchWithExtensionComplete(id, gap1, res, gap2, ext, gap3, tail);
    WithExtensionRecord(id + gap1 + res + gap2 + ext + gap3 + tail, [id, res, ext, tail]);
  }

  /** The record built from the captures of any of the patterns. */
  lemma FormatOfMatchSpec(g: seq<string>)
    requires WellFormedCaptures(g)
    ensures var f := FormatOfMatch(g);
      && f.id == g[0] && AllIn(f.id, Digit) && f.id != ""
      && f.resolution == g[1]
      && f.ext == (if |g| >= 3 then g[2] else "mp4")
      && f.info == g[|g| - 1]
      && ConsistentFlags(f)
  {
  }

  /** Every record of a format table, in the order of its lines. */
  function ParseFormatLines(lines: seq<string>): seq<Format>
  {
    if lines == [] then []
    else
      match ParseFormatLine(lines[0])
      case None => ParseFormatLines(lines[1..])
      case Some(f) => [f] + ParseFormatLines(lines[1..])
  }

  /** Records keep the order of their lines: the table of two pieces is the two tables one after the other. */
  lemma {:induction false} ParseFormatLinesAppend(a: seq<string>, b: seq<string>)
    ensures ParseFormatLines(a + b) == ParseFormatLines(a) + ParseFormatLines(b)
  {
    if a == [] {
      assert a + b == b;
    } else {
      assert (a + b)[0] == a[0] && (a + b)[1..] == a[1..] + b;
      ParseFormatLinesAppend(a[1..], b);
    }
  }

  /** Each record comes from a line of the table, no line gives two, and all flags are consistent. */
  lemma {:induction false} ParseFormatLinesSpec(lines: seq<string>)
    ensures |ParseFormatLines(lines)| <= |lines|
    ensures forall f | f in ParseFormatLines(lines) ::
      ConsistentFlags(f) && MentionsMedia(f.info) && exists l | l in lines :: ParseFormatLine(l) == Some(f)
    ensures forall l | l in lines && ParseFormatLine(l).Some? :: ParseFormatLine(l).value in ParseFormatLines(lines)
  {
    if lines != [] {
      ParseFormatLinesSpec(lines[1..]);
      ParseFormatLineSpec(lines[0]);
      forall l | l in lines && ParseFormatLine(l).Some?
        ensures ParseFormatLine(l).value in ParseFormatLines(lines)
      {
        if l != lines[0] {
          assert l in lines[1..];
        }
      }
    }
  }

  /**
   * `stdout.split('\n').filter(line => line.trim())`: a line is kept when its
   * trim is non-empty, that is when it is not all white space (TrimEmptyIff).
   */
  function NonBlankLines(stdout: string): (lines: seq<string>)
  {
    KeepNonBlank(Split(stdout, '\n'))
  }

  function KeepNonBlank(parts: seq<string>): (lines: seq<string>)
  {
    if parts == [] then []
    else if !AllSpace(parts[0]) then [parts[0]] + KeepNonBlank(parts[1..])
    else KeepNonBlank(parts[1..])
  }

  /**
   * The kept lines are the pieces between newlines whose trim is non-empty,
   * in their order: none holds a newline, none is blank, and no non-blank
   * piece is dropped.
   */
  lemma {:induction false} KeepNonBlankSpec(parts: seq<string>)
    ensures |KeepNonBlank(parts)| <= |parts|
    ensures forall l | l in KeepNonBlank(parts) :: l in parts && Trim(l) != ""
    ensures forall p | p in parts && Trim(p) != "" :: p in KeepNonBlank(parts)
  {
    if parts != [] {
      KeepNonBlankSpec(parts[1..]);
      TrimEmptyIff(parts[0]);
      forall p | p in parts && Trim(p) != ""
        ensures p in KeepNonBlank(parts)
      {
        if p != parts[0] {
          assert p in parts[1..];
        }
      }
      forall l | l in KeepNonBlank(parts)
        ensures l in parts
      {
        if l != parts[0] {
          assert l in parts[1..];
        }
      }
    }
  }

  lemma NonBlankLinesSpec(stdout: string)
    ensures forall l | l in NonBlankLines(stdout) :: '\n' !in l && Trim(l) != ""
    ensures forall p | p in Split(stdout, '\n') && Trim(p) != "" :: p in NonBlankLines(stdout)
  {
    KeepNonBlankSpec(Split(stdout, '\n'));
  }

  /** A table of one line holds the record of that line, if it yields one. */
  lemma ParseFormatLinesOfOne(line: string)
    ensures ParseFormatLines([line]) == match ParseFormatLine(line) case Some(f) => [f] case None => []
  {
    assert [line][1..] == [];
  }

  /**
   * The body of the table loop for one line: try the patterns, build the
   * record from the captures and push it when its description mentions media.
   */
  method PushFormatOfLine(formats: seq<Format>, line: string) returns (next: seq<Format>)
    ensures next == formats + ParseFormatLines([line])
  {
    ParseFormatLinesOfOne(line);
    next := formats;
    var m := MatchLine(line);
    if m.Some? {
      var g := m.value;
      var formatId := g[0];
      var resolution := Or(Group(g, 1), "unknown");
      var ext := Or(Group(g, 2), "mp4");
      var info := Or(Group(g, 3), Or(Group(g, 2), Or(Group(g, 1), "")));
      if MentionsMedia(info) {
        var format := MakeFormat(formatId, resolution, ext, info);
        assert format == FormatOfMatch(g);
        next := next + [format];
      }
    }
  }

  /**
   * getAvailableFormats, once the listing has been produced: the records of
   * its non-blank lines in line order, or the error of the listing call.
   */
  method GetAvailableFormats(listing: Result<string>) returns (r: Result<seq<Format>>)
    ensures listing.Err? ==> r == Err("Error obteniendo formatos: " + listing.error)
    ensures listing.Ok? ==> r == Ok(ParseFormatLines(NonBlankLines(listing.value)))
    ensures r.Ok? ==> forall f | f in r.value :: ConsistentFlags(f) && MentionsMedia(f.info)
  {
    if listing.Err? {
      return Err("Error obteniendo formatos: " + listing.error);
    }
    var lines := NonBlankLines(listing.value);
    var formats: seq<Format> := [];
    var i := 0;
    while i < |lines|
      invariant 0 <= i <= |lines|
      invariant formats == ParseFormatLines(lines[..i])
    {
      ParseFormatLinesAppend(lines[..i], [lines[i]]);
      assert lines[..i + 1] == lines[..i] + [lines[i]];
      formats := PushFormatOfLine(formats, lines[i]);
      i := i + 1;
    }
    assert lines[..i] == lines;
    ParseFormatLinesSpec(lines);
    return Ok(formats);
  }

  /** One line of the thumbnail table, matched against `^(\d+)\s+(.+)$`. */
  function ThumbnailOfLine(line: string): Option<Thumbnail>
  {
    match MatchIdOnly(line)
    case None => None
    case Some(g) => Some(Thumbnail(g[0], g[1]))
  }

  /** `lines.map(...).filter(Boolean)` of getThumbnails. */
  function ParseThumbnails(lines: seq<string>): seq<Thumbnail>
  {
    if lines == [] then []
    else
      match ThumbnailOfLine(lines[0])
      case None => ParseThumbnails(lines[1..])
      case Some(t) => [t] + ParseThumbnails(lines[1..])
  }

  /** getThumbnails once the listing has been produced. */
  function GetThumbnails(listing: Result<string>): Result<seq<Thumbnail>>
  {
    match listing
    case Err(e) => Err("Error obteniendo thumbnails: " + e)
    case Ok(stdout) => Ok(ParseThumbnails(NonBlankLines(stdout)))
  }

  /** Thumbnails keep line order; each has a numeric id and a URL that is the rest of its line. */
  lemma {:induction false} ParseThumbnailsSpec(lines: seq<string>)
    ensures |ParseThumbnails(lines)| <= |lines|
    ensures forall t | t in ParseThumbnails(lines) ::
      t.id != "" && AllIn(t.id, Digit) && t.url != "" && NoLineTerminator(t.url)
    ensures forall t | t in ParseThumbnails(lines) :: exists l | l in lines :: ThumbnailOfLine(l) == Some(t)
    ensures forall l | l in lines && MatchIdOnly(l).Some? :: ThumbnailOfLine(l).value in ParseThumbnails(lines)
  {
    if lines != [] {
      ParseThumbnailsSpec(lines[1..]);
      forall t | t in ParseThumbnails(lines)
        ensures exists l | l in lines :: ThumbnailOfLine(l) == Some(t)
      {
        if ThumbnailOfLine(lines[0]) != Some(t) {
          assert t in ParseThumbnails(lines[1..]);
          var l :| l in lines[1..] && ThumbnailOfLine(l) == Some(t);
          assert l in lines;
        }
      }
      forall l | l in lines && MatchIdOnly(l).Some?
        ensures ThumbnailOfLine(l).value in ParseThumbnails(lines)
      {
        if l != lines[0] {
          assert l in lines[1..];
        }
      }
    }
  }

  lemma {:induction false} ParseThumbnailsAppend(a: seq<string>, b: seq<string>)
    ensures ParseThumbnails(a + b) == ParseThumbnails(a) + ParseThumbnails(b)
  {
    if a == [] {
      assert a + b == b;
    } else {
      assert (a + b)[0] == a[0] && (a + b)[1..] == a[1..] + b;
      ParseThumbnailsAppend(a[1..], b);
    }
  }
}
