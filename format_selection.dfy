/**
 * selectBestFormat (src/utils/ytdlp.js): the height of a resolution string,
 * the two candidate groups (formats with audio, then video-only formats),
 * each sorted by descending height, and the scan for the first format whose
 * height lies in (0, preferred]. Without one, the head of the combined list
 * is taken; with no candidate at all, the generic selector 'best'.
 */
module FormatSelection {
  import opened Wrappers
  import opened JsText
  import opened JsArray
  import opened FormatTable

  /** getHeight: the pixel height a resolution string names. */
  function GetHeight(resolution: string): JsInt
  {
    if resolution == "" || resolution == "unknown" then Num(0)
    else if Contains(resolution, "x") then
      var parts := Split(resolution, 'x');
      if |parts| > 1 then ParseInt(parts[1], NoRadix) else Num(0)
    else if Contains(resolution, "p") then ParseInt(RemoveFirst(resolution, 'p'), NoRadix)
    else if Contains(resolution, "k") then Times(ParseInt(RemoveFirst(resolution, 'k'), NoRadix), 1000)
    else Num(0)
  }

  /** `"WxH"` has height H. */
  lemma GetHeightOfDimensions(w: string, h: string)
    requires AllDigits(w) && |h| > 0 && AllDigits(h)
    ensures GetHeight(w + "x" + h) == Num(DigitsValue(h, 10))
  {
    GetHeightDimensionsFirst(w, h, "");
    assert w + "x" + h + "" == w + "x" + h;
  }

  /** `"Np"` has height N. */
  lemma GetHeightOfProgressive(d: string)
    requires |d| > 0 && AllDigits(d)
    ensures GetHeight(d + "p") == Num(DigitsValue(d, 10))
  {
    SuffixTests(d, 'p');
    RemoveFirstAtEnd(d, 'p');
    DigitsParse(d);
  }

  /** `"Nk"` has height N·1000. */
  lemma GetHeightOfKilo(d: string)
    requires |d| > 0 && AllDigits(d)
    ensures GetHeight(d + "k") == Num(DigitsValue(d, 10) * 1000)
  {
    SuffixTests(d, 'k');
    RemoveFirstAtEnd(d, 'k');
    DigitsParse(d);
  }

  /**
   * The `p` test comes before the `k` test: digits, `p` and anything without
   * an `x` after it give the digits' value, a `k` in the rest included.
   */
  lemma GetHeightProgressiveFirst(d: string, rest: string)
    requires |d| > 0 && AllDigits(d) && 'x' !in rest
    requires rest == [] || (!IsDigit(rest[0]) && rest[0] != 'X')
    ensures GetHeight(d + "p" + rest) == Num(DigitsValue(d, 10))
  {
    var r := d + "p" + rest;
    assert 'x' !in d && 'p' !in d by {
      assert forall i | 0 <= i < |d| :: IsDigit(d[i]);
    }
    assert r[0] == d[0] && r[|d|] == 'p';
    ContainsCharIff(r, 'x');
    ContainsCharIff(r, 'p');
    RemoveFirstAfter(d, 'p', rest);
    ParseIntOfDigits(d, rest, NoRadix);
  }

  /** Which of the `includes` tests of getHeight a digit string with one letter appended passes. */
  lemma SuffixTests(d: string, c: char)
    requires AllDigits(d) && !IsDigit(c)
    ensures var r := d + [c];
      && r != "" && r != "unknown" && c !in d
      && (Contains(r, "x") <==> c == 'x')
      && (Contains(r, "p") <==> c == 'p')
      && (Contains(r, "k") <==> c == 'k')
  {
    var r := d + [c];
    assert forall i | 0 <= i < |d| :: IsDigit(d[i]);
    assert r[|d|] == c;
    assert forall e | e in r && e != c :: IsDigit(e);
    ContainsCharIff(r, 'x');
    ContainsCharIff(r, 'p');
    ContainsCharIff(r, 'k');
  }

  /** `parseInt` of a whole digit string is its value. */
  lemma DigitsParse(d: string)
    requires |d| > 0 && AllDigits(d)
    ensures ParseInt(d, NoRadix) == Num(DigitsValue(d, 10))
  {
    ParseIntOfDigits(d, "", NoRadix);
    assert d + "" == d;
  }

  /** A string with none of `x`, `p` and `k` has height 0, and so do `''` and `'unknown'`. */
  lemma GetHeightOfOther(r: string)
    requires r == "" || r == "unknown" || ('x' !in r && 'p' !in r && 'k' !in r)
    ensures GetHeight(r) == Num(0)
  {
    ContainsCharIff(r, 'x');
    ContainsCharIff(r, 'p');
    ContainsCharIff(r, 'k');
  }

  /** The `x` test comes first: a `p` or `k` after the `x` does not matter. */
  lemma GetHeightDimensionsFirst(w: string, h: string, suffix: string)
    requires AllDigits(w) && |h| > 0 && AllDigits(h) && 'x' !in suffix
    requires suffix == [] || (!IsDigit(suffix[0]) && suffix[0] != 'X')
    ensures GetHeight(w + "x" + h + suffix) == Num(DigitsValue(h, 10))
  {
    DimensionsSplit(w, h, suffix);
    ParseIntOfDigits(h, suffix, NoRadix);
  }

  lemma DimensionsSplit(w: string, h: string, suffix: string)
    requires AllDigits(w) && AllDigits(h) && 'x' !in suffix
    ensures var r := w + "x" + h + suffix;
      r != "" && r != "unknown" && Contains(r, "x") && Split(r, 'x') == [w, h + suffix]
  {
    var r := w + "x" + h + suffix;
    assert r[|w|] == 'x';
    ContainsCharIff(r, 'x');
    assert 'x' !in w && 'x' !in h + suffix by {
      assert forall i | 0 <= i < |w| :: IsDigit(w[i]);
      assert forall i | 0 <= i < |h| :: IsDigit(h[i]);
    }
    assert r == w + ['x'] + (h + suffix);
    SplitInTwo(w, 'x', h + suffix);
  }

  /** `formats.filter(f => f.isCombined || f.hasAudio)` keeps these. */
  predicate WithAudio(f: Format)
  {
    f.isCombined || f.hasAudio
  }

  /** `formats.filter(f => f.isVideoOnly)` keeps these. */
  predicate VideoOnly(f: Format)
  {
    f.isVideoOnly
  }

  /** The sort key of the comparator `getHeight(b) - getHeight(a)`; a NaN height ranks as 0. */
  function HeightKey(f: Format): int
  {
    match GetHeight(f.resolution)
    case Num(h) => h
    case NaN => 0
  }

  /**
   * `[...sortedFormatsWithAudio, ...sortedFormatsVideoOnly]`, for any sort
   * key; the lemmas about its shape hold whatever the key, so they are
   * stated for every key and applied to the height.
   */
  function CombinedBy(formats: seq<Format>, key: Format -> int): seq<Format>
  {
    SortDesc(Filter(formats, WithAudio), key) + SortDesc(Filter(formats, VideoOnly), key)
  }

  /** The candidate list of selectBestFormat: both groups sorted by descending height. */
  function Combined(formats: seq<Format>): seq<Format>
  {
    CombinedBy(formats, HeightKey)
  }

  /** `parseInt(preferredQuality.replace('p', ''))` */
  function PreferredHeight(preferredQuality: string): JsInt
  {
    ParseInt(RemoveFirst(preferredQuality, 'p'), NoRadix)
  }

  /** `formatHeight <= preferredHeight && formatHeight > 0` */
  predicate Fits(f: Format, preferred: JsInt)
  {
    var h := GetHeight(f.resolution);
    AtMost(h, preferred) && Above(h, Num(0))
  }

  /** The test of the scan, as a predicate on formats. */
  function FitsWithin(preferred: JsInt): Format -> bool
  {
    f => Fits(f, preferred)
  }

  /** What selectBestFormat returns. */
  function BestFormatId(formats: seq<Format>, preferredQuality: string): string
  {
    if formats == [] then "best"
    else
      var candidates := Combined(formats);
      match FirstWhere(candidates, FitsWithin(PreferredHeight(preferredQuality)))
      case Some(f) => f.id
      case None => if candidates != [] then candidates[0].id else "best"
  }

  /** selectBestFormat: sort both groups, scan for the first fitting format, else fall back. */
  method SelectBestFormat(formats: seq<Format>, preferredQuality: string) returns (id: string)
    ensures id == BestFormatId(formats, preferredQuality)
  {
    if |formats| == 0 {
      return "best";
    }
    var formatsWithAudio := Filter(formats, WithAudio);
    var formatsVideoOnly := Filter(formats, VideoOnly);
    var sortedFormats := SortDesc(formatsWithAudio, HeightKey) + SortDesc(formatsVideoOnly, HeightKey);
    var preferredHeight := ParseInt(RemoveFirst(preferredQuality, 'p'), NoRadix);
    var found := FindFitting(sortedFormats, preferredHeight);
    if found.Some? {
      return found.value.id;
    }
    if |sortedFormats| > 0 {
      return sortedFormats[0].id;
    }
    return "best";
  }

  /** The `for … of` loop of selectBestFormat: the first format whose height lies in (0, preferred]. */
  method FindFitting(sortedFormats: seq<Format>, preferredHeight: JsInt) returns (found: Option<Format>)
    ensures found == FirstWhere(sortedFormats, FitsWithin(preferredHeight))
  {
    ghost var fits := FitsWithin(preferredHeight);
    var i := 0;
    while i < |sortedFormats|
      invariant 0 <= i <= |sortedFormats|
      invariant FirstWhere(sortedFormats[i..], fits) == FirstWhere(sortedFormats, fits)
    {
      var format := sortedFormats[i];
      var formatHeight := GetHeight(format.resolution);
      if AtMost(formatHeight, preferredHeight) && Above(formatHeight, Num(0)) {
        assert fits(format);
        return Some(format);
      }
      assert sortedFormats[i..][1..] == sortedFormats[i + 1..];
      i := i + 1;
    }
    return None;
  }

  /** The combined list: each group is sorted by descending height, holds exactly that group, and keeps the input order of equal heights. */
  lemma CombinedShape(formats: seq<Format>)
    ensures var a := SortDesc(Filter(formats, WithAudio), HeightKey);
      var v := SortDesc(Filter(formats, VideoOnly), HeightKey);
      && Combined(formats) == a + v
      && multiset(a) == multiset(Filter(formats, WithAudio))
      && multiset(v) == multiset(Filter(formats, VideoOnly))
      && SortedDesc(a, HeightKey) && SortedDesc(v, HeightKey)
      && (forall k :: WithKey(a, HeightKey, k) == WithKey(Filter(formats, WithAudio), HeightKey, k))
      && (forall k :: WithKey(v, HeightKey, k) == WithKey(Filter(formats, VideoOnly), HeightKey, k))
  {
    var wa := Filter(formats, WithAudio);
    var vo := Filter(formats, VideoOnly);
    SortDescPermutes(wa, HeightKey);
    SortDescPermutes(vo, HeightKey);
    SortDescSorted(wa, HeightKey);
    SortDescSorted(vo, HeightKey);
    forall k
      ensures WithKey(SortDesc(wa, HeightKey), HeightKey, k) == WithKey(wa, HeightKey, k)
      ensures WithKey(SortDesc(vo, HeightKey), HeightKey, k) == WithKey(vo, HeightKey, k)
    {
      SortDescStable(wa, HeightKey, k);
      SortDescStable(vo, HeightKey, k);
    }
  }

  /** The sorted audio group holds exactly the input formats with audio, the sorted video group exactly the video-only ones. */
  lemma GroupMembers(formats: seq<Format>, key: Format -> int)
    ensures forall f :: f in SortDesc(Filter(formats, WithAudio), key) <==> f in formats && WithAudio(f)
    ensures forall f :: f in SortDesc(Filter(formats, VideoOnly), key) <==> f in formats && VideoOnly(f)
  {
    SortDescSameElements(Filter(formats, WithAudio), key);
    SortDescSameElements(Filter(formats, VideoOnly), key);
  }

  lemma CombinedAudioFirstBy(formats: seq<Format>, key: Format -> int)
    ensures var c := CombinedBy(formats, key);
      var n := |Filter(formats, WithAudio)|;
      && n <= |c|
      && (forall i | 0 <= i < n :: WithAudio(c[i]))
      && (forall i | n <= i < |c| :: VideoOnly(c[i]))
  {
    GroupMembers(formats, key);
    var a := SortDesc(Filter(formats, WithAudio), key);
    var v := SortDesc(Filter(formats, VideoOnly), key);
    var c := a + v;
    forall i | 0 <= i < |a|
      ensures WithAudio(c[i])
    {
      assert c[i] == a[i] && a[i] in a;
    }
    forall i | |a| <= i < |c|
      ensures VideoOnly(c[i])
    {
      assert c[i] == v[i - |a|] && v[i - |a|] in v;
    }
  }

  /** Every audio-capable format of the combined list comes before every video-only one. */
  lemma CombinedAudioFirst(formats: seq<Format>)
    ensures var c := Combined(formats);
      var n := |Filter(formats, WithAudio)|;
      && n <= |c|
      && (forall i | 0 <= i < n :: WithAudio(c[i]))
      && (forall i | n <= i < |c| :: VideoOnly(c[i]))
  {
    CombinedAudioFirstBy(formats, HeightKey);
  }

  lemma CombinedMembersBy(formats: seq<Format>, key: Format -> int)
    ensures forall f :: f in CombinedBy(formats, key) <==> f in formats && (WithAudio(f) || VideoOnly(f))
  {
    GroupMembers(formats, key);
  }

  /** An element of the combined list is a format of the input, with audio or video-only, and every such format is in it. */
  lemma CombinedMembers(formats: seq<Format>)
    ensures forall f :: f in Combined(formats) <==> f in formats && (WithAudio(f) || VideoOnly(f))
  {
    CombinedMembersBy(formats, HeightKey);
  }

  /**
   * The result is 'best' or the id of an input format that has audio or is
   * video-only; it is 'best' whenever no input format is of either kind.
   */
  lemma BestFormatIdIsCandidate(formats: seq<Format>, preferredQuality: string)
    ensures var id := BestFormatId(formats, preferredQuality);
      id == "best" || exists f | f in formats && (WithAudio(f) || VideoOnly(f)) :: id == f.id
    ensures (forall f | f in formats :: !WithAudio(f) && !VideoOnly(f)) ==>
      BestFormatId(formats, preferredQuality) == "best"
  {
    var c := Combined(formats);
    CombinedMembers(formats);
    if formats != [] {
      var found := FirstWhere(c, FitsWithin(PreferredHeight(preferredQuality)));
      if found.Some? {
        BestFormatIdOfFound(formats, preferredQuality, found.value);
        assert found.value in c;
      } else if c != [] {
        assert c[0] in c;
      }
    }
  }

  /** When some candidate fits, the result is the id of the first fitting one in combined order. */
  lemma BestFormatIdFirstFitting(formats: seq<Format>, preferredQuality: string)
    ensures var c := Combined(formats);
      var p := PreferredHeight(preferredQuality);
      (exists i | 0 <= i < |c| :: Fits(c[i], p)) ==>
        exists i | 0 <= i < |c| :: Fits(c[i], p) && (forall j | 0 <= j < i :: !Fits(c[j], p))
          && BestFormatId(formats, preferredQuality) == c[i].id
  {
    var c := Combined(formats);
    var p := PreferredHeight(preferredQuality);
    var fits := FitsWithin(p);
    FirstWhereSpec(c, fits);
    if FirstWhere(c, fits).Some? {
      BestFormatIdOfFound(formats, preferredQuality, FirstWhere(c, fits).value);
      assert forall i | 0 <= i < |c| :: fits(c[i]) == Fits(c[i], p);
    }
  }

  /**
   * When no candidate fits, the result is the id of the head of the combined
   * list, or 'best' when that list or the input is empty.
   */
  lemma BestFormatIdFallback(formats: seq<Format>, preferredQuality: string)
    ensures formats == [] ==> BestFormatId(formats, preferredQuality) == "best"
    ensures var c := Combined(formats);
      var p := PreferredHeight(preferredQuality);
      formats != [] && (forall i | 0 <= i < |c| :: !Fits(c[i], p)) ==>
        BestFormatId(formats, preferredQuality) == if c != [] then c[0].id else "best"
  {
    var c := Combined(formats);
    var fits := FitsWithin(PreferredHeight(preferredQuality));
    FirstWhereSpec(c, fits);
  }

  lemma HighestFittingBy(formats: seq<Format>, key: Format -> int, fits: Format -> bool)
    requires exists f | f in formats :: WithAudio(f) && fits(f)
    ensures var r := FirstWhere(CombinedBy(formats, key), fits);
      && r.Some? && r.value in formats && WithAudio(r.value) && fits(r.value)
      && forall f | f in formats && WithAudio(f) && fits(f) :: key(f) <= key(r.value)
  {
    var a := SortDesc(Filter(formats, WithAudio), key);
    var v := SortDesc(Filter(formats, VideoOnly), key);
    GroupMembers(formats, key);
    SortDescSorted(Filter(formats, WithAudio), key);
    var f0 :| f0 in formats && WithAudio(f0) && fits(f0);
    var k :| 0 <= k < |a| && a[k] == f0;
    FirstWhereSpec(a, fits);
    FirstWhereAppend(a, v, fits);
    FirstWhereInSortedIsHighest(a, key, fits);
  }

  /**
   * When a format with audio fits, the chosen format has audio, fits, and is
   * at least as high as every fitting format with audio.
   */
  lemma PrefersHighestFittingWithAudio(formats: seq<Format>, preferredQuality: string)
    requires exists f | f in formats :: WithAudio(f) && Fits(f, PreferredHeight(preferredQuality))
    ensures exists g | g in formats ::
      && WithAudio(g) && Fits(g, PreferredHeight(preferredQuality))
      && BestFormatId(formats, preferredQuality) == g.id
      && forall f | f in formats && WithAudio(f) && Fits(f, PreferredHeight(preferredQuality)) :: HeightKey(f) <= HeightKey(g)
  {
    var p := PreferredHeight(preferredQuality);
    var fits := FitsWithin(p);
    HighestFittingBy(formats, HeightKey, fits);
    var g := FirstWhere(Combined(formats), fits).value;
    BestFormatIdOfFound(formats, preferredQuality, g);
    assert Fits(g, p) by {
      assert fits(g);
    }
    forall f | f in formats && WithAudio(f) && Fits(f, p)
      ensures HeightKey(f) <= HeightKey(g)
    {
      assert fits(f);
    }
  }

  lemma BestFormatIdOfFound(formats: seq<Format>, preferredQuality: string, g: Format)
    requires FirstWhere(Combined(formats), FitsWithin(PreferredHeight(preferredQuality))) == Some(g)
    ensures BestFormatId(formats, preferredQuality) == g.id
  {
  }

  lemma FallbackBy(formats: seq<Format>, key: Format -> int, fits: Format -> bool)
    requires forall f | f in formats :: !fits(f)
    requires exists f | f in formats :: WithAudio(f)
    ensures var c := CombinedBy(formats, key);
      && FirstWhere(c, fits) == None && c != [] && c[0] in formats && WithAudio(c[0])
      && forall f | f in formats && WithAudio(f) :: key(f) <= key(c[0])
  {
    var a := SortDesc(Filter(formats, WithAudio), key);
    var c := CombinedBy(formats, key);
    CombinedMembersBy(formats, key);
    GroupMembers(formats, key);
    SortDescSorted(Filter(formats, WithAudio), key);
    var f0 :| f0 in formats && WithAudio(f0);
    assert f0 in a;
    assert FirstWhere(c, fits) == None;
    HeadIsHighest(a, key);
    assert c[0] == a[0] && a[0] in a;
  }

  /**
   * With no candidate fitting, the fallback is a format with audio of the
   * greatest height among them, when there is any format with audio.
   */
  lemma FallbackIsHighestWithAudio(formats: seq<Format>, preferredQuality: string)
    requires forall f | f in formats :: !Fits(f, PreferredHeight(preferredQuality))
    requires exists f | f in formats :: WithAudio(f)
    ensures exists g | g in formats ::
      && WithAudio(g) && BestFormatId(formats, preferredQuality) == g.id
      && forall f | f in formats && WithAudio(f) :: HeightKey(f) <= HeightKey(g)
  {
    var fits := FitsWithin(PreferredHeight(preferredQuality));
    FallbackBy(formats, HeightKey, fits);
    assert Combined(formats)[0] in formats;
  }
}
