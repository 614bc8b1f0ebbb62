/**
 * Concrete format lists run through selectBestFormat's specification: the
 * preference for a fitting format with audio over a higher video-only one,
 * and the fallback when nothing fits, which takes the head of the audio
 * group rather than the highest format overall.
 */
module SelectionExamples {
  import opened JsText
  import opened FormatTable
  import opened FormatSelection

  /** `W` + 'x' + `H`, the resolution column of a format table line. */
  function Dimensions(w: string, h: string): string
  {
    w + "x" + h
  }

  /** `N` + 'p', a quality as the download endpoint passes it on. */
  function Quality(d: string): string
  {
    d + "p"
  }

  lemma ThreeDigits(a: char, b: char, c: char)
    ensures DigitsValue([a, b, c], 10) == DigitValue(a) * 100 + DigitValue(b) * 10 + DigitValue(c)
  {
    DigitsValueStep([], a);
    DigitsValueStep([a], b);
    DigitsValueStep([a, b], c);
    assert [] + [a] == [a] && [a] + [b] == [a, b] && [a, b] + [c] == [a, b, c];
  }

  lemma FourDigits(a: char, b: char, c: char, e: char)
    ensures DigitsValue([a, b, c, e], 10) == DigitValue(a) * 1000 + DigitValue(b) * 100 + DigitValue(c) * 10 + DigitValue(e)
  {
    ThreeDigits(a, b, c);
    DigitsValueStep([a, b, c], e);
    assert [a, b, c] + [e] == [a, b, c, e];
  }

  /** A format whose resolution reads `WxH` sorts by height H. */
  lemma HeightKeyOf(f: Format, w: string, h: string)
    requires AllDigits(w) && |h| > 0 && AllDigits(h) && f.resolution == Dimensions(w, h)
    ensures GetHeight(f.resolution) == Num(DigitsValue(h, 10))
    ensures HeightKey(f) == DigitsValue(h, 10)
  {
    GetHeightOfDimensions(w, h);
  }

  /** The preferred height of `Np` is N. */
  lemma PreferredHeightOf(d: string)
    requires |d| > 0 && AllDigits(d)
    ensures PreferredHeight(Quality(d)) == Num(DigitsValue(d, 10))
  {
    assert forall i | 0 <= i < |d| :: IsDigit(d[i]);
    RemoveFirstAtEnd(d, 'p');
    ParseIntOfDigits(d, "", NoRadix);
    assert d + "" == d;
  }

  /** 1080p asks for height 1080. */
  lemma Quality1080(quality: string)
    requires quality == Quality("1080")
    ensures PreferredHeight(quality) == Num(1080)
  {
    FourDigits('1', '0', '8', '0');
    PreferredHeightOf("1080");
  }

  /** 480p asks for height 480. */
  lemma Quality480(quality: string)
    requires quality == Quality("480")
    ensures PreferredHeight(quality) == Num(480)
  {
    ThreeDigits('4', '8', '0');
    PreferredHeightOf("480");
  }

  /** The height of the tallest example stream: 2160. */
  lemma TallHeight(tall: Format)
    requires tall.resolution == Dimensions("3840", "2160")
    ensures GetHeight(tall.resolution) == Num(2160) && HeightKey(tall) == 2160
  {
    HeightKeyOf(tall, "3840", "2160");
    FourDigits('2', '1', '6', '0');
  }

  /** The height of the middle example stream: 720. */
  lemma MidHeight(mid: Format)
    requires mid.resolution == Dimensions("1280", "720")
    ensures GetHeight(mid.resolution) == Num(720) && HeightKey(mid) == 720
  {
    HeightKeyOf(mid, "1280", "720");
    ThreeDigits('7', '2', '0');
  }

  /** The height of the lowest example stream: 480. */
  lemma LowHeight(low: Format)
    requires low.resolution == Dimensions("854", "480")
    ensures GetHeight(low.resolution) == Num(480) && HeightKey(low) == 480
  {
    HeightKeyOf(low, "854", "480");
    ThreeDigits('4', '8', '0');
  }

  /** At 1080p the 720 stream fits. */
  lemma MidFits(mid: Format, preferred: JsInt)
    requires mid.resolution == Dimensions("1280", "720") && preferred == Num(1080)
    ensures Fits(mid, preferred)
  {
    MidHeight(mid);
  }

  /** At 480p neither the 720 nor the 2160 stream fits. */
  lemma NoneFits(mid: Format, tall: Format, preferred: JsInt)
    requires mid.resolution == Dimensions("1280", "720")
    requires tall.resolution == Dimensions("3840", "2160")
    requires preferred == Num(480)
    ensures !Fits(mid, preferred)
    ensures !Fits(tall, preferred)
  {
    TallHeight(tall);
    MidHeight(mid);
  }

  lemma NeitherFits(a: Format, b: Format, p: JsInt)
    requires !Fits(a, p) && !Fits(b, p)
    ensures forall f | f in [a, b] :: !Fits(f, p)
  {
    forall f | f in [a, b]
      ensures !Fits(f, p)
    {
      assert f == a || f == b;
    }
  }

  /**
   * Asking for 1080p among a 2160 video-only stream and 720 and 480 streams
   * with audio selects the 720 stream: it fits, has audio, and is the
   * highest such one; the taller video-only stream does not fit.
   */
  lemma PrefersAudioWithinRange(tall: Format, mid: Format, low: Format, quality: string)
    requires tall.resolution == Dimensions("3840", "2160") && tall.isVideoOnly && !tall.hasAudio && !tall.isCombined
    requires mid.resolution == Dimensions("1280", "720") && mid.isCombined
    requires low.resolution == Dimensions("854", "480") && low.isCombined
    requires quality == Quality("1080")
    ensures BestFormatId([tall, mid, low], quality) == mid.id
  {
    var formats := [tall, mid, low];
    var p := PreferredHeight(quality);
    Quality1080(quality);
    MidFits(mid, p);
    assert mid in formats;
    PrefersHighestFittingWithAudio(formats, quality);
    var g :| g in formats && WithAudio(g) && Fits(g, p) && BestFormatId(formats, quality) == g.id
      && forall f | f in formats && WithAudio(f) && Fits(f, p) :: HeightKey(f) <= HeightKey(g);
    assert HeightKey(mid) <= HeightKey(g);
    MidHeight(mid);
    LowHeight(low);
    assert g != tall;
    assert g != low;
  }

  /**
   * Asking for 480p when a 720 stream with audio and a 2160 video-only
   * stream are offered: nothing fits, and the result is the 720 stream,
   * although the video-only stream is higher.
   */
  lemma FallbackIsNotHighestOverall(mid: Format, tall: Format, quality: string)
    requires mid.resolution == Dimensions("1280", "720") && mid.isCombined
    requires tall.resolution == Dimensions("3840", "2160") && tall.isVideoOnly && !tall.hasAudio && !tall.isCombined
    requires quality == Quality("480")
    ensures BestFormatId([mid, tall], quality) == mid.id
    ensures HeightKey(tall) > HeightKey(mid)
  {
    var p := PreferredHeight(quality);
    Quality480(quality);
    NoneFits(mid, tall, p);
    NeitherFits(mid, tall, p);
    assert mid in [mid, tall];
    FallbackIsHighestWithAudio([mid, tall], quality);
    TallHeight(tall);
    MidHeight(mid);
  }
}
