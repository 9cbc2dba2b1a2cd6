/** `HeadingDetector` (`heading_detector.py`, and its duplicate `DocOutline/heading_detector.py`):
    the running font-size history, the prefilter, the additive confidence score, the
    two-tier level classifier, the text cleaner and the `analyze_text` driver.
    The history is threaded explicitly: every call takes the sizes seen so far and
    returns them with this span's size appended. */
module Detector {
  import opened Base
  import opened Text
  import opened Patterns

  datatype Level = H1 | H2 | H3

  /** What `analyze_text` returns when it finds a heading: `{"level": ..., "text": ...}`. */
  datatype Heading = Heading(level: Level, text: string)

  /** The outcome of one `analyze_text` call: the font-size history after the call and
      the heading found, if any. */
  datatype Analysis = Analysis(history: seq<real>, heading: Option<Heading>)

  // ---------------------------------------------------------------------------
  // Font statistics

  /** Python's `sum`, a left fold over the history. */
  function Sum(xs: seq<real>): real {
    if |xs| == 0 then 0.0 else Sum(xs[..|xs| - 1]) + xs[|xs| - 1]
  }

  /** The mean of the history, or 12 when nothing has been seen. */
  function Average(history: seq<real>): (avg: real)
    ensures |history| == 0 ==> avg == 12.0
    ensures |history| > 0 ==> avg * (|history| as real) == Sum(history)
  {
    if |history| == 0 then 12.0 else Sum(history) / (|history| as real)
  }

  lemma {:induction false} SumBetween(xs: seq<real>, lo: real, hi: real)
    requires forall i :: 0 <= i < |xs| ==> lo <= xs[i] <= hi
    ensures (|xs| as real) * lo <= Sum(xs) <= (|xs| as real) * hi
    decreases |xs|
  {
    if |xs| > 0 {
      var init := xs[..|xs| - 1];
      var last := xs[|xs| - 1];
      assert forall i :: 0 <= i < |init| ==> init[i] == xs[i];
      SumBetween(init, lo, hi);
      var m := |init| as real;
      assert Sum(xs) == Sum(init) + last;
      assert lo <= last <= hi;
      assert (|xs| as real) * lo == m * lo + lo by {
        assert (|xs| as real) == m + 1.0;
      }
      assert (|xs| as real) * hi == m * hi + hi by {
        assert (|xs| as real) == m + 1.0;
      }
    }
  }

  /** A non-empty history's average lies within any bounds on its observations. */
  lemma AverageBetween(history: seq<real>, lo: real, hi: real)
    requires |history| > 0
    requires forall i :: 0 <= i < |history| ==> lo <= history[i] <= hi
    ensures lo <= Average(history) <= hi
  {
    SumBetween(history, lo, hi);
    var n := |history| as real;
    var avg := Average(history);
    assert avg * n == Sum(history);
  }

  // ---------------------------------------------------------------------------
  // Prefilter

  /** `_is_potential_heading` */
  function IsPotentialHeading(text: string): (ok: bool)
    ensures ok ==> |text| >= 3
    // the numbered-list exemption never rescues a lower-case start: a lower-case letter is not a digit
    ensures ok <==> 3 <= |Trim(text)| <= 200 && WordCount(text) <= 20 && !IsLower(text[0])
  {
    var n := |Trim(text)|;
    if n < 3 || n > 200 then false
    else if WordCount(text) > 20 then false
    else if IsLower(text[0]) && !DigitsDot(text) then false
    else true
  }

  /** For a single word that does not start lower-case, only its length decides:
      200 characters pass, 201 do not. */
  lemma PrefilterLengthBoundary(text: string)
    requires |text| > 0 && !IsLower(text[0])
    requires forall i :: 0 <= i < |text| ==> !IsSpace(text[i])
    ensures IsPotentialHeading(text) <==> 3 <= |text| <= 200
  {
    OneWord(text);
  }

  lemma PrefilterAccepts200Rejects201()
    ensures IsPotentialHeading(seq(200, _ => 'A'))
    ensures !IsPotentialHeading(seq(201, _ => 'A'))
  {
    PrefilterLengthBoundary(seq(200, _ => 'A'));
    PrefilterLengthBoundary(seq(201, _ => 'A'));
  }

  // ---------------------------------------------------------------------------
  // Confidence

  /** The font-size signal: how far the size exceeds the running average. */
  datatype SizeTier = Ordinary | Larger | MuchLarger

  /** The capitalisation signal: `isupper()`, else `istitle()`, else neither. */
  datatype CaseTier = Mixed | TitleCase | UpperCase

  /** The independent signals the score adds up. */
  datatype Signals = Signals(
    size: SizeTier,
    bold: bool,            // flags bit 4
    heavyFont: bool,       // font name contains "bold" or "black"
    roleFont: bool,        // font name contains "heading" or "title"
    pattern: bool,         // some heading pattern matches
    keyword: bool,         // some heading keyword occurs
    nearTop: bool,         // in the top tenth of the page
    moderateLength: bool,  // trimmed length in [10, 80]
    casing: CaseTier)

  function SizeWeight(t: SizeTier): real {
    match t
    case Ordinary => 0.0
    case Larger => 0.2
    case MuchLarger => 0.3
  }

  function CaseWeight(t: CaseTier): real {
    match t
    case Mixed => 0.0
    case TitleCase => 0.05
    case UpperCase => 0.1
  }

  function Bonus(present: bool, weight: real): real {
    if present then weight else 0.0
  }

  /** The additive sum before clamping. */
  function RawScore(s: Signals): real {
    SizeWeight(s.size) + Bonus(s.bold, 0.2) + Bonus(s.heavyFont, 0.15) + Bonus(s.roleFont, 0.2)
    + Bonus(s.pattern, 0.3) + Bonus(s.keyword, 0.1) + Bonus(s.nearTop, 0.1)
    + Bonus(s.moderateLength, 0.1) + CaseWeight(s.casing)
  }

  /** `min(confidence, 1.0)` */
  function Score(s: Signals): (c: real)
    ensures 0.0 <= c <= 1.0
    ensures c <= RawScore(s)
    ensures RawScore(s) <= 1.0 ==> c == RawScore(s)
    ensures RawScore(s) > 1.0 ==> c == 1.0
  {
    if RawScore(s) <= 1.0 then RawScore(s) else 1.0
  }

  function SizeRank(t: SizeTier): nat {
    match t
    case Ordinary => 0
    case Larger => 1
    case MuchLarger => 2
  }

  function CaseRank(t: CaseTier): nat {
    match t
    case Mixed => 0
    case TitleCase => 1
    case UpperCase => 2
  }

  /** `t` has every signal `s` has, and at least as high a size and case tier. */
  predicate AtLeast(t: Signals, s: Signals) {
    && SizeRank(s.size) <= SizeRank(t.size)
    && (s.bold ==> t.bold) && (s.heavyFont ==> t.heavyFont) && (s.roleFont ==> t.roleFont)
    && (s.pattern ==> t.pattern) && (s.keyword ==> t.keyword) && (s.nearTop ==> t.nearTop)
    && (s.moderateLength ==> t.moderateLength)
    && CaseRank(s.casing) <= CaseRank(t.casing)
  }

  /** Switching on any signals, with the others fixed, never lowers the score. */
  lemma ScoreMonotone(s: Signals, t: Signals)
    requires AtLeast(t, s)
    ensures Score(s) <= Score(t)
  {
    assert SizeWeight(s.size) <= SizeWeight(t.size);
    assert CaseWeight(s.casing) <= CaseWeight(t.casing);
  }

  function SizeTierOf(size: real, average: real): (t: SizeTier)
    ensures t == MuchLarger <==> size > average * 1.2
    ensures t == Larger <==> size > average * 1.1 && !(size > average * 1.2)
    ensures t == Ordinary <==> size <= average * 1.1 && size <= average * 1.2
  {
    if size > average * 1.2 then MuchLarger
    else if size > average * 1.1 then Larger
    else Ordinary
  }

  /** `flags & 2**4`, read off the integer for any sign (two's complement bit 4). */
  predicate IsBold(flags: int) {
    (flags / 16) % 2 == 1
  }

  /** Bit 4 is set exactly when the residue modulo 32 is at least 16, for negative flags
      too: two's complement agrees with Euclidean division. */
  lemma BoldBitMeaning(flags: int)
    ensures IsBold(flags) <==> flags % 32 >= 16
  {
    var q, r := flags / 32, flags % 32;
    assert flags == 32 * q + 16 * (r / 16) + r % 16;
    assert flags / 16 == 2 * q + r / 16;
  }

  /** `relative_position < 0.1`, where the y coordinate is `bbox[1]` (0 for an empty box) and
      the relative position is 0 on a page of non-positive height. */
  predicate NearTop(bbox: seq<real>, pageHeight: real)
    requires |bbox| != 1
  {
    var y := if |bbox| == 0 then 0.0 else bbox[1];
    var relative := if pageHeight > 0.0 then y / pageHeight else 0.0;
    relative < 0.1
  }

  /** On a page of positive height a span is near the top when its box starts above a tenth
      of the height, or it has no box; on any other page it always is. */
  lemma NearTopMeaning(bbox: seq<real>, pageHeight: real)
    requires |bbox| != 1
    ensures NearTop(bbox, pageHeight) <==> pageHeight <= 0.0 || |bbox| == 0 || bbox[1] < pageHeight * 0.1
  {
    if pageHeight > 0.0 && |bbox| > 0 {
      var y := bbox[1];
      assert y / pageHeight * pageHeight == y;
      if y / pageHeight < 0.1 {
        assert y < pageHeight * 0.1;
      }
      if y < pageHeight * 0.1 {
        assert y / pageHeight < 0.1;
      }
    }
  }

  function CaseTierOf(text: string): (t: CaseTier)
    ensures t == UpperCase <==> IsUpperText(text)
    ensures t == TitleCase <==> !IsUpperText(text) && IsTitleText(text)
  {
    if IsUpperText(text) then UpperCase
    else if IsTitleText(text) then TitleCase
    else Mixed
  }

  /** The scan over the pattern table that stops at the first match. */
  function FirstPattern(copy: Copy, text: string): (r: Option<nat>)
    ensures r.Some? <==> exists i :: 0 <= i < |PatternTable(copy)| && MatchesIgnoringCase(PatternTable(copy)[i], text)
  {
    FirstWhere(PatternTable(copy), (p: Pattern) => MatchesIgnoringCase(p, text))
  }

  /** The scan over the keyword list that stops at the first keyword found. */
  function FirstKeyword(text: string): (r: Option<nat>)
    ensures r.Some? <==> exists i :: 0 <= i < |Keywords| && Contains(Lower(text), Keywords[i])
  {
    FirstWhere(Keywords, (k: string) => Contains(Lower(text), k))
  }

  /** The signals `_calculate_heading_confidence` inspects. `history` already holds this
      span's size. */
  function SignalsOf(copy: Copy, history: seq<real>, text: string, size: real, font: string,
                     flags: int, bbox: seq<real>, pageHeight: real): (s: Signals)
    requires |bbox| != 1
    ensures s.size == MuchLarger <==> size > Average(history) * 1.2
    ensures s.size == Larger <==> size > Average(history) * 1.1 && !(size > Average(history) * 1.2)
    ensures s.bold <==> flags % 32 >= 16
    ensures s.nearTop <==> pageHeight <= 0.0 || |bbox| == 0 || bbox[1] < pageHeight * 0.1
    ensures s.moderateLength <==> 10 <= |Trim(text)| <= 80
  {
    BoldBitMeaning(flags);
    NearTopMeaning(bbox, pageHeight);
    var fontLower := Lower(font);
    Signals(
      SizeTierOf(size, Average(history)),
      IsBold(flags),
      Contains(fontLower, "bold") || Contains(fontLower, "black"),
      Contains(fontLower, "heading") || Contains(fontLower, "title"),
      FirstPattern(copy, text).Some?,
      FirstKeyword(text).Some?,
      NearTop(bbox, pageHeight),
      10 <= |Trim(text)| <= 80,
      CaseTierOf(text))
  }

  /** The signals read off the text and the font name: the font name, lower-cased, names a
      heavy weight or a heading role; some pattern of the table matches the text ignoring
      case; some keyword occurs in the lower-cased text; the capitalisation tier. */
  lemma TextSignalsMeaning(copy: Copy, history: seq<real>, text: string, size: real, font: string,
                           flags: int, bbox: seq<real>, pageHeight: real)
    requires |bbox| != 1
    ensures var s := SignalsOf(copy, history, text, size, font, flags, bbox, pageHeight);
      && (s.heavyFont <==> Contains(Lower(font), "bold") || Contains(Lower(font), "black"))
      && (s.roleFont <==> Contains(Lower(font), "heading") || Contains(Lower(font), "title"))
      && (s.pattern <==>
           exists i :: 0 <= i < |PatternTable(copy)| && MatchesIgnoringCase(PatternTable(copy)[i], text))
      && (s.keyword <==> exists i :: 0 <= i < |Keywords| && Contains(Lower(text), Keywords[i]))
      && (s.casing == UpperCase <==> IsUpperText(text))
      && (s.casing == TitleCase <==> !IsUpperText(text) && IsTitleText(text))
  {
  }

  /** `_calculate_heading_confidence` */
  function Confidence(copy: Copy, history: seq<real>, text: string, size: real, font: string,
                      flags: int, bbox: seq<real>, pageHeight: real): (c: real)
    requires |bbox| != 1
    ensures 0.0 <= c <= 1.0
  {
    Score(SignalsOf(copy, history, text, size, font, flags, bbox, pageHeight))
  }

  /** When the span's size is the only observation and it is not negative, the average
      is the size itself, so the size signal is off. */
  lemma SoleObservationNoSizeBonus(size: real)
    requires size >= 0.0
    ensures SizeTierOf(size, Average([size])) == Ordinary
  {
    assert Sum([size]) == Sum([]) + size;
  }

  /** The size signal depends on the order spans arrive in: a size-20 span seen first
      earns nothing, the same span after three size-10 spans earns the top tier. */
  lemma SizeSignalOrderSensitive()
    ensures SizeTierOf(20.0, Average([20.0])) == Ordinary
    ensures SizeTierOf(20.0, Average([10.0, 10.0, 10.0, 20.0])) == MuchLarger
  {
    var h := [10.0, 10.0, 10.0, 20.0];
    assert h[..3] == [10.0, 10.0, 10.0] && h[..3][..2] == [10.0, 10.0] && h[..3][..2][..1] == [10.0];
    assert Sum([10.0]) == 10.0 by {
      assert [10.0][..0] == [];
    }
    assert Sum([10.0, 10.0]) == 20.0;
    assert Sum([10.0, 10.0, 10.0]) == 30.0;
    assert Sum(h) == 50.0;
    SoleObservationNoSizeBonus(20.0);
  }

  /** In the `DocOutline/` copy the bullet literal is `â€¢`, so text opening with `•`
      matches no pattern at all. */
  lemma DocOutlineBulletEarnsNothing(text: string)
    requires |text| > 0 && text[0] == '\U{2022}'
    ensures FirstPattern(DocOutline, text).None?
  {
    var f := Lower(text);
    assert f[0] == '\U{2022}';
    var t := PatternTable(DocOutline);
    forall i | 0 <= i < |t| ensures !MatchesIgnoringCase(t[i], text) {
      assert PrefixRun(f, IsDigit) == 0;
      assert PrefixRun(f, IsRomanLower) == 0;
      if i == 9 {
        assert Lower(BulletMarker(DocOutline))[0] == '\U{E2}';
      }
      if (i == 0 || i == 1) && |f| >= 7 {
        assert f[..7][0] == f[0];
      }
    }
  }

  /** In the top-level copy `•` followed by whitespace matches the bullet pattern. */
  lemma RootBulletMatches(text: string)
    requires |text| > 1 && text[0] == '\U{2022}' && IsSpace(text[1])
    ensures FirstPattern(Root, text).Some?
  {
    var f := Lower(text);
    assert MatchesIgnoringCase(PatternTable(Root)[9], text) by {
      assert Lower(BulletMarker(Root)) == ['\U{2022}'];
      assert f[..1] == ['\U{2022}'];
    }
  }

  /** Apart from the bullet pattern the two copies score every span alike. */
  lemma CopiesScoreAlike(history: seq<real>, text: string, size: real, font: string,
                         flags: int, bbox: seq<real>, pageHeight: real)
    requires |bbox| != 1
    requires !MatchesIgnoringCase(Marker(BulletMarker(Root)), text)
    requires !MatchesIgnoringCase(Marker(BulletMarker(DocOutline)), text)
    ensures Confidence(Root, history, text, size, font, flags, bbox, pageHeight)
         == Confidence(DocOutline, history, text, size, font, flags, bbox, pageHeight)
  {
    SamePatternHit(text);
    assert SignalsOf(Root, history, text, size, font, flags, bbox, pageHeight)
        == SignalsOf(DocOutline, history, text, size, font, flags, bbox, pageHeight);
  }

  /** Away from the bullet entry, both copies' pattern scans find a match or both do not. */
  lemma SamePatternHit(text: string)
    requires !MatchesIgnoringCase(Marker(BulletMarker(Root)), text)
    requires !MatchesIgnoringCase(Marker(BulletMarker(DocOutline)), text)
    ensures FirstPattern(Root, text).Some? == FirstPattern(DocOutline, text).Some?
  {
    var a := PatternTable(Root);
    var b := PatternTable(DocOutline);
    FirstWhereAgree(a, b, (p: Pattern) => MatchesIgnoringCase(p, text), 9);
  }

  // ---------------------------------------------------------------------------
  // Level classification

  datatype Thresholds = Thresholds(h1: real, h2: real, h3: real)

  /** Python's `max(a, b)` */
  function Max(a: real, b: real): real {
    if b > a then b else a
  }

  /** The adaptive font-size thresholds of `_classify_heading_level`. */
  function ThresholdsOf(history: seq<real>): (t: Thresholds)
    ensures t.h1 >= 16.0 && t.h2 >= 14.0 && t.h3 >= 12.0
    ensures t.h1 >= t.h2 >= t.h3
    ensures |history| == 0 ==> t == Thresholds(16.0, 14.0, 12.0)
    ensures |history| > 0 ==>
      t.h1 >= Average(history) * 1.4 && t.h2 >= Average(history) * 1.2 && t.h3 >= Average(history) * 1.1
    ensures |history| > 0 ==>
      && (t.h1 == 16.0 || t.h1 == Average(history) * 1.4)
      && (t.h2 == 14.0 || t.h2 == Average(history) * 1.2)
      && (t.h3 == 12.0 || t.h3 == Average(history) * 1.1)
  {
    if |history| > 0 then
      var avg := Average(history);
      Thresholds(Max(avg * 1.4, 16.0), Max(avg * 1.2, 14.0), Max(avg * 1.1, 12.0))
    else
      Thresholds(16.0, 14.0, 12.0)
  }

  /** At most one of the five numbering patterns can match a text, so their priority
      order never decides between two of them. */
  lemma OverridesExclusive(s: string)
    ensures ChapterMatch(s) ==> !SectionMatch(s) && !NumberedMatch(s) && !NumberedTwoMatch(s) && !NumberedThreeMatch(s)
    ensures SectionMatch(s) ==> !NumberedMatch(s) && !NumberedTwoMatch(s) && !NumberedThreeMatch(s)
    ensures NumberedMatch(s) ==> !NumberedTwoMatch(s) && !NumberedThreeMatch(s)
    ensures NumberedTwoMatch(s) ==> !NumberedThreeMatch(s)
  {
    if ChapterMatch(s) || SectionMatch(s) {
      assert s[..7][0] == s[0];
      assert !IsDigit(s[0]);
      assert LeadDigits(s) == 0;
    }
    if DigitsDot(s) {
      var u := AfterDigits(s)[1..];
      if StartsWithSpace(u) {
        assert LeadDigits(u) == 0;
      }
      if LeadDigits(u) >= 1 {
        var v := AfterDigits(u);
        if StartsWithSpace(v) {
          assert !StartsWithDot(v);
        }
      }
    }
  }

  /** The case-sensitive lexical overrides, in priority order. */
  function Override(text: string): (r: Option<Level>)
    ensures r.Some? <==> ChapterMatch(text) || SectionMatch(text) || NumberedMatch(text)
                         || NumberedTwoMatch(text) || NumberedThreeMatch(text)
    ensures ChapterMatch(text) || NumberedMatch(text) ==> r == Some(H1)
    ensures SectionMatch(text) || NumberedTwoMatch(text) ==> r == Some(H2)
    ensures NumberedThreeMatch(text) ==> r == Some(H3)
  {
    OverridesExclusive(text);
    if ChapterMatch(text) then Some(H1)
    else if SectionMatch(text) then Some(H2)
    else if NumberedMatch(text) then Some(H1)
    else if NumberedTwoMatch(text) then Some(H2)
    else if NumberedThreeMatch(text) then Some(H3)
    else None
  }

  /** `_classify_heading_level`: a lexical override wins outright; otherwise the font-size
      tiers, then the confidence-only bands. */
  function Classify(text: string, size: real, confidence: real, history: seq<real>): (r: Option<Level>)
    ensures Override(text).Some? ==> r == Override(text)
    ensures Override(text).None? ==>
      (r.Some? <==> confidence > 0.4 || (size >= ThresholdsOf(history).h3 && confidence > 0.3))
    ensures Override(text).None? && r == Some(H1) ==> size >= ThresholdsOf(history).h1 && confidence > 0.5
    ensures Override(text).None? && r == Some(H2) ==>
      (size >= ThresholdsOf(history).h2 && confidence > 0.4) || confidence > 0.5
    ensures Override(text).None? && r == Some(H3) ==>
      confidence > 0.3 && !(size >= ThresholdsOf(history).h2 && confidence > 0.4)
  {
    var t := ThresholdsOf(history);
    match Override(text)
    case Some(level) => Some(level)
    case None =>
      if size >= t.h1 && confidence > 0.5 then Some(H1)
      else if size >= t.h2 && confidence > 0.4 then Some(H2)
      else if size >= t.h3 && confidence > 0.3 then Some(H3)
      else if confidence > 0.5 then Some(H2)
      else if confidence > 0.4 then Some(H3)
      else None
  }

  /** Growing the font can lower the level: after four size-10 spans, at confidence 0.55,
      a size-11 span falls through to the confidence bands and is H2, while a size-12.5 span
      reaches the H3 size tier and stops there. */
  lemma LargerFontCanDemote()
    ensures Classify("Plain", 11.0, 0.55, [10.0, 10.0, 10.0, 10.0, 11.0]) == Some(H2)
    ensures Classify("Plain", 12.5, 0.55, [10.0, 10.0, 10.0, 10.0, 12.5]) == Some(H3)
  {
    assert Override("Plain").None? by {
      assert !IsDigit('P');
      assert LeadDigits("Plain") == 0;
    }
    AfterFourTens(11.0);
    AfterFourTens(12.5);
  }

  lemma AfterFourTens(x: real)
    ensures Average([10.0, 10.0, 10.0, 10.0, x]) == (40.0 + x) / 5.0
  {
    var h := [10.0, 10.0, 10.0, 10.0, x];
    assert h[..4] == [10.0, 10.0, 10.0, 10.0];
    SumBetween(h[..4], 10.0, 10.0);
  }

  /** The overrides are case-sensitive: `Chapter` and `CHAPTER` override, `chapter` does not,
      though the scorer's pattern test ignores case. */
  lemma OverrideCaseSensitive()
    ensures Override("Chapter 3 Results") == Some(H1)
    ensures Override("CHAPTER 3") == Some(H1)
    ensures Override("chapter 3 results") == None
    ensures MatchesIgnoringCase(ChapterNumber, "chapter 3 results")
  {
    ChapterLiteral("Chapter 3 Results", "Chapter");
    ChapterLiteral("CHAPTER 3", "CHAPTER");
    LowerChapterNoOverride();
  }

  lemma ChapterLiteral(s: string, word: string)
    requires word == "Chapter" || word == "CHAPTER"
    requires s == word + " 3 Results" || s == word + " 3"
    ensures ChapterMatch(s)
  {
    assert s[..7] == word;
    assert s[7..][0] == ' ' && s[7..][1] == '3';
    assert PrefixRun(s[7..][1..], IsSpace) == 0;
  }

  lemma LowerChapterNoOverride()
    ensures Override("chapter 3 results") == None
    ensures MatchesIgnoringCase(ChapterNumber, "chapter 3 results")
  {
    LowerChapterNotOverridden();
    LowerChapterMatches();
  }

  lemma LowerChapterNotOverridden()
    ensures Override("chapter 3 results") == None
  {
    var s := "chapter 3 results";
    assert !IsDigit(s[0]);
    assert LeadDigits(s) == 0;
    assert s[..7][0] == 'c';
  }

  lemma LowerChapterMatches()
    ensures MatchesIgnoringCase(ChapterNumber, "chapter 3 results")
  {
    ChapterLowered();
    var s := "chapter 3 results";
    assert s[..7] == "chapter" && s[7] == ' ' && IsDigit(s[8]);
    WordSpaceDigit(s, "chapter");
  }

  lemma ChapterLowered()
    ensures Lower("chapter 3 results") == "chapter 3 results"
  {
    var s := "chapter 3 results";
    assert forall i :: 0 <= i < |s| ==> !IsUpper(s[i]);
    LowerFixes(s);
  }

  /** A text with an override classifies the same whatever its size, confidence and the
      history: "Chapter 3 Results" is H1 even at the average size and middling confidence. */
  lemma OverrideIgnoresSizeAndConfidence(size: real, confidence: real, history: seq<real>)
    ensures Classify("Chapter 3 Results", size, confidence, history) == Some(H1)
  {
    OverrideCaseSensitive();
  }

  // ---------------------------------------------------------------------------
  // Text cleaning

  /** The class `[.,:;!?]` */
  predicate IsTrailingPunct(c: char) {
    c == '.' || c == ',' || c == ':' || c == ';' || c == '!' || c == '?'
  }

  /** `re.sub(r'[.,:;!?]+$', '', s)`: the longest prefix not ending in punctuation, with
      only punctuation after it. */
  function StripTrailingPunct(s: string): (r: string)
    ensures |r| <= |s| && r == s[..|r|]
    ensures |r| == 0 || !IsTrailingPunct(r[|r| - 1])
    ensures forall i :: |r| <= i < |s| ==> IsTrailingPunct(s[i])
  {
    var k := SuffixRun(s, IsTrailingPunct);
    s[..|s| - k]
  }

  /** `_clean_heading_text`: whitespace-normalise, then, unless the text starts with
      `\d+\.`, drop the trailing run of punctuation. */
  function Clean(text: string): (r: string)
    ensures |r| <= |Normalize(text)| && r == Normalize(text)[..|r|]
    ensures |r| > 0 ==> !IsSpace(r[0])
    ensures Collapsed(r)
    ensures DigitsDot(Normalize(text)) ==> r == Normalize(text)
    ensures !DigitsDot(Normalize(text)) ==> r == StripTrailingPunct(Normalize(text))
  {
    var n := Normalize(text);
    if DigitsDot(n) then n
    else
      var r := StripTrailingPunct(n);
      CollapsedSlice(n, 0, |r|);
      assert |r| > 0 ==> r[0] == n[0];
      r
  }

  /** A string already in normal form is its own normalisation. */
  lemma NormalizeFixes(s: string)
    requires Collapsed(s)
    requires |s| == 0 || (!IsSpace(s[0]) && !IsSpace(s[|s| - 1]))
    ensures Normalize(s) == s
  {
    CollapseFixesCollapsed(s);
  }

  /** Cleaning is not idempotent: stripping the trailing punctuation can expose a space. */
  lemma CleanNotIdempotent()
    ensures Clean("Foo .") == "Foo "
    ensures Clean(Clean("Foo .")) == "Foo"
  {
    CleanFooDot();
    CleanFooSpace();
  }

  lemma CleanFooDot()
    ensures Clean("Foo .") == "Foo "
  {
    var s := "Foo .";
    FooDotNormal();
    FooDotSuffix();
    assert !DigitsDot(s) by {
      assert !IsDigit(s[0]);
    }
  }

  lemma FooDotSuffix()
    ensures StripTrailingPunct("Foo .") == "Foo "
  {
    var s := "Foo .";
    assert s[..4] == "Foo ";
    assert !IsTrailingPunct(s[..4][3]);
    assert SuffixRun(s, IsTrailingPunct) == 1;
  }

  lemma FooDotNormal()
    ensures Normalize("Foo .") == "Foo ."
  {
    var s := "Foo .";
    assert Collapsed(s) by {
      assert forall i :: 0 <= i < |s| && IsSpace(s[i]) ==> i == 3;
    }
    NormalizeFixes(s);
  }

  lemma CleanFooSpace()
    ensures Clean("Foo ") == "Foo"
  {
    FooSpaceNormal();
    FooIsPlain();
  }

  lemma FooIsPlain()
    ensures !DigitsDot("Foo") && StripTrailingPunct("Foo") == "Foo"
  {
    var u := "Foo";
    assert !IsDigit(u[0]);
    assert LeadDigits(u) == 0;
    assert SuffixRun(u, IsTrailingPunct) == 0;
  }

  lemma FooSpaceNormal()
    ensures Normalize("Foo ") == "Foo"
  {
    var t := "Foo ";
    assert Collapsed(t) by {
      assert forall i :: 0 <= i < |t| && IsSpace(t[i]) ==> i == 3;
    }
    CollapseFixesCollapsed(t);
    FooSpaceTrim();
  }

  lemma FooSpaceTrim()
    ensures Trim("Foo ") == "Foo"
  {
    var t := "Foo ";
    assert PrefixRun(t, IsSpace) == 0;
    assert t[..3] == "Foo";
    assert SuffixRun(t[..3], IsSpace) == 0;
    assert SuffixRun(t, IsSpace) == 1;
    assert t[0..] == t;
  }

  /** Cleaning is idempotent whenever its result does not end in whitespace. */
  lemma CleanStableUnlessTrailingSpace(text: string)
    requires |Clean(text)| == 0 || !IsSpace(Clean(text)[|Clean(text)| - 1])
    ensures Clean(Clean(text)) == Clean(text)
  {
    var r := Clean(text);
    NormalizeFixes(r);
    CleanEnds(text);
    CleanFixes(r);
  }

  /** A cleaned text starts with `\d+\.` or does not end in punctuation. */
  lemma CleanEnds(text: string)
    ensures var r := Clean(text); DigitsDot(r) || |r| == 0 || !IsTrailingPunct(r[|r| - 1])
  {
    var n := Normalize(text);
    var r := Clean(text);
    if !DigitsDot(n) && DigitsDot(r) {
      DigitsDotPrefix(r, n);
    }
  }

  /** A normalised text that starts with `\d+\.` or does not end in punctuation is its
      own cleaned form. */
  lemma CleanFixes(r: string)
    requires Normalize(r) == r
    requires DigitsDot(r) || |r| == 0 || !IsTrailingPunct(r[|r| - 1])
    ensures Clean(r) == r
  {
    if !DigitsDot(r) {
      StripKeepsUnpunctuated(r);
    }
  }

  /** Text that does not end in punctuation loses nothing to the punctuation strip. */
  lemma StripKeepsUnpunctuated(s: string)
    requires |s| == 0 || !IsTrailingPunct(s[|s| - 1])
    ensures StripTrailingPunct(s) == s
  {
    assert SuffixRun(s, IsTrailingPunct) == 0;
  }

  /** `^\d+\.` found at the start of a prefix is found at the start of the whole. */
  lemma DigitsDotPrefix(r: string, n: string)
    requires DigitsDot(r) && |r| <= |n| && r == n[..|r|]
    ensures DigitsDot(n)
  {
    var k := LeadDigits(r);
    assert forall i :: 0 <= i <= k ==> r[i] == n[i];
  }

  /** A numbered heading keeps its text: "1. Introduction" overrides to H1 and is
      unchanged by cleaning. */
  lemma NumberedIntroduction(size: real, confidence: real, history: seq<real>)
    ensures Classify("1. Introduction", size, confidence, history) == Some(H1)
    ensures Clean("1. Introduction") == "1. Introduction"
  {
    IntroductionIsNumbered();
    IntroductionIsNormal();
  }

  /** A text that passes the prefilter and that the level classifier overrides is always
      reported, at the override's level, under its cleaned text: its pattern alone earns the
      minimum confidence, and the override fixes the level whatever the size, the font and
      the history. */
  lemma OverrideIsReported(copy: Copy, history: seq<real>, text: string, size: real, font: string,
                           flags: int, bbox: seq<real>, pageHeight: real)
    requires |bbox| != 1 && IsPotentialHeading(text) && Override(text).Some?
    ensures AnalyzeText(copy, history, text, size, font, flags, bbox, pageHeight)
         == Analysis(history + [size], Some(Heading(Override(text).value, Clean(text))))
  {
    var h := history + [size];
    PatternAloneConfident(copy, h, text, size, font, flags, bbox, pageHeight);
    var c := Confidence(copy, h, text, size, font, flags, bbox, pageHeight);
    AnalyzeReports(copy, history, text, size, font, flags, bbox, pageHeight, c, Override(text).value);
  }

  /** In particular a text starting like `^\d+\.\s+` is reported as H1. */
  lemma NumberedIsReportedH1(copy: Copy, history: seq<real>, text: string, size: real, font: string,
                             flags: int, bbox: seq<real>, pageHeight: real)
    requires |bbox| != 1 && IsPotentialHeading(text) && NumberedMatch(text)
    ensures AnalyzeText(copy, history, text, size, font, flags, bbox, pageHeight)
         == Analysis(history + [size], Some(Heading(H1, Clean(text))))
  {
    OverrideIsReported(copy, history, text, size, font, flags, bbox, pageHeight);
  }

  /** An overridden text earns the pattern signal, and with it alone a confidence of 0.3. */
  lemma PatternAloneConfident(copy: Copy, history: seq<real>, text: string, size: real, font: string,
                              flags: int, bbox: seq<real>, pageHeight: real)
    requires |bbox| != 1 && Override(text).Some?
    ensures Confidence(copy, history, text, size, font, flags, bbox, pageHeight) >= 0.3
  {
    var sg := SignalsOf(copy, history, text, size, font, flags, bbox, pageHeight);
    OverrideSignal(copy, history, text, size, font, flags, bbox, pageHeight);
    var base := Signals(Ordinary, false, false, false, true, false, false, false, Mixed);
    assert AtLeast(sg, base);
    ScoreMonotone(base, sg);
  }

  /** An overridden text earns the pattern signal. */
  lemma OverrideSignal(copy: Copy, history: seq<real>, text: string, size: real, font: string,
                       flags: int, bbox: seq<real>, pageHeight: real)
    requires |bbox| != 1 && Override(text).Some?
    ensures SignalsOf(copy, history, text, size, font, flags, bbox, pageHeight).pattern
  {
    OverrideHitsTable(copy, text);
  }

  /** Each case-sensitive override pattern also matches its IGNORECASE entry of the table,
      so the scan over the table finds a pattern. */
  lemma OverrideHitsTable(copy: Copy, text: string)
    requires Override(text).Some?
    ensures FirstPattern(copy, text).Some?
  {
    var k := OverrideEntry(text);
    TableHit(copy, text, k);
  }

  /** An IGNORECASE match of one of the shared table entries is found by the scan. */
  lemma TableHit(copy: Copy, text: string, k: nat)
    requires k < 5 && MatchesIgnoringCase(SharedPatterns[k], text)
    ensures FirstPattern(copy, text).Some?
  {
    assert PatternTable(copy)[k] == SharedPatterns[k];
  }

  lemma IntroductionPrefilter()
    ensures Trim("1. Introduction") == "1. Introduction" && IsPotentialHeading("1. Introduction")
  {
    var s := "1. Introduction";
    assert !IsSpace(s[0]) && !IsSpace(s[|s| - 1]) && !IsLower(s[0]);
  }

  lemma IntroductionIsNumbered()
    ensures NumberedMatch("1. Introduction") && DigitsDot("1. Introduction")
  {
    var s := "1. Introduction";
    assert PrefixRun(s, IsDigit) == 1;
    assert AfterDigits(s) == ". Introduction";
  }

  lemma IntroductionIsNormal()
    ensures Normalize("1. Introduction") == "1. Introduction"
  {
    var s := "1. Introduction";
    assert Collapsed(s) by {
      assert forall i :: 0 <= i < |s| && IsSpace(s[i]) ==> i == 2;
    }
    NormalizeFixes(s);
  }

  // ---------------------------------------------------------------------------
  // The driver

  /** `analyze_text`: record the size, prefilter, score, gate at 0.3, classify, clean. */
  function AnalyzeText(copy: Copy, history: seq<real>, text: string, size: real, font: string,
                       flags: int, bbox: seq<real>, pageHeight: real): (a: Analysis)
    requires |bbox| != 1 || !IsPotentialHeading(text)
    // the size is recorded first, whatever the outcome
    ensures a.history == history + [size]
    ensures a.heading.Some? <==>
      && IsPotentialHeading(text)
      && var c := Confidence(copy, history + [size], text, size, font, flags, bbox, pageHeight);
         c >= 0.3 && (Override(text).Some? || c > 0.4 || (size >= ThresholdsOf(history + [size]).h3 && c > 0.3))
    ensures a.heading.Some? ==> a.heading.value.text == Clean(text)
    ensures a.heading.Some? && Override(text).Some? ==> a.heading.value.level == Override(text).value
    ensures a.heading.Some? ==>
      Some(a.heading.value.level)
      == Classify(text, size, Confidence(copy, history + [size], text, size, font, flags, bbox, pageHeight), history + [size])
  {
    var seen := history + [size];
    if !IsPotentialHeading(text) then Analysis(seen, None)
    else
      var c := Confidence(copy, seen, text, size, font, flags, bbox, pageHeight);
      if c < 0.3 then Analysis(seen, None)
      else
        match Classify(text, size, c, seen)
        case Some(level) => Analysis(seen, Some(Heading(level, Clean(text))))
        case None => Analysis(seen, None)
  }

  /** Apart from the bullet pattern the two copies analyse every span alike. */
  lemma CopiesAnalyseAlike(history: seq<real>, text: string, size: real, font: string,
                           flags: int, bbox: seq<real>, pageHeight: real)
    requires |bbox| != 1 || !IsPotentialHeading(text)
    requires !MatchesIgnoringCase(Marker(BulletMarker(Root)), text)
    requires !MatchesIgnoringCase(Marker(BulletMarker(DocOutline)), text)
    ensures AnalyzeText(Root, history, text, size, font, flags, bbox, pageHeight)
         == AnalyzeText(DocOutline, history, text, size, font, flags, bbox, pageHeight)
  {
    if IsPotentialHeading(text) {
      CopiesScoreAlike(history + [size], text, size, font, flags, bbox, pageHeight);
    }
  }

  /** A span made only of punctuation passes the prefilter and can be reported as a
      heading, and cleaning then leaves it empty: "..." in a bold font at the top of the
      page becomes an H3 heading with empty text. */
  lemma PunctuationOnlyHeadingIsEmpty(copy: Copy)
    ensures AnalyzeText(copy, [], "...", 12.0, "Bold", 16, [0.0, 0.0, 0.0, 0.0], 800.0)
         == Analysis([12.0], Some(Heading(H3, "")))
  {
    PunctuationFacts(copy);
    AnalyzeReports(copy, [], "...", 12.0, "Bold", 16, [0.0, 0.0, 0.0, 0.0], 800.0, 0.45, H3);
  }

  lemma PunctuationFacts(copy: Copy)
    ensures IsPotentialHeading("...")
    ensures Confidence(copy, [12.0], "...", 12.0, "Bold", 16, [0.0, 0.0, 0.0, 0.0], 800.0) == 0.45
    ensures Classify("...", 12.0, 0.45, [12.0]) == Some(H3)
    ensures Clean("...") == ""
  {
    OneWord("...");
    PunctuationConfidence(copy);
    PunctuationClassify();
    PunctuationCleansToEmpty();
  }

  lemma PunctuationConfidence(copy: Copy)
    ensures Confidence(copy, [12.0], "...", 12.0, "Bold", 16, [0.0, 0.0, 0.0, 0.0], 800.0) == 0.45
  {
    PunctuationSignals(copy);
  }

  lemma PunctuationClassify()
    ensures Classify("...", 12.0, 0.45, [12.0]) == Some(H3)
  {
    var s := "...";
    assert Override(s).None? by {
      assert !IsDigit(s[0]);
      assert LeadDigits(s) == 0;
    }
    SumSingle(12.0);
  }

  /** The analysis of a span that passes the prefilter and is classified at `level`. */
  lemma AnalyzeReports(copy: Copy, history: seq<real>, text: string, size: real, font: string,
                       flags: int, bbox: seq<real>, pageHeight: real, c: real, level: Level)
    requires |bbox| != 1 && IsPotentialHeading(text)
    requires Confidence(copy, history + [size], text, size, font, flags, bbox, pageHeight) == c
    requires c >= 0.3 && Classify(text, size, c, history + [size]) == Some(level)
    ensures AnalyzeText(copy, history, text, size, font, flags, bbox, pageHeight)
         == Analysis(history + [size], Some(Heading(level, Clean(text))))
  {
  }

  lemma SumSingle(x: real)
    ensures Sum([x]) == x && Average([x]) == x
  {
    assert [x][..0] == [];
  }

  lemma PunctuationSignals(copy: Copy)
    ensures SignalsOf(copy, [12.0], "...", 12.0, "Bold", 16, [0.0, 0.0, 0.0, 0.0], 800.0)
         == Signals(Ordinary, true, true, false, false, false, true, false, Mixed)
  {
    SumSingle(12.0);
    BoldFontName();
    PunctuationMatchesNoPattern(copy);
    PunctuationHasNoKeyword();
    PunctuationIsMixedCase();
    BoldBit();
    assert NearTop([0.0, 0.0, 0.0, 0.0], 800.0);
  }

  lemma BoldFontName()
    ensures var f := Lower("Bold");
      && Contains(f, "bold")
      && !Contains(f, "black") && !Contains(f, "heading") && !Contains(f, "title")
  {
    assert Lower("Bold") == "bold";
    assert Contains("bold", "bold");
  }

  lemma PunctuationMatchesNoPattern(copy: Copy)
    ensures FirstPattern(copy, "...").None?
  {
    var s := "...";
    assert Lower(s) == s;
    var t := PatternTable(copy);
    forall i | 0 <= i < |t| ensures !MatchesIgnoringCase(t[i], s) {
      assert PrefixRun(s, IsDigit) == 0;
      assert PrefixRun(s, IsRomanLower) == 0;
    }
  }

  lemma PunctuationHasNoKeyword()
    ensures FirstKeyword("...").None?
  {
    var s := "...";
    assert Lower(s) == s;
    KeywordsAreLong();
    forall i | 0 <= i < |Keywords| ensures !Contains(s, Keywords[i]) {
      assert |Keywords[i]| > 3;
    }
  }

  lemma PunctuationIsMixedCase()
    ensures CaseTierOf("...") == Mixed && Trim("...") == "..."
  {
    var s := "...";
    assert !IsUpperText(s);
    assert !IsTitleText(s);
    assert Trim(s) == s by {
      assert !IsSpace(s[0]) && !IsSpace(s[|s| - 1]);
    }
  }

  lemma KeywordsAreLong()
    ensures forall i :: 0 <= i < |Keywords| ==> |Keywords[i]| >= 7
  {
  }

  lemma BoldBit()
    ensures IsBold(16)
  {
    assert 16 / 16 == 1;
  }

  lemma PunctuationCleansToEmpty()
    ensures Clean("...") == ""
  {
    DotsNormal();
    DotsStripped();
    assert !DigitsDot("...") by {
      assert !IsDigit("..."[0]);
    }
  }

  lemma DotsNormal()
    ensures Normalize("...") == "..."
  {
    var s := "...";
    assert IsWord(s);
    WordCollapsed(s);
    NormalizeFixes(s);
  }

  lemma DotsStripped()
    ensures StripTrailingPunct("...") == ""
  {
    assert SuffixRun("...", IsTrailingPunct) == 3;
  }
}
