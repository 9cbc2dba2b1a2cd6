/** The heading detector's static configuration: its leading-text patterns, written as
    hand-coded matchers over strings, and its keyword list. Two copies of the detector
    exist and differ only in the literal of the bullet pattern. */
module Patterns {
  import opened Text

  /** Which copy of the detector: the top-level module or the one under `DocOutline/`. */
  datatype Copy = Root | DocOutline

  /** The bullet literal of pattern `^•\s+`. The `DocOutline/` copy holds the UTF-8 bytes
      of `•` decoded as Windows-1252, three characters `â€¢`. */
  function BulletMarker(copy: Copy): (m: string)
    ensures copy == Root ==> m == ['\U{2022}']
    ensures copy == DocOutline ==> m == ['\U{E2}', '\U{20AC}', '\U{A2}']
  {
    match copy
    case Root => "\U{2022}"
    case DocOutline => "\U{E2}\U{20AC}\U{A2}"
  }

  /** One entry of the pattern table, in the order the table lists them. */
  datatype Pattern =
    | ChapterNumber     // ^(Chapter|CHAPTER)\s+\d+
    | SectionNumber     // ^(Section|SECTION)\s+\d+
    | Numbered          // ^\d+\.\s+
    | NumberedTwo       // ^\d+\.\d+\s+
    | NumberedThree     // ^\d+\.\d+\.\d+\s+
    | Roman             // ^[IVX]+\.\s+
    | CapitalLetter     // ^[A-Z]\.\s+
    | LetterParen       // ^[a-z]\)\s+
    | ParenNumber       // ^\(\d+\)\s+
    | Marker(lit: string) // ^<lit>\s+

  /** The patterns both copies share, in table order, with the bullet entry left out. */
  const SharedPatterns: seq<Pattern> := [
    ChapterNumber, SectionNumber, Numbered, NumberedTwo, NumberedThree,
    Roman, CapitalLetter, LetterParen, ParenNumber, Marker("-")
  ]

  /** The pattern table: the shared patterns with the copy's bullet entry at position 9. */
  function PatternTable(copy: Copy): (t: seq<Pattern>)
    ensures |t| == 11
    ensures t[9] == Marker(BulletMarker(copy)) && t[10] == Marker("-")
    ensures forall i :: 0 <= i < 9 ==> t[i] == SharedPatterns[i]
    ensures forall i :: 9 < i < 11 ==> t[i] == SharedPatterns[i - 1]
  {
    SharedPatterns[..9] + [Marker(BulletMarker(copy))] + SharedPatterns[9..]
  }

  /** Words that commonly appear in headings, already lower-case. */
  const Keywords: seq<string> := [
    "introduction", "conclusion", "summary", "overview", "background",
    "methodology", "results", "discussion", "analysis", "findings",
    "recommendations", "references", "bibliography", "appendix",
    "abstract", "executive", "foreword", "preface", "acknowledgments"
  ]

  /** Number of leading decimal digits. */
  function LeadDigits(s: string): nat {
    PrefixRun(s, IsDigit)
  }

  /** What follows the leading digits. */
  function AfterDigits(s: string): string {
    s[LeadDigits(s)..]
  }

  predicate StartsWithSpace(s: string) {
    |s| > 0 && IsSpace(s[0])
  }

  predicate StartsWithDot(s: string) {
    |s| > 0 && s[0] == '.'
  }

  /** `\s+\d+` at the start of `s` (matched as far as the first digit). */
  predicate SpacesThenDigit(s: string) {
    var k := PrefixRun(s, IsSpace);
    k >= 1 && k < |s| && IsDigit(s[k])
  }

  /** `^<word>\s+\d+`, case-sensitive. */
  predicate WordThenNumber(s: string, word: string) {
    |word| <= |s| && s[..|word|] == word && SpacesThenDigit(s[|word|..])
  }

  /** A word followed by one space and a digit matches `^<word>\s+\d+`. */
  lemma WordSpaceDigit(s: string, word: string)
    requires |word| + 2 <= |s| && s[..|word|] == word && s[|word|] == ' ' && IsDigit(s[|word| + 1])
    ensures WordThenNumber(s, word)
  {
    var t := s[|word|..];
    assert t[0] == ' ' && t[1..][0] == s[|word| + 1];
    assert PrefixRun(t[1..], IsSpace) == 0;
  }

  /** `^\d+\.`: the numbered-list test of the prefilter and of the text cleaner. */
  predicate DigitsDot(s: string) {
    LeadDigits(s) >= 1 && StartsWithDot(AfterDigits(s))
  }

  /** `^\d+\.\s+` */
  predicate NumberedMatch(s: string) {
    DigitsDot(s) && StartsWithSpace(AfterDigits(s)[1..])
  }

  /** `^\d+\.\d+\s+` */
  predicate NumberedTwoMatch(s: string) {
    DigitsDot(s) && var u := AfterDigits(s)[1..];
    LeadDigits(u) >= 1 && StartsWithSpace(AfterDigits(u))
  }

  /** `^\d+\.\d+\.\d+\s+` */
  predicate NumberedThreeMatch(s: string) {
    DigitsDot(s) && var u := AfterDigits(s)[1..];
    DigitsDot(u) && var v := AfterDigits(u)[1..];
    LeadDigits(v) >= 1 && StartsWithSpace(AfterDigits(v))
  }

  /** `^(Chapter|CHAPTER)\s+\d+`, case-sensitive. */
  predicate ChapterMatch(s: string) {
    WordThenNumber(s, "Chapter") || WordThenNumber(s, "CHAPTER")
  }

  /** `^(Section|SECTION)\s+\d+`, case-sensitive. */
  predicate SectionMatch(s: string) {
    WordThenNumber(s, "Section") || WordThenNumber(s, "SECTION")
  }

  predicate IsRomanLower(c: char) {
    c == 'i' || c == 'v' || c == 'x'
  }

  /** The pattern matched with `re.IGNORECASE` against `folded`, the lower-cased text:
      under ASCII case folding this is the lower-case pattern matched case-sensitively. */
  predicate MatchesFolded(p: Pattern, folded: string) {
    match p
    case ChapterNumber => WordThenNumber(folded, "chapter")
    case SectionNumber => WordThenNumber(folded, "section")
    case Numbered => NumberedMatch(folded)
    case NumberedTwo => NumberedTwoMatch(folded)
    case NumberedThree => NumberedThreeMatch(folded)
    case Roman =>
      var k := PrefixRun(folded, IsRomanLower);
      k >= 1 && StartsWithDot(folded[k..]) && StartsWithSpace(folded[k + 1..])
    case CapitalLetter =>
      |folded| >= 3 && IsLetter(folded[0]) && folded[1] == '.' && IsSpace(folded[2])
    case LetterParen =>
      |folded| >= 3 && IsLetter(folded[0]) && folded[1] == ')' && IsSpace(folded[2])
    case ParenNumber =>
      |folded| > 0 && folded[0] == '(' && var t := folded[1..];
      LeadDigits(t) >= 1 && var u := AfterDigits(t);
      |u| >= 2 && u[0] == ')' && IsSpace(u[1])
    case Marker(lit) =>
      |lit| < |folded| && folded[..|lit|] == Lower(lit) && IsSpace(folded[|lit|])
  }

  /** `re.match(pattern, text, re.IGNORECASE)` */
  predicate MatchesIgnoringCase(p: Pattern, text: string) {
    MatchesFolded(p, Lower(text))
  }

  /** Matching ignores case: lower-casing the text first changes no outcome. */
  lemma CaseBlindMatch(p: Pattern, text: string)
    ensures MatchesIgnoringCase(p, Lower(text)) <==> MatchesIgnoringCase(p, text)
  {
    LowerIdempotent(text);
  }

  /** The greedy digit-run reading of `^\d+\.\s+` agrees with the regular expression's
      meaning: some non-empty all-digit prefix is followed by a period and a whitespace. */
  lemma NumberedMeaning(s: string)
    ensures NumberedMatch(s) <==>
      exists k :: 1 <= k && k + 1 < |s| && AllDigits(s[..k]) && s[k] == '.' && IsSpace(s[k + 1])
  {
    if NumberedMatch(s) {
      NumberedWitness(s);
    }
    if exists k :: 1 <= k && k + 1 < |s| && AllDigits(s[..k]) && s[k] == '.' && IsSpace(s[k + 1]) {
      var k :| 1 <= k && k + 1 < |s| && AllDigits(s[..k]) && s[k] == '.' && IsSpace(s[k + 1]);
      NumberedFromWitness(s, k);
    }
  }

  /** A greedy match is witnessed by its digit run. */
  lemma NumberedWitness(s: string)
    requires NumberedMatch(s)
    ensures var d := LeadDigits(s);
      1 <= d && d + 1 < |s| && AllDigits(s[..d]) && s[d] == '.' && IsSpace(s[d + 1])
  {
    var d := LeadDigits(s);
    assert s[d] == AfterDigits(s)[0] && s[d + 1] == AfterDigits(s)[1..][0];
  }

  /** Any digit run followed by a period and a whitespace is the greedy one. */
  lemma NumberedFromWitness(s: string, k: nat)
    requires 1 <= k && k + 1 < |s| && AllDigits(s[..k]) && s[k] == '.' && IsSpace(s[k + 1])
    ensures NumberedMatch(s)
  {
    assert forall i :: 0 <= i < k ==> IsDigit(s[..k][i]);
    assert !IsDigit(s[k]);
    assert LeadDigits(s) == k;
  }

  /** Lower-casing keeps each step of the digit matchers: the digit run, and whether a
      period follows it. */
  lemma LowerDigitsDot(s: string)
    ensures LeadDigits(Lower(s)) == LeadDigits(s)
    ensures AfterDigits(Lower(s)) == Lower(AfterDigits(s))
    ensures DigitsDot(Lower(s)) <==> DigitsDot(s)
  {
    LowerKeepsDigitRun(s);
    LowerSlices(s, LeadDigits(s));
  }

  lemma LowerStartsWithSpace(s: string)
    ensures StartsWithSpace(Lower(s)) <==> StartsWithSpace(s)
  {
  }

  /** Digits, the period and whitespace have no case, so `re.IGNORECASE` changes nothing for
      `^\d+\.\s+`: it matches ignoring case exactly when it matches as written. */
  lemma NumberedIgnoresCase(s: string)
    ensures MatchesIgnoringCase(Numbered, s) <==> NumberedMatch(s)
  {
    LowerDigitsDot(s);
    if DigitsDot(s) {
      LowerSlices(AfterDigits(s), 1);
      LowerStartsWithSpace(AfterDigits(s)[1..]);
    }
  }

  /** Likewise for `^\d+\.\d+\s+`. */
  lemma NumberedTwoIgnoresCase(s: string)
    ensures MatchesIgnoringCase(NumberedTwo, s) <==> NumberedTwoMatch(s)
  {
    LowerDigitsDot(s);
    if DigitsDot(s) {
      var u := AfterDigits(s)[1..];
      LowerSlices(AfterDigits(s), 1);
      LowerDigitsDot(u);
      LowerStartsWithSpace(AfterDigits(u));
    }
  }

  /** Likewise for `^\d+\.\d+\.\d+\s+`. */
  lemma NumberedThreeIgnoresCase(s: string)
    ensures MatchesIgnoringCase(NumberedThree, s) <==> NumberedThreeMatch(s)
  {
    LowerDigitsDot(s);
    if DigitsDot(s) {
      var u := AfterDigits(s)[1..];
      LowerSlices(AfterDigits(s), 1);
      LowerDigitsDot(u);
      if DigitsDot(u) {
        var v := AfterDigits(u)[1..];
        LowerSlices(AfterDigits(u), 1);
        LowerDigitsDot(v);
        LowerStartsWithSpace(AfterDigits(v));
      }
    }
  }

  /** A case-sensitive `^<word>\s+\d+` match survives lower-casing text and word alike. */
  lemma WordThenNumberFolds(s: string, word: string)
    requires WordThenNumber(s, word)
    ensures WordThenNumber(Lower(s), Lower(word))
  {
    LowerSlices(s, |word|);
    LowerKeepsSpaceRun(s[|word|..]);
  }

  lemma OverrideWordsFold()
    ensures Lower("Chapter") == "chapter" && Lower("CHAPTER") == "chapter"
    ensures Lower("Section") == "section" && Lower("SECTION") == "section"
  {
  }

  /** `Chapter 3` and `CHAPTER 3` also match the scoring table's IGNORECASE chapter pattern. */
  lemma ChapterIgnoresCase(s: string)
    requires ChapterMatch(s)
    ensures MatchesIgnoringCase(ChapterNumber, s)
  {
    OverrideWordsFold();
    if WordThenNumber(s, "Chapter") {
      WordThenNumberFolds(s, "Chapter");
    } else {
      WordThenNumberFolds(s, "CHAPTER");
    }
  }

  /** `Section 3` and `SECTION 3` also match the scoring table's IGNORECASE section pattern. */
  lemma SectionIgnoresCase(s: string)
    requires SectionMatch(s)
    ensures MatchesIgnoringCase(SectionNumber, s)
  {
    OverrideWordsFold();
    if WordThenNumber(s, "Section") {
      WordThenNumberFolds(s, "Section");
    } else {
      WordThenNumberFolds(s, "SECTION");
    }
  }

  /** Every text the level classifier overrides also matches, ignoring case, the entry of
      the scoring table for the same numbering: entry `k`, one of the first five, which both
      copies share. */
  lemma OverrideEntry(s: string) returns (k: nat)
    requires ChapterMatch(s) || SectionMatch(s) || NumberedMatch(s) || NumberedTwoMatch(s)
             || NumberedThreeMatch(s)
    ensures k < 5 && MatchesIgnoringCase(SharedPatterns[k], s)
  {
    k := OverrideFolds(s);
    SharedEntry(s, k);
  }

  /** The override numbered `k`, in the classifier's order, matches its table entry
      ignoring case. */
  lemma OverrideFolds(s: string) returns (k: nat)
    requires ChapterMatch(s) || SectionMatch(s) || NumberedMatch(s) || NumberedTwoMatch(s)
             || NumberedThreeMatch(s)
    ensures k < 5
    ensures k == 0 ==> MatchesIgnoringCase(ChapterNumber, s)
    ensures k == 1 ==> MatchesIgnoringCase(SectionNumber, s)
    ensures k == 2 ==> MatchesIgnoringCase(Numbered, s)
    ensures k == 3 ==> MatchesIgnoringCase(NumberedTwo, s)
    ensures k == 4 ==> MatchesIgnoringCase(NumberedThree, s)
  {
    if ChapterMatch(s) {
      k := 0;
      ChapterIgnoresCase(s);
    } else if SectionMatch(s) {
      k := 1;
      SectionIgnoresCase(s);
    } else if NumberedMatch(s) {
      k := 2;
      NumberedIgnoresCase(s);
    } else if NumberedTwoMatch(s) {
      k := 3;
      NumberedTwoIgnoresCase(s);
    } else {
      k := 4;
      NumberedThreeIgnoresCase(s);
    }
  }

  lemma SharedEntry(s: string, k: nat)
    requires k < 5
    requires k == 0 ==> MatchesIgnoringCase(ChapterNumber, s)
    requires k == 1 ==> MatchesIgnoringCase(SectionNumber, s)
    requires k == 2 ==> MatchesIgnoringCase(Numbered, s)
    requires k == 3 ==> MatchesIgnoringCase(NumberedTwo, s)
    requires k == 4 ==> MatchesIgnoringCase(NumberedThree, s)
    ensures MatchesIgnoringCase(SharedPatterns[k], s)
  {
    if k == 0 {
      EntryIs(s, 0, ChapterNumber);
    } else if k == 1 {
      EntryIs(s, 1, SectionNumber);
    } else if k == 2 {
      EntryIs(s, 2, Numbered);
    } else if k == 3 {
      NumberedTwoEntry(s);
    } else {
      NumberedThreeEntry(s);
    }
  }

  lemma NumberedTwoEntry(s: string)
    requires MatchesIgnoringCase(NumberedTwo, s)
    ensures MatchesIgnoringCase(SharedPatterns[3], s)
  {
    EntryIs(s, 3, NumberedTwo);
  }

  lemma NumberedThreeEntry(s: string)
    requires MatchesIgnoringCase(NumberedThree, s)
    ensures MatchesIgnoringCase(SharedPatterns[4], s)
  {
    EntryIs(s, 4, NumberedThree);
  }

  lemma EntryIs(s: string, k: nat, p: Pattern)
    requires k < |SharedPatterns| && SharedPatterns[k] == p && MatchesIgnoringCase(p, s)
    ensures MatchesIgnoringCase(SharedPatterns[k], s)
  {
  }

  predicate AllDigits(s: string) {
    forall i :: 0 <= i < |s| ==> IsDigit(s[i])
  }
}
