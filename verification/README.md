# Heading detection and outline extraction, in Dafny

This project models the rule-based heading engine of a PDF outline extractor. The engine
is `HeadingDetector` (`heading_detector.py`) and the two `PDFExtractor` procedures that
drive it (`pdf_extractor.py`). It also models the duplicate detector under `DocOutline/`,
which differs from the top-level one only in the bullet literal of its pattern table.
The extractor imports the top-level detector, so the program's extractor is
`ExtractStructure(Root, …)`. The model takes the detector copy as a parameter only so that
the two copies can be compared; the program never pairs the extractor with the
`DocOutline` copy.

- The detector receives one text span at a time. It records the span's font size in a
  running history. It drops spans that fail a cheap prefilter. It scores the rest out of
  1.0 from nine independent signals. Then it classifies a span as H1, H2 or H3: first by
  case-sensitive numbering overrides, then by font-size thresholds that adapt to the
  history, then by confidence alone. A reported heading has its text cleaned.
- The extractor picks a title. It takes the document's metadata title when that is
  usable. Otherwise it takes the largest, then highest, span in the top third of the
  first page. Failing both it uses "Untitled Document".
- The extractor builds the outline by feeding every non-blank span of the first 50 pages
  through the one detector it owns. The model states the outline against an index-based
  reference: span j of page k is analysed against the history of every span before it,
  and its entry, if any, is placed in that same page-then-reading order.

Files:
- `base.dfy`: `Option` and first-match search.
- `text.dfy`: character classes (Python's whitespace set, ASCII letters and digits), and
  Python's `strip`, `split`, `lower`, `isupper`, `istitle`, substring test and
  `re.sub(r'\s+', ' ', ·)`.
- `patterns.dfy`: the eleven heading patterns as hand-written matchers, and the keywords.
- `detector.dfy`: the detector.
- `extractor.dfy`: title, outline and their composition.

The detector's history is the one piece of state. It is threaded through the model:
every analysis takes a history and returns the extended one.

Where the code and its documented design disagree, the model follows the code:
- A span's size is recorded before the prefilter runs. Spans the detector rejects still
  move the average.
- The prefilter accepts a trimmed length of exactly 200.
- Only a missing span size defaults to 12. A size of 0 is passed on as 0.
- The history is never reset. A second document is judged against the first one's sizes
  (`Extractor.HistoryCarriesAcrossDocuments`).
- Cleaning is not idempotent: `"Foo ."` cleans to `"Foo "` and then to `"Foo"`.
- Punctuation-only text such as `"..."` can be reported as a heading whose text is empty.
- Above H3 size but below H2 size, a confident span is H3, while the same span at a
  smaller size is H2 (`Detector.LargerFontCanDemote`).

## Model

| member | source | states |
|---|---|---|
| Base.FirstWhere | heading_detector.py:131-134 | The scan that stops at the first hit returns the first index whose element satisfies the test; it returns nothing exactly when no element does. |
| Text.Lower | heading_detector.py:124 | `lower()` keeps the length and maps each character on its own: a capital becomes the matching small letter, and every other character stays as it is. |
| Text.Trim | heading_detector.py:93 | `strip()` keeps the contiguous middle of the text. Everything before it and everything after it is whitespace, and its own first and last characters are not. It is empty exactly when the text is all whitespace. Text with non-space ends comes back unchanged. |
| Text.WordsShape | heading_detector.py:97 | Every word `split()` yields is non-empty and holds no whitespace. |
| Text.TrimKeepsWords | heading_detector.py:93-97 | Stripping the text keeps the words `split()` finds, in order. |
| Text.WordCount | heading_detector.py:97 | The word count is 0 exactly when the text is all whitespace, and never exceeds the text's length. |
| Text.WordCountCountsWords | heading_detector.py:97 | The count the prefilter compares with 20 is the length of the list `split()` returns. |
| Text.Collapse | heading_detector.py:210 | After `re.sub(r'\s+', ' ', ·)` every whitespace character left is a plain space, and no two are adjacent. The result is no longer than the input, and empty exactly when the input is. It starts, and ends, with whitespace exactly when the input does. |
| Text.CollapseKeepsWords | heading_detector.py:210 | Collapsing whitespace keeps the same words in the same order. |
| Text.CollapseFixesCollapsed | pdf_extractor.py:103 | Collapsing a text that is already collapsed changes nothing. |
| Text.Normalize | pdf_extractor.py:103 | Collapse-then-strip leaves a collapsed text with non-space ends. It is empty exactly when the input is all whitespace. |
| Text.NormalizeKeepsWords | pdf_extractor.py:103 | Normalising changes only whitespace: the words of the text stay the same and in order. |
| Text.NormalizeIdempotent | pdf_extractor.py:103 | Normalising an already normalised title changes nothing. |
| Text.ContainsMeaning | heading_detector.py:125-127 | The substring test `in` holds exactly when the searched-for text occurs at some position of the text. |
| Text.TitleStartsUpper | heading_detector.py:157 | In a text `istitle()` accepts, the first letter is a capital. |
| Text.ShoutingIsNotTitle | heading_detector.py:155-157 | A text `isupper()` accepts that has two adjacent letters fails `istitle()`. |
| Patterns.PatternTable | heading_detector.py:14-26 | The table has eleven patterns, with the copy's bullet at position 9 and `-` last. Both copies share every other entry. |
| Patterns.NumberedMeaning | heading_detector.py:17 | The greedy matcher for `^\d+\.\s+` agrees with the regular expression: some digit run is followed by a period and a whitespace character. |
| Patterns.CaseBlindMatch | heading_detector.py:132 | A match with `re.IGNORECASE` has the same outcome on the text and on its lower-cased form. |
| Patterns.NumberedIgnoresCase | heading_detector.py:17 | `^\d+\.\s+` matches a text with `re.IGNORECASE` exactly when it matches it case-sensitively, because digits, the period and whitespace have no case. |
| Patterns.NumberedTwoIgnoresCase | heading_detector.py:18 | `^\d+\.\d+\s+` matches with `re.IGNORECASE` exactly when it matches case-sensitively. |
| Patterns.NumberedThreeIgnoresCase | heading_detector.py:19 | `^\d+\.\d+\.\d+\s+` matches with `re.IGNORECASE` exactly when it matches case-sensitively. |
| Patterns.ChapterIgnoresCase | heading_detector.py:15 | A text that `^(Chapter\|CHAPTER)\s+\d+` matches case-sensitively also matches it with `re.IGNORECASE`. |
| Patterns.SectionIgnoresCase | heading_detector.py:16 | A text that `^(Section\|SECTION)\s+\d+` matches case-sensitively also matches it with `re.IGNORECASE`. |
| Patterns.OverrideEntry | heading_detector.py:180-189 | Every text that one of the classifier's five case-sensitive overrides matches also matches, ignoring case, one of the first five entries of the scoring table, which both copies share. |
| Detector.Average | heading_detector.py:113 | The mean font size is 12 when nothing has been seen. Otherwise the mean times the count is the sum of the history. |
| Detector.AverageBetween | heading_detector.py:113 | The mean of a non-empty history lies within any bounds on its sizes. |
| Detector.IsPotentialHeading | heading_detector.py:90-104 | The prefilter accepts a span exactly when three conditions hold: the trimmed length is between 3 and 200, there are at most 20 words, and the text does not start with a lower-case letter. The numbered-list exemption never applies. |
| Detector.PrefilterLengthBoundary | heading_detector.py:93 | For one word that does not start lower-case, only its length decides, and the bounds are inclusive. |
| Detector.PrefilterAccepts200Rejects201 | heading_detector.py:93 | A 200-character word passes the prefilter. A 201-character word does not. |
| Detector.Score | heading_detector.py:160 | `min(confidence, 1.0)`: the confidence is the raw sum of bonuses when that sum is at most 1, and exactly 1 when it is larger. |
| Detector.ScoreMonotone | heading_detector.py:110-158 | Gaining signals, or moving to a higher size or case tier, never lowers the confidence. |
| Detector.SizeTierOf | heading_detector.py:114-117 | The 0.3 size bonus is earned exactly when the size exceeds 1.2 times the average. The 0.2 bonus is earned exactly when the size exceeds 1.1 times the average but not 1.2 times. Otherwise there is none. |
| Detector.BoldBitMeaning | heading_detector.py:120 | `flags & 2**4` is set exactly when the flags modulo 32 are at least 16, negative flags included. |
| Detector.NearTopMeaning | heading_detector.py:144-146 | The position bonus is earned exactly when the page height is not positive, or the box is empty, or the box's top y is below a tenth of the page height. |
| Detector.CaseTierOf | heading_detector.py:155-158 | The upper-case tier is chosen exactly when `isupper()` holds. The title-case tier is chosen exactly when `isupper()` fails and `istitle()` holds. |
| Detector.SignalsOf | heading_detector.py:112-152 | The size signal compares the size with the average of the history. The bold signal is bit 4 of the flags. The position signal is the top tenth of the page, with an empty box or a non-positive height counting as the top. The length signal is a trimmed length from 10 to 80. |
| Detector.TextSignalsMeaning | heading_detector.py:123-158 | The font signals hold exactly when the lower-cased font name contains `bold` or `black`, or `heading` or `title`. The pattern signal holds exactly when some table entry matches ignoring case. The keyword signal holds exactly when some keyword occurs in the lower-cased text. The case tier follows `isupper()`, then `istitle()`. |
| Detector.FirstPattern | heading_detector.py:130-134 | The pattern bonus is earned exactly when some table entry matches the text, ignoring case. |
| Detector.FirstKeyword | heading_detector.py:136-141 | The keyword bonus is earned exactly when some keyword occurs in the lower-cased text. |
| Detector.Confidence | heading_detector.py:106-160 | The confidence of any span lies in [0, 1]. |
| Detector.PatternAloneConfident | heading_detector.py:130-134 | A text that any of the classifier's five overrides matches (chapter, section or one of the three numbering forms) reaches confidence 0.3 from the pattern bonus alone, whatever its size, font, flags, position and history. |
| Detector.SoleObservationNoSizeBonus | heading_detector.py:113-117 | A span whose size is non-negative and is the only one recorded earns no size bonus, because the average is its own size. |
| Detector.SizeSignalOrderSensitive | heading_detector.py:63-73 | The size bonus depends on arrival order: a size-20 span earns nothing when it is seen first, and the top tier after three size-10 spans. |
| Detector.DocOutlineBulletEarnsNothing | DocOutline/heading_detector.py:24 | In the `DocOutline/` copy, text that opens with `•` matches no pattern at all. |
| Detector.RootBulletMatches | heading_detector.py:24 | In the top-level copy, `•` followed by whitespace earns the pattern bonus. |
| Detector.SamePatternHit | DocOutline/heading_detector.py:14-26 | When the text matches neither bullet literal, both copies' pattern scans agree on whether some pattern matches. |
| Detector.CopiesScoreAlike | DocOutline/heading_detector.py:130-134 | When the text matches neither bullet literal, both copies give the same confidence. |
| Detector.ThresholdsOf | heading_detector.py:166-177 | With no history the thresholds are 16, 14 and 12. Otherwise each is the larger of its floor (16, 14 or 12) and 1.4, 1.2 or 1.1 times the average. They are always ordered H1 ≥ H2 ≥ H3. |
| Detector.OverridesExclusive | heading_detector.py:179-189 | At most one of the five numbering patterns matches any text, so their priority order never decides. |
| Detector.Override | heading_detector.py:179-189 | An override applies exactly when one of the five case-sensitive patterns matches. Chapter and `N.` give H1, Section and `N.N` give H2, and `N.N.N` gives H3. |
| Detector.Classify | heading_detector.py:162-205 | An override decides the level outright. Without one, a level is given exactly when confidence > 0.4, or when the size reaches the H3 threshold and confidence > 0.3. H1 needs the H1 size and confidence > 0.5. H2 needs the H2 size with confidence > 0.4, or confidence > 0.5. H3 is never given to a span at H2 size with confidence > 0.4. |
| Detector.LargerFontCanDemote | heading_detector.py:191-203 | After four size-10 spans, at confidence 0.55, a size-11 span is H2 and a size-12.5 span is H3. |
| Detector.OverrideCaseSensitive | heading_detector.py:180-182 | `Chapter 3 …` and `CHAPTER 3` override to H1. `chapter 3 results` does not override, although it earns the case-insensitive pattern bonus. |
| Detector.OverrideIgnoresSizeAndConfidence | heading_detector.py:179-189 | `Chapter 3 Results` is H1 at any size, any confidence and any history. |
| Detector.StripTrailingPunct | heading_detector.py:214 | The result is the longest prefix that does not end in `.,:;!?`. Everything removed is such punctuation. |
| Detector.Clean | heading_detector.py:207-216 | The cleaned text is a prefix of the normalised text, collapsed, with no leading space. Text starting `\d+\.` keeps all its punctuation. Any other text loses exactly its trailing punctuation run. |
| Detector.CleanNotIdempotent | heading_detector.py:210-214 | `"Foo ."` cleans to `"Foo "`, which cleans again to `"Foo"`. |
| Detector.CleanStableUnlessTrailingSpace | heading_detector.py:207-216 | Cleaning a cleaned text changes nothing unless the cleaned text ends in a space. |
| Detector.CleanEnds | heading_detector.py:207-216 | A cleaned text starts with `\d+\.`, or is empty, or does not end in one of `.,:;!?`. |
| Detector.CleanFixes | heading_detector.py:207-216 | A whitespace-normalised text that starts with `\d+\.` or does not end in punctuation is its own cleaned form. |
| Detector.NumberedIntroduction | heading_detector.py:184-185 | `1. Introduction` is H1 whatever its size, confidence and history, and cleaning leaves it intact. |
| Detector.OverrideIsReported | heading_detector.py:63-86 | A text that passes the prefilter and that one of the classifier's five overrides matches is reported under its cleaned text, at the override's level, whatever its size, font, flags, position and the history. |
| Detector.NumberedIsReportedH1 | heading_detector.py:63-86 | A text that passes the prefilter and starts like `^\d+\.\s+` is reported as H1 under its cleaned text, whatever its size, font, flags, position and the history. |
| Detector.AnalyzeText | heading_detector.py:47-88 | The size is appended to the history whatever the outcome. A heading is reported exactly when three conditions hold: the span passes the prefilter, its confidence reaches 0.3, and the classifier gives a level. Confidence and thresholds are computed on the extended history. The reported level is the classifier's verdict on that confidence, and the reported text is the cleaned text. |
| Detector.CopiesAnalyseAlike | DocOutline/heading_detector.py:47-88 | Both copies analyse a span identically, history included, unless the text matches one of the bullet literals. |
| Detector.PunctuationOnlyHeadingIsEmpty | heading_detector.py:82-86 | A bold `"..."` at the top of a page, with no history, is reported as an H3 heading with empty text. |
| Extractor.NonTextBlockIgnored | pdf_extractor.py:129-130 | Removing a block whose type is not 0 changes none of the spans the outline visits. |
| Extractor.Candidates | pdf_extractor.py:78-95 | The candidates are exactly the trimmed texts of the qualifying spans: every qualifying span yields one, and every candidate comes from one. A qualifying span has more than 5 characters after trimming and size > 12, and lies in the top third of the page. |
| Extractor.CandidatesAppend | pdf_extractor.py:78-95 | Candidates are gathered span by span in encounter order: those of two runs of spans are those of the first run followed by those of the second. |
| Extractor.Best | pdf_extractor.py:97-102 | The chosen candidate is the one a stable sort by (−size, y) puts first. No candidate sorts strictly before it, and it sorts strictly before every earlier candidate. |
| Extractor.ExtractTitle | pdf_extractor.py:51-106 | The title is never empty. A usable metadata title is returned trimmed. With neither a usable metadata title nor a candidate, the title is "Untitled Document". Otherwise the title is the normalised text of the candidate a stable sort puts first. |
| Extractor.MetadataTitleWins | pdf_extractor.py:61-66 | A metadata title without surrounding whitespace and under 200 characters is the title, whatever the pages hold. |
| Extractor.SoleCandidateTitle | pdf_extractor.py:97-104 | With no usable metadata title and a single candidate, the title is that candidate's normalised text. |
| Extractor.TwoCandidatesTitle | pdf_extractor.py:97-104 | With no usable metadata title and two candidates, the title is the larger one's normalised text. At equal sizes it is the higher one's, and at equal size and height it is the first one's, since the sort is stable. |
| Extractor.TopHeadlineIsTitle | pdf_extractor.py:68-104 | On an 800-unit page with "BUDGET OVERVIEW" at size 24 near the top and size-11 body text lower down, the body text is no candidate and the title is "BUDGET OVERVIEW". |
| Extractor.SpanStep | pdf_extractor.py:132-146 | A span that is blank after trimming is skipped and leaves the history alone. Any other span goes to the detector trimmed, with a missing size taken as 12 and a missing box as four zeros. Its heading is the detector's verdict on that call. |
| Extractor.StepRecords | pdf_extractor.py:133-146 | One span adds its size to the history when it is non-blank and nothing when it is blank. It yields at most as many outline entries as sizes it adds. |
| Extractor.ReportedStep | pdf_extractor.py:132-153 | Analysing the first span, then the rest of the page from the history it leaves, reports what the span-indexed reference reports for the whole page. |
| Extractor.PageOutline | pdf_extractor.py:129-153 | The page's entries are those of the span-indexed reference, in reading order: span j is analysed against the history the spans before it left. The history grows by the sizes of the non-blank spans. Every entry carries this page's number and the cleaned text of one of the page's spans. |
| Extractor.PagesReportedStep | pdf_extractor.py:123-153 | Reporting the first page, then the rest from the history it leaves, is what the page-indexed reference reports for the whole run. |
| Extractor.PagesOutline | pdf_extractor.py:123-153 | The entries are those of the page-indexed reference: page k contributes its page outline, numbered k + 1 past the start, against the history every earlier page left. The history grows by every page's sizes in order. Entries are ordered by page and number no more than the recorded spans. |
| Extractor.ReadPages | pdf_extractor.py:120-121 | The pages read are the first min(page count, 50). |
| Extractor.ExtractOutline | pdf_extractor.py:108-155 | The outline is that of the page-indexed reference over the first min(page count, 50) pages, numbered from 1. Entries are ordered by page, with numbers from 1 to at most 50. The history gains exactly the sizes of the non-blank spans of the pages read. |
| Extractor.NumberedSpanReported | pdf_extractor.py:132-153 | A span whose trimmed text passes the prefilter and starts like `^\d+\.\s+` yields an H1 entry under its cleaned trimmed text, whatever the history before it. |
| Extractor.OneNumberedSpanOutline | pdf_extractor.py:108-155 | A one-page document whose only span is numbered that way has that span as its whole outline: one H1 entry on page 1. |
| Extractor.IntroductionOutline | pdf_extractor.py:108-155 | The outline of a one-page document whose only span is "1. Introduction" in 12-point Arial is the single entry H1 "1. Introduction" on page 1. |
| Extractor.PagesPastCapUnread | pdf_extractor.py:120-124 | Two documents that agree on their first 50 pages get the same outline and leave the same history. |
| Extractor.ExtractStructure | pdf_extractor.py:17-46 | The structure pairs the title with the outline. Only the outline extends the detector's history. |
| Extractor.HistoryCarriesAcrossDocuments | pdf_extractor.py:13-15 | One extractor's history after two documents holds both documents' recorded sizes, the first document's first. |
| Extractor.EmptyDocument | pdf_extractor.py:100-106 | A document without pages or metadata title gets "Untitled Document" and no entries, and the history is untouched. |

## Left out

- The PDF library (`fitz`): opening and closing documents and reading page dictionaries. A
  document is given as data, with pages, blocks, lines and spans.
- The command-line and server front ends (`main.py`, `server.py`), and JSON output.
- The warning printed for documents over 50 pages, and the re-wrapping of every exception
  as "Failed to process PDF". Neither affects the result.
- Floating point: sizes, coordinates and scores are exact reals. A boundary that IEEE-754
  rounding could move, such as a score of 0.1+0.2 against 0.3, is not modelled.
- Unicode: whitespace is Python's `str.isspace` set, exactly. Digits, letter case,
  `lower()`, `isupper()`, `istitle()` and `re.IGNORECASE` are modelled for ASCII only.
  Other characters count as uncased non-space symbols. For example, Python would also
  fold `Â€¢` onto the `DocOutline/` bullet literal.
- Detector.AnalyzeText: a one-element bounding box is excluded by a precondition. The
  source raises `IndexError` on it, and the extractor always passes four coordinates.
- A missing line bounding box is modelled as line top 0. A missing span text, font or
  flags field is given as its default ("", "", 0). Block types are integers.
- Detector.Classify: the contract gives what each level requires, not the full band
  table. `Detector.LargerFontCanDemote` pins the case where the bands overlap.
- The unused `max_font` and the unused `flags` argument of `_classify_heading_level`
  have nothing to model.

## Findings

| source | as written | input that shows it | evidently intended | confidence | as-written member | corrected member |
|---|---|---|---|---|---|---|
| DocOutline/heading_detector.py:24 | bullet pattern `^â€¢\s+`, the UTF-8 bytes of `•` decoded as Windows-1252 | the span `• Item` | `^•\s+`, as in the top-level copy | not executed | Detector.DocOutlineBulletEarnsNothing | Detector.RootBulletMatches |
