/** The two algorithms of `PDFExtractor` (`pdf_extractor.py`), over an abstract document
    in place of the PDF library's objects: the title resolver and the outline assembler.
    One detector lives inside each extractor and its font-size history is never reset,
    so the history is an input and an output of every extraction. */
module Extractor {
  import opened Base
  import opened Text
  import opened Patterns
  import opened Detector

  datatype Rect = Rect(x0: real, y0: real, x1: real, y1: real)

  /** A text span as the parser reports it. An absent text, font or flags field is given
      as "", "" and 0, the defaults the extractor reads it with; size and box may be absent. */
  datatype Span = Span(text: string, size: Option<real>, font: string, flags: int, bbox: Option<Rect>)

  /** A line, with the top coordinate of its box (0 when the box is absent). */
  datatype Line = Line(y: real, spans: seq<Span>)

  /** A block of the page dictionary; `kind` 0 is a text block, anything else is not. */
  datatype Block = Block(kind: int, lines: seq<Line>)

  datatype Page = Page(height: real, blocks: seq<Block>)

  datatype Document = Document(metadataTitle: Option<string>, pages: seq<Page>)

  /** One outline entry: `{"level": ..., "text": ..., "page": ...}`, page counted from 1. */
  datatype Entry = Entry(level: Level, text: string, page: int)

  datatype Structure = Structure(title: string, outline: seq<Entry>)

  /** A span together with the top coordinate of its line. */
  datatype Placed = Placed(y: real, span: Span)

  // ---------------------------------------------------------------------------
  // Walking a page

  function LineSpans(line: Line): (r: seq<Placed>)
    ensures |r| == |line.spans|
    ensures forall i :: 0 <= i < |r| ==> r[i] == Placed(line.y, line.spans[i])
  {
    seq(|line.spans|, i requires 0 <= i < |line.spans| => Placed(line.y, line.spans[i]))
  }

  function LinesSpans(lines: seq<Line>): seq<Placed> {
    if |lines| == 0 then [] else LineSpans(lines[0]) + LinesSpans(lines[1..])
  }

  /** The spans of the text blocks of a page, in block, line and span order. */
  function TextSpans(blocks: seq<Block>): seq<Placed> {
    if |blocks| == 0 then []
    else (if blocks[0].kind == 0 then LinesSpans(blocks[0].lines) else []) + TextSpans(blocks[1..])
  }

  lemma {:induction false} TextSpansAppend(a: seq<Block>, b: seq<Block>)
    ensures TextSpans(a + b) == TextSpans(a) + TextSpans(b)
    decreases |a|
  {
    if |a| > 0 {
      assert (a + b)[0] == a[0];
      assert (a + b)[1..] == a[1..] + b;
      TextSpansAppend(a[1..], b);
      var head := if a[0].kind == 0 then LinesSpans(a[0].lines) else [];
      calc {
        TextSpans(a + b);
        head + TextSpans(a[1..] + b);
        head + (TextSpans(a[1..]) + TextSpans(b));
        (head + TextSpans(a[1..])) + TextSpans(b);
      }
    } else {
      assert a + b == b;
    }
  }

  /** A block that is not a text block contributes no span, wherever it stands. */
  lemma NonTextBlockIgnored(blocks: seq<Block>, i: nat)
    requires i < |blocks| && blocks[i].kind != 0
    ensures TextSpans(blocks[..i] + blocks[i + 1..]) == TextSpans(blocks)
  {
    var pre, post := blocks[..i], blocks[i + 1..];
    assert blocks == pre + ([blocks[i]] + post);
    TextSpansAppend(pre, [blocks[i]] + post);
    TextSpansAppend([blocks[i]], post);
    assert TextSpans([blocks[i]]) == [] by {
      assert [blocks[i]][1..] == [];
    }
    assert TextSpans([blocks[i]] + post) == TextSpans(post);
    TextSpansAppend(pre, post);
  }

  // ---------------------------------------------------------------------------
  // Title

  const UntitledTitle: string := "Untitled Document"

  /** The metadata title is used when, trimmed, it is non-empty and under 200 characters. */
  predicate UsableMetadataTitle(m: Option<string>) {
    m.Some? && 0 < |Trim(m.value)| < 200
  }

  datatype Candidate = Candidate(text: string, size: real, y: real)

  /** A title candidate: its line starts in the top third of the page, its trimmed text is
      longer than 5 characters and its size (0 when absent) exceeds 12. */
  predicate Qualifies(p: Placed, pageHeight: real) {
    var t := Trim(p.span.text);
    p.y < pageHeight / 3.0 && |t| > 0 && |t| > 5 && p.span.size.GetOr(0.0) > 12.0
  }

  function CandidateOf(p: Placed): Candidate {
    Candidate(Trim(p.span.text), p.span.size.GetOr(0.0), p.y)
  }

  /** `cs` holds the candidates of every qualifying span of `ps`, and nothing else. */
  ghost predicate CollectedFrom(ps: seq<Placed>, pageHeight: real, cs: seq<Candidate>) {
    && |cs| <= |ps|
    && (forall i :: 0 <= i < |ps| && Qualifies(ps[i], pageHeight) ==> CandidateOf(ps[i]) in cs)
    && (forall c :: c in cs ==> exists i :: 0 <= i < |ps| && Qualifies(ps[i], pageHeight) && c == CandidateOf(ps[i]))
  }

  /** The qualifying spans, in encounter order. */
  function Candidates(ps: seq<Placed>, pageHeight: real): (cs: seq<Candidate>)
    ensures CollectedFrom(ps, pageHeight, cs)
    ensures forall c :: c in cs ==>
      |c.text| > 5 && !IsSpace(c.text[0]) && c.size > 12.0 && c.y < pageHeight / 3.0
    decreases |ps|, 1
  {
    if |ps| == 0 then []
    else
      CandidatesStep(ps, pageHeight);
      (if Qualifies(ps[0], pageHeight) then [CandidateOf(ps[0])] else []) + Candidates(ps[1..], pageHeight)
  }

  lemma CandidatesStep(ps: seq<Placed>, pageHeight: real)
    requires |ps| > 0
    ensures CollectedFrom(ps, pageHeight,
      (if Qualifies(ps[0], pageHeight) then [CandidateOf(ps[0])] else []) + Candidates(ps[1..], pageHeight))
    decreases |ps|, 0
  {
    CollectStep(ps, pageHeight, Candidates(ps[1..], pageHeight));
  }

  lemma CollectStep(ps: seq<Placed>, pageHeight: real, rest: seq<Candidate>)
    requires |ps| > 0
    requires CollectedFrom(ps[1..], pageHeight, rest)
    ensures CollectedFrom(ps, pageHeight, (if Qualifies(ps[0], pageHeight) then [CandidateOf(ps[0])] else []) + rest)
  {
    var head := if Qualifies(ps[0], pageHeight) then [CandidateOf(ps[0])] else [];
    CollectKeeps(ps, pageHeight, head, rest);
    CollectOrigin(ps, pageHeight, head, rest);
  }

  lemma CollectKeeps(ps: seq<Placed>, pageHeight: real, head: seq<Candidate>, rest: seq<Candidate>)
    requires |ps| > 0
    requires head == if Qualifies(ps[0], pageHeight) then [CandidateOf(ps[0])] else []
    requires forall i :: 0 <= i < |ps[1..]| && Qualifies(ps[1..][i], pageHeight) ==> CandidateOf(ps[1..][i]) in rest
    ensures forall i :: 0 <= i < |ps| && Qualifies(ps[i], pageHeight) ==> CandidateOf(ps[i]) in head + rest
  {
    forall i | 0 <= i < |ps| && Qualifies(ps[i], pageHeight) ensures CandidateOf(ps[i]) in head + rest {
      if i > 0 {
        assert ps[i] == ps[1..][i - 1];
      }
    }
  }

  lemma CollectOrigin(ps: seq<Placed>, pageHeight: real, head: seq<Candidate>, rest: seq<Candidate>)
    requires |ps| > 0
    requires head == if Qualifies(ps[0], pageHeight) then [CandidateOf(ps[0])] else []
    requires forall c :: c in rest ==>
      exists i :: 0 <= i < |ps[1..]| && Qualifies(ps[1..][i], pageHeight) && c == CandidateOf(ps[1..][i])
    ensures forall c :: c in head + rest ==>
      exists i :: 0 <= i < |ps| && Qualifies(ps[i], pageHeight) && c == CandidateOf(ps[i])
  {
    forall c | c in head + rest
      ensures exists i :: 0 <= i < |ps| && Qualifies(ps[i], pageHeight) && c == CandidateOf(ps[i])
    {
      if c in head {
        assert Qualifies(ps[0], pageHeight) && c == CandidateOf(ps[0]);
      } else {
        var i :| 0 <= i < |ps[1..]| && Qualifies(ps[1..][i], pageHeight) && c == CandidateOf(ps[1..][i]);
        assert ps[i + 1] == ps[1..][i];
      }
    }
  }

  /** Candidates are collected span by span: those of two runs of spans, one after the
      other, are those of the first followed by those of the second. */
  lemma {:induction false} CandidatesAppend(a: seq<Placed>, b: seq<Placed>, pageHeight: real)
    ensures Candidates(a + b, pageHeight) == Candidates(a, pageHeight) + Candidates(b, pageHeight)
    decreases |a|
  {
    if |a| == 0 {
      assert a + b == b;
    } else {
      assert (a + b)[0] == a[0];
      assert (a + b)[1..] == a[1..] + b;
      CandidatesAppend(a[1..], b, pageHeight);
    }
  }

  /** The title candidates of a document: those of its first page, if it has one. */
  function TitleCandidates(doc: Document): seq<Candidate> {
    if |doc.pages| == 0 then [] else Candidates(TextSpans(doc.pages[0].blocks), doc.pages[0].height)
  }

  /** `a` sorts strictly before `b` under the key `(-size, y)`. */
  predicate Before(a: Candidate, b: Candidate) {
    a.size > b.size || (a.size == b.size && a.y < b.y)
  }

  /** The position of the element a stable sort by `(-size, y)` puts first: no candidate
      sorts before it, and it sorts strictly before every candidate that precedes it. */
  function Best(cs: seq<Candidate>): (i: nat)
    requires |cs| > 0
    ensures i < |cs|
    ensures forall j :: 0 <= j < |cs| ==> !Before(cs[j], cs[i])
    ensures forall j :: 0 <= j < i ==> Before(cs[i], cs[j])
  {
    if |cs| == 1 then 0
    else
      var k := 1 + Best(cs[1..]);
      if Before(cs[k], cs[0]) then k else 0
  }

  /** `_extract_title` */
  function ExtractTitle(doc: Document): (t: string)
    ensures |t| > 0
    ensures UsableMetadataTitle(doc.metadataTitle) ==> t == Trim(doc.metadataTitle.value)
    ensures !UsableMetadataTitle(doc.metadataTitle) && |TitleCandidates(doc)| == 0 ==> t == UntitledTitle
    ensures !UsableMetadataTitle(doc.metadataTitle) && |TitleCandidates(doc)| > 0 ==>
      && Collapsed(t) && !IsSpace(t[0]) && !IsSpace(t[|t| - 1])
      && (exists i :: 0 <= i < |TitleCandidates(doc)| && t == Normalize(TitleCandidates(doc)[i].text)
           && (forall j :: 0 <= j < |TitleCandidates(doc)| ==> !Before(TitleCandidates(doc)[j], TitleCandidates(doc)[i]))
           && (forall j :: 0 <= j < i ==> Before(TitleCandidates(doc)[i], TitleCandidates(doc)[j])))
  {
    if UsableMetadataTitle(doc.metadataTitle) then Trim(doc.metadataTitle.value)
    else
      var cs := TitleCandidates(doc);
      if |cs| == 0 then UntitledTitle
      else
        var i := Best(cs);
        assert cs[i] in cs;
        assert !IsSpace(cs[i].text[0]);
        Normalize(cs[i].text)
  }

  /** A metadata title with no surrounding whitespace and fewer than 200 characters is
      the title as it stands, whatever the pages hold. */
  lemma MetadataTitleWins(m: string, pages: seq<Page>)
    requires 0 < |m| < 200 && !IsSpace(m[0]) && !IsSpace(m[|m| - 1])
    ensures ExtractTitle(Document(Some(m), pages)) == m
  {
    assert Trim(m) == m;
  }

  /** Of two candidates, the title is the larger one's text; between equal sizes it is the
      higher one's, and the first one's when they also sit at the same height (the sort is
      stable). */
  lemma TwoCandidatesTitle(doc: Document, a: Candidate, b: Candidate)
    requires !UsableMetadataTitle(doc.metadataTitle) && TitleCandidates(doc) == [a, b]
    ensures ExtractTitle(doc) == Normalize(if b.size > a.size || (b.size == a.size && b.y < a.y) then b.text else a.text)
  {
    BestOfTwo(a, b);
  }

  lemma BestOfTwo(a: Candidate, b: Candidate)
    ensures Best([a, b]) == if Before(b, a) then 1 else 0
  {
    assert [a, b][1..] == [b];
  }

  /** Without a metadata title, a large span in the top third of the first page is the
      title; a small span lower down is no candidate, so it is the only one. */
  lemma TopHeadlineIsTitle()
    ensures ExtractTitle(Document(None, [BudgetPage()])) == "BUDGET OVERVIEW"
  {
    BudgetCandidates();
    NormalizedHeadline();
    SoleCandidateTitle(Document(None, [BudgetPage()]), Candidate("BUDGET OVERVIEW", 24.0, 40.0));
  }

  /** With no usable metadata title and a single candidate, the title is that candidate's
      normalised text. */
  lemma SoleCandidateTitle(doc: Document, c: Candidate)
    requires !UsableMetadataTitle(doc.metadataTitle) && TitleCandidates(doc) == [c]
    ensures ExtractTitle(doc) == Normalize(c.text)
  {
  }

  lemma NormalizedHeadline()
    ensures Normalize("BUDGET OVERVIEW") == "BUDGET OVERVIEW"
  {
    HeadlineCollapsed();
    HeadlineTrimmed();
  }

  lemma HeadlineCollapsed()
    ensures Collapse("BUDGET OVERVIEW") == "BUDGET OVERVIEW"
  {
    assert IsWord("BUDGET") && IsWord("OVERVIEW");
    SpacedWordsCollapsed("BUDGET", "OVERVIEW");
    assert "BUDGET" + [' '] + "OVERVIEW" == "BUDGET OVERVIEW";
    CollapseFixesCollapsed("BUDGET OVERVIEW");
  }

  lemma BudgetCandidates()
    ensures TitleCandidates(Document(None, [BudgetPage()])) == [Candidate("BUDGET OVERVIEW", 24.0, 40.0)]
  {
    var heading := Placed(40.0, Span("BUDGET OVERVIEW", Some(24.0), "", 0, None));
    var body := Placed(300.0, Span("Q3 results", Some(11.0), "", 0, None));
    BudgetSpans();
    BudgetQualifies();
    assert Candidates([body], 800.0) == [];
  }

  lemma BudgetSpans()
    ensures TextSpans(BudgetPage().blocks) == [
      Placed(40.0, Span("BUDGET OVERVIEW", Some(24.0), "", 0, None)),
      Placed(300.0, Span("Q3 results", Some(11.0), "", 0, None))]
  {
    assert LinesSpans(BudgetPage().blocks[0].lines) == [
      Placed(40.0, Span("BUDGET OVERVIEW", Some(24.0), "", 0, None)),
      Placed(300.0, Span("Q3 results", Some(11.0), "", 0, None))];
  }

  lemma BudgetQualifies()
    ensures Qualifies(Placed(40.0, Span("BUDGET OVERVIEW", Some(24.0), "", 0, None)), 800.0)
    ensures CandidateOf(Placed(40.0, Span("BUDGET OVERVIEW", Some(24.0), "", 0, None)))
         == Candidate("BUDGET OVERVIEW", 24.0, 40.0)
    ensures !Qualifies(Placed(300.0, Span("Q3 results", Some(11.0), "", 0, None)), 800.0)
  {
    HeadlineTrimmed();
  }

  lemma HeadlineTrimmed()
    ensures Trim("BUDGET OVERVIEW") == "BUDGET OVERVIEW"
  {
    var t := "BUDGET OVERVIEW";
    assert !IsSpace(t[0]) && !IsSpace(t[|t| - 1]);
  }

  /** An 800-unit page with a large heading near the top and small body text below. */
  function BudgetPage(): Page {
    Page(800.0, [Block(0, [
      Line(40.0, [Span("BUDGET OVERVIEW", Some(24.0), "", 0, None)]),
      Line(300.0, [Span("Q3 results", Some(11.0), "", 0, None)])])])
  }

  // ---------------------------------------------------------------------------
  // Outline

  const PageCap: nat := 50

  /** The size handed to the detector: 12 when the span has none. */
  function SpanSize(span: Span): real {
    span.size.GetOr(12.0)
  }

  /** The box handed to the detector: `[0, 0, 0, 0]` when the span has none. */
  function SpanBox(span: Span): (b: seq<real>)
    ensures |b| == 4
  {
    var r := span.bbox.GetOr(Rect(0.0, 0.0, 0.0, 0.0));
    [r.x0, r.y0, r.x1, r.y1]
  }

  /** One span of the outline loop: a span empty after trimming is skipped before it
      reaches the detector; any other goes in trimmed. */
  function SpanStep(copy: Copy, history: seq<real>, span: Span, pageHeight: real): (a: Analysis)
    ensures |Trim(span.text)| == 0 ==> a == Analysis(history, None)
    ensures |Trim(span.text)| > 0 ==> a.history == history + [SpanSize(span)]
    ensures a.heading.Some? ==> a.heading.value.text == Clean(Trim(span.text))
    ensures |Trim(span.text)| > 0 ==>
      a.heading == AnalyzeText(copy, history, Trim(span.text), SpanSize(span), span.font, span.flags,
                               SpanBox(span), pageHeight).heading
  {
    var text := Trim(span.text);
    if |text| == 0 then Analysis(history, None)
    else AnalyzeText(copy, history, text, SpanSize(span), span.font, span.flags, SpanBox(span), pageHeight)
  }

  /** The sizes the detector records for these spans: one for each span that is not
      empty after trimming. */
  function Recorded(ps: seq<Placed>): seq<real> {
    if |ps| == 0 then [] else RecordedBy(ps[0].span) + Recorded(ps[1..])
  }

  /** The size the detector records for one span, if it reaches the detector at all. */
  function RecordedBy(span: Span): seq<real> {
    if |Trim(span.text)| == 0 then [] else [SpanSize(span)]
  }

  /** One step of the outline loop records `RecordedBy(span)` and appends at most that
      many entries. */
  lemma StepRecords(copy: Copy, history: seq<real>, span: Span, pageHeight: real, page: int)
    ensures SpanStep(copy, history, span, pageHeight).history == history + RecordedBy(span)
    ensures |Found(SpanStep(copy, history, span, pageHeight).heading, page)| <= |RecordedBy(span)|
  {
  }

  function RecordedPages(pages: seq<Page>): seq<real> {
    if |pages| == 0 then [] else Recorded(TextSpans(pages[0].blocks)) + RecordedPages(pages[1..])
  }

  /** The state of the outline loop: the detector's history and the entries so far. */
  datatype Progress = Progress(history: seq<real>, outline: seq<Entry>)

  /** The entry a span's analysis appends, if any. */
  function Found(heading: Option<Heading>, page: int): (es: seq<Entry>)
    ensures |es| <= 1
    ensures forall i :: 0 <= i < |es| ==> es[i].page == page
    ensures |es| == 1 <==> heading.Some?
    ensures forall i :: 0 <= i < |es| ==> es[i].level == heading.value.level && es[i].text == heading.value.text
  {
    match heading
    case Some(h) => [Entry(h.level, h.text, page)]
    case None => []
  }

  /** The entries one page contributes, in reading order. */
  function PageOutline(copy: Copy, history: seq<real>, ps: seq<Placed>, pageHeight: real, page: int): (p: Progress)
    ensures p.history == history + Recorded(ps)
    ensures |p.outline| <= |Recorded(ps)|
    ensures forall i :: 0 <= i < |p.outline| ==> p.outline[i].page == page
    ensures forall k :: 0 <= k < |p.outline| ==> p.outline[k].text in CleanedTexts(ps)
    ensures p.outline == Reported(copy, history, ps, pageHeight, page)
    decreases |ps|
  {
    if |ps| == 0 then Progress(history, [])
    else
      var a := SpanStep(copy, history, ps[0].span, pageHeight);
      var rest := PageOutline(copy, a.history, ps[1..], pageHeight, page);
      var found := Found(a.heading, page);
      StepRecords(copy, history, ps[0].span, pageHeight, page);
      RecordedStep(history, ps, a.history, rest.history);
      SamePage(found, rest.outline, page);
      TextsJoin(found, rest.outline, ps);
      ReportedStep(copy, history, ps, pageHeight, page);
      Progress(rest.history, found + rest.outline)
  }

  /** The entries a span yields when it is analysed against a given history. */
  function SpanEntries(copy: Copy, pageHeight: real, page: int): (seq<real>, Span) -> seq<Entry> {
    (h: seq<real>, span: Span) => Found(SpanStep(copy, h, span, pageHeight).heading, page)
  }

  /** The entries of the spans from index `j` on, in index order, where span `j` is analysed
      against the history the spans before it on the page have left. */
  function ReportedFrom(entries: (seq<real>, Span) -> seq<Entry>, history: seq<real>, ps: seq<Placed>, j: nat): seq<Entry>
    requires j <= |ps|
    decreases |ps| - j
  {
    if j == |ps| then [] else entries(history + Recorded(ps[..j]), ps[j].span) + ReportedFrom(entries, history, ps, j + 1)
  }

  /** What one page reports, span by span: the entries of every span in reading order. */
  function Reported(copy: Copy, history: seq<real>, ps: seq<Placed>, pageHeight: real, page: int): seq<Entry> {
    ReportedFrom(SpanEntries(copy, pageHeight, page), history, ps, 0)
  }

  /** Reading the first span, then reporting the rest against the history it leaves, is
      reporting the whole page. */
  lemma ReportedStep(copy: Copy, history: seq<real>, ps: seq<Placed>, pageHeight: real, page: int)
    requires |ps| > 0
    ensures var a := SpanStep(copy, history, ps[0].span, pageHeight);
      Reported(copy, history, ps, pageHeight, page)
      == Found(a.heading, page) + Reported(copy, a.history, ps[1..], pageHeight, page)
  {
    var f := SpanEntries(copy, pageHeight, page);
    var a := SpanStep(copy, history, ps[0].span, pageHeight);
    StepRecords(copy, history, ps[0].span, pageHeight, page);
    assert f(history, ps[0].span) == Found(a.heading, page);
    ReportedFromStep(f, history, ps, a.history, Found(a.heading, page));
  }

  /** The same, for any way of turning a span and a history into entries. */
  lemma ReportedFromStep(entries: (seq<real>, Span) -> seq<Entry>, history: seq<real>, ps: seq<Placed>,
                         mid: seq<real>, here: seq<Entry>)
    requires |ps| > 0
    requires entries(history, ps[0].span) == here
    requires mid == history + RecordedBy(ps[0].span)
    ensures ReportedFrom(entries, history, ps, 0) == here + ReportedFrom(entries, mid, ps[1..], 0)
  {
    ReportedHead(entries, history, ps);
    ReportedShift(entries, history, ps, 0);
  }

  /** The first span is analysed against the history the page starts with. */
  lemma ReportedHead(entries: (seq<real>, Span) -> seq<Entry>, history: seq<real>, ps: seq<Placed>)
    requires |ps| > 0
    ensures ReportedFrom(entries, history, ps, 0) == entries(history, ps[0].span) + ReportedFrom(entries, history, ps, 1)
  {
    var h := history + Recorded(ps[..0]);
    NoSpansBefore(history, ps);
    assert ReportedFrom(entries, history, ps, 0) == entries(h, ps[0].span) + ReportedFrom(entries, history, ps, 1);
  }

  lemma NoSpansBefore(history: seq<real>, ps: seq<Placed>)
    ensures history + Recorded(ps[..0]) == history
  {
    assert ps[..0] == [];
  }

  /** Dropping the first span and starting from the history it leaves shifts every index
      down by one. */
  lemma {:induction false} ReportedShift(entries: (seq<real>, Span) -> seq<Entry>, history: seq<real>, ps: seq<Placed>, j: nat)
    requires j < |ps|
    ensures ReportedFrom(entries, history, ps, j + 1)
         == ReportedFrom(entries, history + RecordedBy(ps[0].span), ps[1..], j)
    decreases |ps| - j
  {
    if j + 1 < |ps| {
      RecordedPrefix(history, ps, j);
      assert ps[j + 1] == ps[1..][j];
      ReportedShift(entries, history, ps, j + 1);
    }
  }

  /** The history before span `j + 1` is the history after the first span, then the sizes of
      the spans between. */
  lemma RecordedPrefix(history: seq<real>, ps: seq<Placed>, j: nat)
    requires j + 1 <= |ps|
    ensures history + Recorded(ps[..j + 1]) == (history + RecordedBy(ps[0].span)) + Recorded(ps[1..][..j])
  {
    var pre := ps[..j + 1];
    assert pre[0] == ps[0] && pre[1..] == ps[1..][..j];
    assert Recorded(pre) == RecordedBy(ps[0].span) + Recorded(ps[1..][..j]);
    ConcatAssoc(history, RecordedBy(ps[0].span), Recorded(ps[1..][..j]));
  }

  /** The history after one span and then the rest of the page is the history after the
      whole page. */
  lemma RecordedStep(history: seq<real>, ps: seq<Placed>, mid: seq<real>, after: seq<real>)
    requires |ps| > 0
    requires mid == history + RecordedBy(ps[0].span)
    requires after == mid + Recorded(ps[1..])
    ensures after == history + Recorded(ps)
  {
    ConcatAssoc(history, RecordedBy(ps[0].span), Recorded(ps[1..]));
  }

  /** Entries all on one page stay on that page when joined. */
  lemma SamePage(here: seq<Entry>, rest: seq<Entry>, page: int)
    requires forall i :: 0 <= i < |here| ==> here[i].page == page
    requires forall i :: 0 <= i < |rest| ==> rest[i].page == page
    ensures forall i :: 0 <= i < |here + rest| ==> (here + rest)[i].page == page
  {
  }

  /** The text each span would be reported under: trimmed, then cleaned. */
  function CleanedTexts(ps: seq<Placed>): (ts: seq<string>)
    ensures |ts| == |ps|
    ensures forall i :: 0 <= i < |ps| ==> ts[i] == Clean(Trim(ps[i].span.text))
  {
    if |ps| == 0 then [] else [Clean(Trim(ps[0].span.text))] + CleanedTexts(ps[1..])
  }

  lemma TextsJoin(found: seq<Entry>, rest: seq<Entry>, ps: seq<Placed>)
    requires |ps| > 0
    requires forall k :: 0 <= k < |found| ==> found[k].text == Clean(Trim(ps[0].span.text))
    requires forall k :: 0 <= k < |rest| ==> rest[k].text in CleanedTexts(ps[1..])
    ensures forall k :: 0 <= k < |found + rest| ==> (found + rest)[k].text in CleanedTexts(ps)
  {
    var all := CleanedTexts(ps);
    assert all == [Clean(Trim(ps[0].span.text))] + CleanedTexts(ps[1..]);
    forall k | 0 <= k < |found + rest| ensures (found + rest)[k].text in all {
      if k < |found| {
        assert (found + rest)[k] == found[k];
        assert all[0] == found[k].text;
      } else {
        assert (found + rest)[k] == rest[k - |found|];
      }
    }
  }

  /** The entries of `pages`, numbered from `first + 1`, appended page by page. */
  function PagesOutline(copy: Copy, history: seq<real>, pages: seq<Page>, first: nat): (p: Progress)
    ensures p.history == history + RecordedPages(pages)
    ensures |p.outline| <= |RecordedPages(pages)|
    ensures forall i :: 0 <= i < |p.outline| ==> first + 1 <= p.outline[i].page <= first + |pages|
    ensures forall i, j :: 0 <= i < j < |p.outline| ==> p.outline[i].page <= p.outline[j].page
    ensures p.outline == PagesReported(copy, history, pages, first)
    decreases |pages|
  {
    if |pages| == 0 then Progress(history, [])
    else
      var here := PageOutline(copy, history, TextSpans(pages[0].blocks), pages[0].height, first + 1);
      var rest := PagesOutline(copy, here.history, pages[1..], first + 1);
      var mine := Recorded(TextSpans(pages[0].blocks));
      assert RecordedPages(pages) == mine + RecordedPages(pages[1..]);
      ConcatAssoc(history, mine, RecordedPages(pages[1..]));
      JoinPages(here.outline, rest.outline, first + 1, first + |pages|);
      PagesReportedStep(copy, history, pages, first);
      Progress(rest.history, here.outline + rest.outline)
  }

  /** The entries a page yields, numbered `number`, when it is read against a given history. */
  function PageEntries(copy: Copy): (seq<real>, Page, int) -> seq<Entry> {
    (h: seq<real>, pg: Page, number: int) => Reported(copy, h, TextSpans(pg.blocks), pg.height, number)
  }

  /** What the pages from index `k` on report, page after page: page `k` is numbered
      `first + k + 1` and read against the history every earlier page has left. */
  function PagesReportedFrom(entries: (seq<real>, Page, int) -> seq<Entry>, history: seq<real>, pages: seq<Page>, first: nat, k: nat): seq<Entry>
    requires k <= |pages|
    decreases |pages| - k
  {
    if k == |pages| then []
    else entries(history + RecordedPages(pages[..k]), pages[k], first + k + 1) + PagesReportedFrom(entries, history, pages, first, k + 1)
  }

  /** What a run of pages reports: every page's entries in page order. */
  function PagesReported(copy: Copy, history: seq<real>, pages: seq<Page>, first: nat): seq<Entry> {
    PagesReportedFrom(PageEntries(copy), history, pages, first, 0)
  }

  /** Reporting the first page, then the rest against the history it leaves, is reporting
      the whole run. */
  lemma PagesReportedStep(copy: Copy, history: seq<real>, pages: seq<Page>, first: nat)
    requires |pages| > 0
    ensures PagesReported(copy, history, pages, first)
         == Reported(copy, history, TextSpans(pages[0].blocks), pages[0].height, first + 1)
            + PagesReported(copy, history + Recorded(TextSpans(pages[0].blocks)), pages[1..], first + 1)
  {
    var g := PageEntries(copy);
    PagesReportedHead(g, history, pages, first);
    PagesReportedShift(g, history, pages, first, 0);
  }

  /** The first page is read against the history the run starts with. */
  lemma PagesReportedHead(entries: (seq<real>, Page, int) -> seq<Entry>, history: seq<real>, pages: seq<Page>, first: nat)
    requires |pages| > 0
    ensures PagesReportedFrom(entries, history, pages, first, 0)
         == entries(history, pages[0], first + 1) + PagesReportedFrom(entries, history, pages, first, 1)
  {
    var h := history + RecordedPages(pages[..0]);
    NoPagesBefore(history, pages);
    assert PagesReportedFrom(entries, history, pages, first, 0)
        == entries(h, pages[0], first + 1) + PagesReportedFrom(entries, history, pages, first, 1);
  }

  lemma NoPagesBefore(history: seq<real>, pages: seq<Page>)
    ensures history + RecordedPages(pages[..0]) == history
  {
    assert pages[..0] == [];
  }

  /** Dropping the first page, starting from the history it leaves and numbering from one
      higher shifts every index down by one. */
  lemma {:induction false} PagesReportedShift(entries: (seq<real>, Page, int) -> seq<Entry>, history: seq<real>, pages: seq<Page>, first: nat, k: nat)
    requires k < |pages|
    ensures PagesReportedFrom(entries, history, pages, first, k + 1)
         == PagesReportedFrom(entries, history + Recorded(TextSpans(pages[0].blocks)), pages[1..], first + 1, k)
    decreases |pages| - k
  {
    if k + 1 < |pages| {
      RecordedPagesPrefix(history, pages, k);
      assert pages[k + 1] == pages[1..][k];
      PagesReportedShift(entries, history, pages, first, k + 1);
    }
  }

  /** The history before page `k + 1` is the history after the first page, then the sizes
      of the pages between. */
  lemma RecordedPagesPrefix(history: seq<real>, pages: seq<Page>, k: nat)
    requires k + 1 <= |pages|
    ensures history + RecordedPages(pages[..k + 1])
         == (history + Recorded(TextSpans(pages[0].blocks))) + RecordedPages(pages[1..][..k])
  {
    var pre := pages[..k + 1];
    var mine := Recorded(TextSpans(pages[0].blocks));
    assert pre[0] == pages[0] && pre[1..] == pages[1..][..k];
    assert RecordedPages(pre) == mine + RecordedPages(pages[1..][..k]);
    ConcatAssoc(history, mine, RecordedPages(pages[1..][..k]));
  }

  lemma ConcatAssoc<T>(a: seq<T>, b: seq<T>, c: seq<T>)
    ensures a + (b + c) == (a + b) + c
  {
  }

  /** Entries of one page followed by sorted entries of later pages are sorted by page. */
  lemma JoinPages(here: seq<Entry>, later: seq<Entry>, page: int, last: int)
    requires forall i :: 0 <= i < |here| ==> here[i].page == page
    requires forall i :: 0 <= i < |later| ==> page + 1 <= later[i].page <= last
    requires forall i, j :: 0 <= i < j < |later| ==> later[i].page <= later[j].page
    requires page <= last
    ensures forall i :: 0 <= i < |here + later| ==> page <= (here + later)[i].page <= last
    ensures forall i, j :: 0 <= i < j < |here + later| ==> (here + later)[i].page <= (here + later)[j].page
  {
    var all := here + later;
    forall i, j | 0 <= i < j < |all| ensures all[i].page <= all[j].page {
      if j < |here| {
      } else if i < |here| {
        assert all[j] == later[j - |here|];
      } else {
        assert all[i] == later[i - |here|] && all[j] == later[j - |here|];
      }
    }
  }

  /** The pages the outline reads: the first 50 at most. */
  function ReadPages(doc: Document): (ps: seq<Page>)
    ensures |ps| <= PageCap
    ensures |ps| == if |doc.pages| < PageCap then |doc.pages| else PageCap
    ensures ps == doc.pages[..|ps|]
  {
    if |doc.pages| < PageCap then doc.pages else doc.pages[..PageCap]
  }

  /** `_extract_outline` */
  function ExtractOutline(copy: Copy, history: seq<real>, doc: Document): (p: Progress)
    ensures p.history == history + RecordedPages(ReadPages(doc))
    ensures |p.outline| <= |RecordedPages(ReadPages(doc))|
    ensures forall i :: 0 <= i < |p.outline| ==> 1 <= p.outline[i].page <= |ReadPages(doc)| <= PageCap
    ensures forall i, j :: 0 <= i < j < |p.outline| ==> p.outline[i].page <= p.outline[j].page
    ensures p.outline == PagesReported(copy, history, ReadPages(doc), 0)
  {
    PagesOutline(copy, history, ReadPages(doc), 0)
  }

  /** A span whose trimmed text passes the prefilter and is numbered like `1. ` becomes an
      H1 entry under its cleaned text, whatever the history before it. */
  lemma NumberedSpanReported(copy: Copy, history: seq<real>, span: Span, pageHeight: real)
    requires IsPotentialHeading(Trim(span.text)) && NumberedMatch(Trim(span.text))
    ensures SpanStep(copy, history, span, pageHeight)
         == Analysis(history + [SpanSize(span)], Some(Heading(H1, Clean(Trim(span.text)))))
  {
    NumberedIsReportedH1(copy, history, Trim(span.text), SpanSize(span), span.font, span.flags,
                         SpanBox(span), pageHeight);
  }

  /** One 800-unit page holding the single span "1. Introduction" in 12-point Arial. */
  function IntroductionDocument(): Document {
    Document(None, [Page(800.0, [Block(0, [Line(50.0, [IntroductionSpan()])])])])
  }

  function IntroductionSpan(): Span {
    Span("1. Introduction", Some(12.0), "Arial", 0, None)
  }

  /** The outline of that document is the one H1 entry "1. Introduction" on page 1. */
  lemma IntroductionOutline(copy: Copy)
    ensures ExtractOutline(copy, [], IntroductionDocument()).outline == [Entry(H1, "1. Introduction", 1)]
  {
    IntroductionText();
    OneNumberedSpanOutline(copy, [], 800.0, 50.0, IntroductionSpan());
  }

  /** A document of one page whose only text is one numbered span has that span as its
      whole outline: one H1 entry on page 1. */
  lemma OneNumberedSpanOutline(copy: Copy, history: seq<real>, height: real, y: real, span: Span)
    requires IsPotentialHeading(Trim(span.text)) && NumberedMatch(Trim(span.text))
    ensures ExtractOutline(copy, history, Document(None, [Page(height, [Block(0, [Line(y, [span])])])])).outline
         == [Entry(H1, Clean(Trim(span.text)), 1)]
  {
    var pg := Page(height, [Block(0, [Line(y, [span])])]);
    var doc := Document(None, [pg]);
    var e := Entry(H1, Clean(Trim(span.text)), 1);
    assert ReadPages(doc) == [pg];
    OnePageReported(PageEntries(copy), history, pg, 0);
    OneSpanTextSpans(y, span);
    OneNumberedSpanReported(copy, history, height, y, span);
  }

  /** A run of one page reports what that page yields against the run's starting history. */
  lemma OnePageReported(entries: (seq<real>, Page, int) -> seq<Entry>, history: seq<real>, pg: Page, first: nat)
    ensures PagesReportedFrom(entries, history, [pg], first, 0) == entries(history, pg, first + 1)
  {
    NoPagesBefore(history, [pg]);
    assert PagesReportedFrom(entries, history, [pg], first, 1) == [];
  }

  lemma OneSpanTextSpans(y: real, span: Span)
    ensures TextSpans([Block(0, [Line(y, [span])])]) == [Placed(y, span)]
  {
    var b := Block(0, [Line(y, [span])]);
    assert LinesSpans(b.lines) == [Placed(y, span)];
    assert TextSpans([b][1..]) == [];
  }

  lemma OneNumberedSpanReported(copy: Copy, history: seq<real>, height: real, y: real, span: Span)
    requires IsPotentialHeading(Trim(span.text)) && NumberedMatch(Trim(span.text))
    ensures Reported(copy, history, [Placed(y, span)], height, 1) == [Entry(H1, Clean(Trim(span.text)), 1)]
  {
    OneSpanReported(SpanEntries(copy, height, 1), history, Placed(y, span));
    NumberedSpanEntry(copy, history, span, height, 1);
  }

  lemma NumberedSpanEntry(copy: Copy, history: seq<real>, span: Span, pageHeight: real, page: int)
    requires IsPotentialHeading(Trim(span.text)) && NumberedMatch(Trim(span.text))
    ensures SpanEntries(copy, pageHeight, page)(history, span) == [Entry(H1, Clean(Trim(span.text)), page)]
  {
    SpanEntriesApply(copy, history, span, pageHeight, page);
    NumberedSpanReported(copy, history, span, pageHeight);
  }

  lemma SpanEntriesApply(copy: Copy, history: seq<real>, span: Span, pageHeight: real, page: int)
    ensures SpanEntries(copy, pageHeight, page)(history, span) == Found(SpanStep(copy, history, span, pageHeight).heading, page)
  {
  }

  /** A page of one span reports what that span yields against the page's starting history. */
  lemma OneSpanReported(entries: (seq<real>, Span) -> seq<Entry>, history: seq<real>, p: Placed)
    ensures ReportedFrom(entries, history, [p], 0) == entries(history, p.span)
  {
    NoSpansBefore(history, [p]);
    assert ReportedFrom(entries, history, [p], 1) == [];
  }

  lemma IntroductionText()
    ensures var t := Trim(IntroductionSpan().text);
      t == "1. Introduction" && IsPotentialHeading(t) && NumberedMatch(t) && Clean(t) == t
  {
    IntroductionPrefilter();
    IntroductionIsNumbered();
    NumberedIntroduction(12.0, 0.0, []);
  }

  /** Pages past the cap are never read: documents agreeing on their first 50 pages get
      the same outline and leave the same history. */
  lemma PagesPastCapUnread(copy: Copy, history: seq<real>, d1: Document, d2: Document)
    requires |d1.pages| >= PageCap && |d2.pages| >= PageCap
    requires d1.pages[..PageCap] == d2.pages[..PageCap]
    ensures ExtractOutline(copy, history, d1) == ExtractOutline(copy, history, d2)
  {
  }

  /** What `extract_structure` returns, with the detector's history after it. */
  datatype Extraction = Extraction(history: seq<real>, structure: Structure)

  /** `extract_structure`: the title and the outline; only the outline touches the history.
      The extractor imports the top-level detector, so the program runs this with `Root`;
      `DocOutline` here is a pairing the program never builds. */
  function ExtractStructure(copy: Copy, history: seq<real>, doc: Document): (r: Extraction)
    ensures r.structure.title == ExtractTitle(doc)
    ensures r.structure.outline == ExtractOutline(copy, history, doc).outline
    ensures r.history == history + RecordedPages(ReadPages(doc))
  {
    var outline := ExtractOutline(copy, history, doc);
    Extraction(outline.history, Structure(ExtractTitle(doc), outline.outline))
  }

  /** One extractor serves document after document and its history is never reset: the
      second document is analysed against the sizes of the first as well as its own. */
  lemma HistoryCarriesAcrossDocuments(copy: Copy, d1: Document, d2: Document)
    ensures ExtractStructure(copy, ExtractStructure(copy, [], d1).history, d2).history
         == RecordedPages(ReadPages(d1)) + RecordedPages(ReadPages(d2))
  {
    var first := ExtractStructure(copy, [], d1);
    assert first.history == RecordedPages(ReadPages(d1));
  }

  /** A document without pages or metadata title: "Untitled Document" and no entries. */
  lemma EmptyDocument(copy: Copy, history: seq<real>)
    ensures ExtractStructure(copy, history, Document(None, [])) == Extraction(history, Structure(UntitledTitle, []))
  {
  }
}
