/**
  Heading and figure extraction of server/app/pdf_parser.py. The model
  starts from the text that PdfReader extracted: one sequence of lines per
  page (the result of `splitlines()` on each page's text).

  The two regular expressions are encoded exactly, over the ASCII versions of
  `\d`, `\s` and `\w` in module Text:
    heading  ^(\d+(?:\.\d+)*)\s+(.+)$        applied with `match` to the stripped line
    figure   \b(Figure|Fig\.)\b, IGNORECASE  applied with `search` to the line
 */
module PdfParser {
  import opened Outcomes
  import opened Text
  import opened Seqs

  datatype ParsedSection = ParsedSection(
    headingText: string, headingLevel: string, pageStart: Option<int>, pageEnd: Option<int>, orderIndex: int)

  /** `sectionIndex` is an index into the parsed sections; the parser never makes it negative. */
  datatype ParsedFigure = ParsedFigure(
    sectionIndex: Option<nat>, pageNumber: Option<int>, captionText: Option<string>, orderIndex: int)

  datatype Parsed = Parsed(sections: seq<ParsedSection>, figures: seq<ParsedFigure>)

  // ----- The heading pattern -----

  /** `\d+(?:\.\d+)*`: one or more digit groups separated by single dots. */
  predicate IsDottedNumber(s: string) {
    && |s| > 0 && IsDigit(s[0]) && IsDigit(s[|s| - 1])
    && (forall i :: 0 <= i < |s| ==> IsDigit(s[i]) || s[i] == '.')
    && (forall i :: 0 <= i < |s| - 1 && s[i] == '.' ==> s[i + 1] != '.')
  }

  /** `.` without DOTALL matches any character except a newline. */
  predicate NoNewline(s: string) {
    forall i :: 0 <= i < |s| ==> s[i] != '\n'
  }

  /**
    The heading pattern matches `s` with the number in `s[..a]`, the
    whitespace in `s[a..b]` and the title `(.+)` in `s[b..]`, up to the end.
   */
  predicate HeadingSplit(s: string, a: int, b: int) {
    0 < a < b < |s| && IsDottedNumber(s[..a]) && Blank(s[a..b]) && NoNewline(s[b..])
  }

  /**
    `^(\d+(?:\.\d+)*)\s+(.+)$` matches `s`. (`$` may also match before a
    final newline; on the stripped lines it is applied to, there is none.)
   */
  ghost predicate MatchesHeadingPattern(s: string) {
    exists a, b :: HeadingSplit(s, a, b)
  }

  /** The number of leading characters that are digits or dots. */
  function NumberPrefixLength(s: string): (n: nat)
    ensures n <= |s|
    ensures forall i :: 0 <= i < n ==> IsDigit(s[i]) || s[i] == '.'
    ensures n < |s| ==> !(IsDigit(s[n]) || s[n] == '.')
  {
    if s == [] || !(IsDigit(s[0]) || s[0] == '.') then 0 else 1 + NumberPrefixLength(s[1..])
  }

  /** The number of leading whitespace characters. */
  function SpaceRunLength(s: string): (n: nat)
    ensures n <= |s| && Blank(s[..n])
    ensures n < |s| ==> !IsSpace(s[n])
  {
    if s == [] || !IsSpace(s[0]) then 0
    else
      var n := 1 + SpaceRunLength(s[1..]);
      assert forall i :: 1 <= i < n ==> s[..n][i] == s[1..][..n - 1][i - 1];
      n
  }

  /**
    Decides the heading pattern by a single left-to-right reading: the number
    is the whole run of digits and dots, and the title starts after the whole
    run of whitespace that follows it.
   */
  predicate IsHeadingLine(s: string) {
    var a := NumberPrefixLength(s);
    var b := a + SpaceRunLength(s[a..]);
    a < b < |s| && IsDottedNumber(s[..a]) && NoNewline(s[b..])
  }

  /** A match of the pattern puts the end of its number where the run of digits and dots ends. */
  lemma NumberEndsAtSplit(s: string, a: int, b: int)
    requires HeadingSplit(s, a, b)
    ensures NumberPrefixLength(s) == a
  {
    assert IsSpace(s[a]) by { assert s[a..b][0] == s[a]; }
    forall i | 0 <= i < a ensures IsDigit(s[i]) || s[i] == '.' { assert s[..a][i] == s[i]; }
  }

  /** On a stripped line, a match's whitespace lies inside the whole run of whitespace after the number. */
  lemma SpaceRunCoversSplit(s: string, a: int, b: int)
    requires IsStripped(s) && HeadingSplit(s, a, b) && NumberPrefixLength(s) == a
    ensures b <= a + SpaceRunLength(s[a..]) < |s|
  {
    var n := SpaceRunLength(s[a..]);
    forall i | a <= i < b ensures IsSpace(s[i]) { assert s[a..b][i - a] == s[i]; }
    forall i | a <= i < a + n ensures IsSpace(s[i]) { assert s[a..][..n][i - a] == s[i]; }
    assert !IsSpace(s[|s| - 1]);
    if n < |s| - a {
      assert !IsSpace(s[a + n]) by { assert s[a..][n] == s[a + n]; }
    }
  }

  /** On a stripped line the single reading decides the pattern exactly. */
  lemma IsHeadingLineCorrect(s: string)
    requires IsStripped(s)
    ensures IsHeadingLine(s) <==> MatchesHeadingPattern(s)
  {
    var a := NumberPrefixLength(s);
    var n := SpaceRunLength(s[a..]);
    var b := a + n;
    if IsHeadingLine(s) {
      assert s[a..][..n] == s[a..b];
      assert HeadingSplit(s, a, b);
    }
    if MatchesHeadingPattern(s) {
      var a', b' :| HeadingSplit(s, a', b');
      NumberEndsAtSplit(s, a', b');
      SpaceRunCoversSplit(s, a', b');
      assert s[b..] == s[b'..][b - b'..];
    }
  }

  /** `1.2 Scope` is a heading. */
  lemma DottedNumberHeading()
    ensures MatchesHeadingPattern("1.2 Scope")
  {
    var s := "1.2 Scope";
    assert s[..3] == "1.2" && s[3..4] == " " && s[4..] == "Scope";
    assert HeadingSplit(s, 3, 4);
  }

  /** `1. Intro` is not a heading: the number may not end with a dot. */
  lemma TrailingDotIsNotHeading()
    ensures !MatchesHeadingPattern("1. Intro")
  {
    var s := "1. Intro";
    forall a, b | 0 < a < b < |s| && Blank(s[a..b]) ensures !IsDottedNumber(s[..a]) {
      assert s[a..b][0] == s[a];
      assert s[..a] == "1.";
    }
  }

  // ----- The figure pattern -----

  /** `\b` at position `i`: exactly one of the neighbouring characters is a word character. */
  predicate WordBoundary(s: string, i: int)
    requires 0 <= i <= |s|
  {
    (0 < i && IsWordChar(s[i - 1])) != (i < |s| && IsWordChar(s[i]))
  }

  /** `lit` (lower case) occurs at position `i` of `s` when case is ignored. */
  predicate MatchesIgnoringCase(s: string, i: int, lit: string) {
    0 <= i && i + |lit| <= |s| && forall k :: 0 <= k < |lit| ==> Lower(s[i + k]) == lit[k]
  }

  /** `\b(Figure|Fig\.)\b` with IGNORECASE matches at position `i`. */
  predicate FigureMatchAt(s: string, i: int) {
    && 0 <= i <= |s| && WordBoundary(s, i)
    && ((MatchesIgnoringCase(s, i, "figure") && WordBoundary(s, i + 6))
        || (MatchesIgnoringCase(s, i, "fig.") && WordBoundary(s, i + 4)))
  }

  /** `re.search` for the figure pattern: some position from `i` on starts a match. */
  predicate SearchFigureFrom(s: string, i: nat)
    decreases |s| - i
  {
    i <= |s| && (FigureMatchAt(s, i) || SearchFigureFrom(s, i + 1))
  }

  /** `re.search(r"\b(Figure|Fig\.)\b", line, re.IGNORECASE)` finds a match. */
  predicate MentionsFigure(s: string) {
    SearchFigureFrom(s, 0)
  }

  lemma {:induction false} SearchFigureFromIff(s: string, i: nat)
    ensures SearchFigureFrom(s, i) <==> exists k :: i <= k <= |s| && FigureMatchAt(s, k)
    decreases |s| - i
  {
    if i <= |s| {
      SearchFigureFromIff(s, i + 1);
      if exists k :: i <= k <= |s| && FigureMatchAt(s, k) {
        var k :| i <= k <= |s| && FigureMatchAt(s, k);
        if k > i { assert i + 1 <= k; }
      }
    }
  }

  /** The search succeeds exactly when the pattern matches at some position of the line. */
  lemma MentionsFigureIff(s: string)
    ensures MentionsFigure(s) <==> exists i :: 0 <= i <= |s| && FigureMatchAt(s, i)
  {
    SearchFigureFromIff(s, 0);
  }

  /** The `\b` after `Fig.` needs a word character next: `Fig.3` matches. */
  lemma FigDotDigitMatches()
    ensures MentionsFigure("Fig.3")
  {
    assert FigureMatchAt("Fig.3", 0);
    MentionsFigureIff("Fig.3");
  }

  /** `Fig. 3` does not match: a dot followed by a space is no word boundary. */
  lemma FigDotSpaceDoesNotMatch()
    ensures !MentionsFigure("Fig. 3")
  {
    var s := "Fig. 3";
    forall i | 0 <= i <= |s| ensures !FigureMatchAt(s, i) {
      if i == 0 {
        assert !MatchesIgnoringCase(s, 0, "figure") by { assert Lower(s[0 + 3]) != "figure"[3]; }
      } else {
        assert i + 4 > |s| || Lower(s[i]) != 'f';
      }
    }
    MentionsFigureIff(s);
  }

  /** `Figures` does not match: the word goes on after `Figure`. */
  lemma FiguresDoesNotMatch()
    ensures !MentionsFigure("Figures")
  {
    var s := "Figures";
    forall i | 0 <= i <= |s| ensures !FigureMatchAt(s, i) {
      if i == 0 {
        assert !MatchesIgnoringCase(s, 0, "fig.") by { assert Lower(s[0 + 3]) != "fig."[3]; }
        assert !WordBoundary(s, 6);
      } else {
        assert i + 4 > |s| || Lower(s[i]) != 'f';
      }
    }
    MentionsFigureIff(s);
  }

  /** Case is ignored: `see FIGURE 2` matches. */
  lemma UpperCaseFigureMatches()
    ensures MentionsFigure("see FIGURE 2")
  {
    assert FigureMatchAt("see FIGURE 2", 4);
    MentionsFigureIff("see FIGURE 2");
  }

  /** A line that mentions a figure holds a letter, so it is not blank. */
  lemma MentionsFigureNotBlank(s: string)
    requires MentionsFigure(s)
    ensures Strip(s) != []
  {
    MentionsFigureIff(s);
    var i :| 0 <= i <= |s| && FigureMatchAt(s, i);
    assert Lower(s[i]) == 'f' by {
      if MatchesIgnoringCase(s, i, "figure") {
        assert Lower(s[i + 0]) == "figure"[0];
      } else {
        assert Lower(s[i + 0]) == "fig."[0];
      }
    }
  }

  // ----- _detect_sections -----

  /**
    `_detect_sections`: in input order, the stripped lines that match the
    heading pattern. Each is stripped and matches; no matching line is missed.
   */
  ghost function Headings(lines: seq<string>): (r: seq<string>)
    ensures |r| <= |lines|
    ensures forall h :: h in r ==> MatchesHeadingPattern(h) && IsStripped(h)
    ensures forall i :: 0 <= i < |lines| && MatchesHeadingPattern(Strip(lines[i])) ==> Strip(lines[i]) in r
  {
    if lines == [] then []
    else
      var init := lines[..|lines| - 1];
      var t := Strip(lines[|lines| - 1]);
      var prev := Headings(init);
      var r := if MatchesHeadingPattern(t) then prev + [t] else prev;
      assert forall h :: h in r ==> h in prev || h == t;
      assert forall i :: 0 <= i < |lines| && MatchesHeadingPattern(Strip(lines[i])) ==> Strip(lines[i]) in r by {
        forall i | 0 <= i < |lines| && MatchesHeadingPattern(Strip(lines[i])) ensures Strip(lines[i]) in r {
          if i < |init| { assert lines[i] == init[i]; }
        }
      }
      r
  }

  /**
    The headings are exactly the stripped lines that match the pattern, in
    input order, repeated lines included.
   */
  lemma {:induction false} HeadingsAreMatchingLines(lines: seq<string>)
    ensures Headings(lines) == Filter(StripAll(lines), MatchesHeadingPattern)
  {
    if lines != [] {
      var init := lines[..|lines| - 1];
      HeadingsAreMatchingLines(init);
      FilterSnoc(StripAll(init), Strip(lines[|lines| - 1]), MatchesHeadingPattern);
    }
  }

  /** The loop of `_detect_sections`, proved to return exactly `Headings(lines)`. */
  method DetectSections(lines: seq<string>) returns (headings: seq<string>)
    ensures headings == Headings(lines)
  {
    headings := [];
    for k := 0 to |lines|
      invariant headings == Headings(lines[..k])
    {
      var t := Strip(lines[k]);
      IsHeadingLineCorrect(t);
      if IsHeadingLine(t) {
        headings := headings + [t];
      }
      assert lines[..k + 1][..k] == lines[..k];
    }
    assert lines[..|lines|] == lines;
  }

  // ----- parse_pdf -----

  /** `[line for line in text.splitlines() if line.strip()]` */
  function NonBlankLines(lines: seq<string>): (r: seq<string>)
    ensures forall l :: l in r <==> l in lines && !Blank(l)
  {
    Filter(lines, (l: string) => Strip(l) != [])
  }

  /** The sections of one page, numbered on from `firstOrder`. */
  function PageSections(headings: seq<string>, page: int, firstOrder: int): (r: seq<ParsedSection>)
    ensures |r| == |headings|
    ensures forall i :: 0 <= i < |r| ==>
      r[i] == ParsedSection(headings[i], "H1", Some(page), Some(page), firstOrder + i)
  {
    if headings == [] then []
    else
      var init := headings[..|headings| - 1];
      var r := PageSections(init, page, firstOrder)
        + [ParsedSection(headings[|headings| - 1], "H1", Some(page), Some(page), firstOrder + |headings| - 1)];
      assert forall i :: 0 <= i < |init| ==> headings[i] == init[i];
      r
  }

  /**
    The figures of one page: one per line that mentions a figure, captioned by
    the stripped line, all pointing at `sectionIndex`, numbered on from
    `firstOrder`.
   */
  function PageFigures(lines: seq<string>, page: int, sectionIndex: Option<nat>, firstOrder: int): (r: seq<ParsedFigure>)
    ensures |r| <= |lines|
    ensures forall i :: 0 <= i < |r| ==>
      && r[i].sectionIndex == sectionIndex && r[i].pageNumber == Some(page)
      && r[i].orderIndex == firstOrder + i
      && r[i].captionText.Some? && r[i].captionText.value != [] && IsStripped(r[i].captionText.value)
  {
    if lines == [] then []
    else
      var init := lines[..|lines| - 1];
      var line := lines[|lines| - 1];
      var prev := PageFigures(init, page, sectionIndex, firstOrder);
      if MentionsFigure(line) then
        MentionsFigureNotBlank(line);
        prev + [ParsedFigure(sectionIndex, Some(page), Some(Strip(line)), firstOrder + |prev|)]
      else prev
  }

  /**
    The figures of a page are exactly its lines that mention a figure, one
    each and in line order, each captioned by its line stripped.
   */
  lemma {:induction false} PageFiguresAreMentioningLines(lines: seq<string>, page: int, sectionIndex: Option<nat>, firstOrder: int)
    ensures |PageFigures(lines, page, sectionIndex, firstOrder)| == |Filter(lines, MentionsFigure)|
    ensures forall i :: 0 <= i < |PageFigures(lines, page, sectionIndex, firstOrder)| ==>
      PageFigures(lines, page, sectionIndex, firstOrder)[i].captionText == Some(Strip(Filter(lines, MentionsFigure)[i]))
  {
    if lines != [] {
      var init := lines[..|lines| - 1];
      var line := lines[|lines| - 1];
      PageFiguresAreMentioningLines(init, page, sectionIndex, firstOrder);
      assert lines == init + [line];
      FilterSnoc(init, line, MentionsFigure);
      var r := PageFigures(lines, page, sectionIndex, firstOrder);
      var prev := PageFigures(init, page, sectionIndex, firstOrder);
      var mentions := Filter(lines, MentionsFigure);
      var earlier := Filter(init, MentionsFigure);
      forall i | 0 <= i < |r| ensures r[i].captionText == Some(Strip(mentions[i])) {
        if i < |prev| {
          assert r[i] == prev[i] && mentions[i] == earlier[i];
        }
      }
    }
  }

  /** The index of the last section so far: `len(sections) - 1`, or none when there is none. */
  function LastIndex(sections: seq<ParsedSection>): (r: Option<nat>)
    ensures r.None? <==> sections == []
    ensures r.Some? ==> r.value < |sections| && r.value + 1 == |sections|
  {
    if sections == [] then None else Some(|sections| - 1)
  }

  /** One turn of the page loop: the page's headings become sections, then its figure lines figures. */
  ghost function ScanPage(prev: Parsed, lines: seq<string>, page: int): Parsed {
    var sections := prev.sections + PageSections(Headings(lines), page, |prev.sections| + 1);
    var last := LastIndex(sections);
    Parsed(sections, prev.figures + PageFigures(lines, page, last, |prev.figures| + 1))
  }

  /** The page loop of `parse_pdf` over the pages, numbered from 1, before the fallback. */
  ghost function Scan(pages: seq<seq<string>>): Parsed {
    if pages == [] then Parsed([], [])
    else ScanPage(Scan(pages[..|pages| - 1]), NonBlankLines(pages[|pages| - 1]), |pages|)
  }

  /** The single section used when no heading is found anywhere. */
  function Overview(pageCount: int): ParsedSection {
    ParsedSection("Document Overview", "H1", Some(1), Some(pageCount), 1)
  }

  /** `parse_pdf` on the extracted lines of each page. */
  ghost function ParseSpec(pages: seq<seq<string>>): Parsed {
    var scanned := Scan(pages);
    if scanned.sections == [] then Parsed([Overview(|pages|)], scanned.figures) else scanned
  }

  /** The page a parsed section starts on (0 when unset, which the parser never leaves it). */
  function SectionPage(s: ParsedSection): int {
    if s.pageStart.Some? then s.pageStart.value else 0
  }

  /** The index of the last section starting on page `page` or earlier, if any. */
  function LastSectionUpTo(sections: seq<ParsedSection>, page: int): (r: Option<nat>)
    ensures r.Some? ==> r.value < |sections| && SectionPage(sections[r.value]) <= page
    ensures r.Some? ==> forall k :: r.value < k < |sections| ==> SectionPage(sections[k]) > page
    ensures r.None? ==> forall k :: 0 <= k < |sections| ==> SectionPage(sections[k]) > page
  {
    if sections == [] then None
    else if SectionPage(sections[|sections| - 1]) <= page then Some(|sections| - 1)
    else LastSectionUpTo(sections[..|sections| - 1], page)
  }

  /** Sections on later pages do not change which section an earlier page falls under. */
  lemma {:induction false} LastSectionUpToAppend(prev: seq<ParsedSection>, later: seq<ParsedSection>, page: int)
    requires forall s :: s in later ==> SectionPage(s) > page
    ensures LastSectionUpTo(prev + later, page) == LastSectionUpTo(prev, page)
  {
    if later != [] {
      var init := later[..|later| - 1];
      assert (prev + later)[..|prev + later| - 1] == prev + init;
      assert (prev + later)[|prev + later| - 1] == later[|later| - 1];
      assert later[|later| - 1] in later;
      assert forall s :: s in init ==> s in later;
      assert LastSectionUpTo(prev + later, page) == LastSectionUpTo(prev + init, page);
      LastSectionUpToAppend(prev, init, page);
    } else {
      assert prev + later == prev;
    }
  }

  /** What is known of a detected section at index `i`. */
  ghost predicate SectionFacts(s: ParsedSection, i: int, pageCount: int) {
    && s.orderIndex == i + 1 && s.headingLevel == "H1"
    && s.pageStart.Some? && s.pageEnd == s.pageStart && 1 <= s.pageStart.value <= pageCount
    && MatchesHeadingPattern(s.headingText) && IsStripped(s.headingText)
  }

  /** What is known of a figure at index `i`, given the sections detected. */
  ghost predicate FigureFacts(f: ParsedFigure, i: int, pageCount: int, sections: seq<ParsedSection>) {
    && f.orderIndex == i + 1
    && f.pageNumber.Some? && 1 <= f.pageNumber.value <= pageCount
    && f.captionText.Some? && f.captionText.value != [] && IsStripped(f.captionText.value)
    && f.sectionIndex == LastSectionUpTo(sections, f.pageNumber.value)
  }

  ghost predicate AllSectionFacts(sections: seq<ParsedSection>, pageCount: int) {
    forall i :: 0 <= i < |sections| ==> SectionFacts(sections[i], i, pageCount)
  }

  ghost predicate AllFigureFacts(figures: seq<ParsedFigure>, pageCount: int, sections: seq<ParsedSection>) {
    forall i :: 0 <= i < |figures| ==> FigureFacts(figures[i], i, pageCount, sections)
  }

  /** Sections sorted by the page they start on. */
  ghost predicate PagesNonDecreasing(sections: seq<ParsedSection>) {
    forall i, j :: 0 <= i < j < |sections| ==> SectionPage(sections[i]) <= SectionPage(sections[j])
  }

  /** Adding one page's headings keeps every section's facts and the page order. */
  lemma SectionsStep(prev: Parsed, lines: seq<string>, page: int)
    requires page >= 1
    requires AllSectionFacts(prev.sections, page - 1) && PagesNonDecreasing(prev.sections)
    ensures AllSectionFacts(ScanPage(prev, lines, page).sections, page)
    ensures PagesNonDecreasing(ScanPage(prev, lines, page).sections)
  {
    var headings := Headings(lines);
    var onPage := PageSections(headings, page, |prev.sections| + 1);
    var sections := prev.sections + onPage;
    assert ScanPage(prev, lines, page).sections == sections;
    forall i | 0 <= i < |sections| ensures SectionFacts(sections[i], i, page) {
      if i >= |prev.sections| {
        assert sections[i] == onPage[i - |prev.sections|];
        assert headings[i - |prev.sections|] in headings;
      }
    }
  }

  /**
    Adding one page's figures: earlier figures keep their section, because the
    new sections all start on a later page; the new figures point at the last
    section so far, which is the last one starting on this page or before.
   */
  lemma FiguresStep(prev: Parsed, lines: seq<string>, page: int)
    requires page >= 1
    requires AllFigureFacts(prev.figures, page - 1, prev.sections)
    requires AllSectionFacts(ScanPage(prev, lines, page).sections, page)
    ensures AllFigureFacts(ScanPage(prev, lines, page).figures, page, ScanPage(prev, lines, page).sections)
  {
    var onPage := PageSections(Headings(lines), page, |prev.sections| + 1);
    var sections := prev.sections + onPage;
    var last := LastIndex(sections);
    var newFigures := PageFigures(lines, page, last, |prev.figures| + 1);
    var figures := prev.figures + newFigures;
    assert ScanPage(prev, lines, page) == Parsed(sections, figures);
    assert last == LastSectionUpTo(sections, page) by {
      if sections != [] {
        assert SectionFacts(sections[|sections| - 1], |sections| - 1, page);
      }
    }
    forall i | 0 <= i < |figures| ensures FigureFacts(figures[i], i, page, sections) {
      if i < |prev.figures| {
        var f := prev.figures[i];
        assert FigureFacts(f, i, page - 1, prev.sections);
        forall s | s in onPage ensures SectionPage(s) > f.pageNumber.value {
          var k :| 0 <= k < |onPage| && onPage[k] == s;
        }
        LastSectionUpToAppend(prev.sections, onPage, f.pageNumber.value);
      } else {
        assert figures[i] == newFigures[i - |prev.figures|];
      }
    }
  }

  /** Figures sorted by the page they are on. */
  ghost predicate FigurePagesNonDecreasing(figures: seq<ParsedFigure>)
    requires forall i :: 0 <= i < |figures| ==> figures[i].pageNumber.Some?
  {
    forall i, j :: 0 <= i < j < |figures| ==> figures[i].pageNumber.value <= figures[j].pageNumber.value
  }

  /**
    Adding one page's figures keeps the figures sorted by page: the earlier
    figures are on earlier pages, and the new ones all on this page.
   */
  lemma ScanFigurePagesOrdered(prev: Parsed, lines: seq<string>, page: int)
    requires page >= 1
    requires AllFigureFacts(prev.figures, page - 1, prev.sections)
    requires FigurePagesNonDecreasing(prev.figures)
    requires AllFigureFacts(ScanPage(prev, lines, page).figures, page, ScanPage(prev, lines, page).sections)
    ensures FigurePagesNonDecreasing(ScanPage(prev, lines, page).figures)
  {
    var sections := ScanPage(prev, lines, page).sections;
    var newFigures := PageFigures(lines, page, LastIndex(sections), |prev.figures| + 1);
    var figures := prev.figures + newFigures;
    assert ScanPage(prev, lines, page).figures == figures;
    forall i, j | 0 <= i < j < |figures| ensures figures[i].pageNumber.value <= figures[j].pageNumber.value {
      if j >= |prev.figures| {
        assert figures[j] == newFigures[j - |prev.figures|];
        if i < |prev.figures| {
          assert FigureFacts(prev.figures[i], i, page - 1, prev.sections);
        } else {
          assert figures[i] == newFigures[i - |prev.figures|];
        }
      }
    }
  }

  ghost predicate ScanFacts(r: Parsed, pageCount: int) {
    AllSectionFacts(r.sections, pageCount) && PagesNonDecreasing(r.sections)
    && AllFigureFacts(r.figures, pageCount, r.sections) && FigurePagesNonDecreasing(r.figures)
  }

  /** One turn of the page loop keeps the facts, for one more page. */
  lemma ScanPageFacts(prev: Parsed, lines: seq<string>, page: int)
    requires page >= 1 && ScanFacts(prev, page - 1)
    ensures ScanFacts(ScanPage(prev, lines, page), page)
  {
    SectionsStep(prev, lines, page);
    FiguresStep(prev, lines, page);
    ScanFigurePagesOrdered(prev, lines, page);
  }

  /**
    The page loop numbers sections and figures 1, 2, 3, ..., both sorted by
    page; each detected section is an `H1` heading on one page and its text
    matches the heading pattern; each figure has a non-blank stripped caption
    and points at the last section detected on its page or before, if any.
    Line order within a page is `HeadingsAreMatchingLines` and
    `PageFiguresAreMentioningLines`.
   */
  lemma {:induction false} ScanFactsHold(pages: seq<seq<string>>)
    ensures ScanFacts(Scan(pages), |pages|)
  {
    if pages != [] {
      ScanFactsHold(pages[..|pages| - 1]);
      ScanPageFacts(Scan(pages[..|pages| - 1]), NonBlankLines(pages[|pages| - 1]), |pages|);
    }
  }

  /**
    The result of `parse_pdf`: at least one section; sections and figures
    numbered 1, 2, 3, ...; every section an `H1`; every figure's section index
    within the sections.
   */
  lemma ParseSpecFacts(pages: seq<seq<string>>)
    ensures |ParseSpec(pages).sections| >= 1
    ensures forall i :: 0 <= i < |ParseSpec(pages).sections| ==>
      ParseSpec(pages).sections[i].orderIndex == i + 1 && ParseSpec(pages).sections[i].headingLevel == "H1"
    ensures forall i :: 0 <= i < |ParseSpec(pages).figures| ==> ParseSpec(pages).figures[i].orderIndex == i + 1
    ensures forall i :: 0 <= i < |ParseSpec(pages).figures| && ParseSpec(pages).figures[i].sectionIndex.Some? ==>
      ParseSpec(pages).figures[i].sectionIndex.value < |ParseSpec(pages).sections|
  {
    ScanFactsHold(pages);
    var scanned := Scan(pages);
    assert AllFigureFacts(scanned.figures, |pages|, scanned.sections);
  }

  /** One more heading is one more section. */
  lemma PageSectionsSnoc(headings: seq<string>, k: int, page: int, firstOrder: int)
    requires 0 <= k < |headings|
    ensures PageSections(headings[..k + 1], page, firstOrder)
      == PageSections(headings[..k], page, firstOrder) + [ParsedSection(headings[k], "H1", Some(page), Some(page), firstOrder + k)]
  {
    assert headings[..k + 1][..k] == headings[..k];
  }

  /** A line that mentions a figure adds one figure, numbered next. */
  lemma PageFiguresSnocMatch(figures: seq<ParsedFigure>, acc: seq<ParsedFigure>, lines: seq<string>, j: int,
                             page: int, sectionIndex: Option<nat>)
    requires 0 <= j < |lines| && MentionsFigure(lines[j])
    requires acc == figures + PageFigures(lines[..j], page, sectionIndex, |figures| + 1)
    ensures acc + [ParsedFigure(sectionIndex, Some(page), Some(Strip(lines[j])), |acc| + 1)]
      == figures + PageFigures(lines[..j + 1], page, sectionIndex, |figures| + 1)
  {
    assert lines[..j + 1][..j] == lines[..j];
    var prev := PageFigures(lines[..j], page, sectionIndex, |figures| + 1);
    var figure := ParsedFigure(sectionIndex, Some(page), Some(Strip(lines[j])), |figures| + 1 + |prev|);
    assert PageFigures(lines[..j + 1], page, sectionIndex, |figures| + 1) == prev + [figure];
    assert acc + [figure] == figures + (prev + [figure]);
  }

  /** A line that does not mention a figure adds none. */
  lemma PageFiguresSnocNoMatch(figures: seq<ParsedFigure>, lines: seq<string>, j: int,
                               page: int, sectionIndex: Option<nat>)
    requires 0 <= j < |lines| && !MentionsFigure(lines[j])
    ensures PageFigures(lines[..j + 1], page, sectionIndex, |figures| + 1)
      == PageFigures(lines[..j], page, sectionIndex, |figures| + 1)
  {
    assert lines[..j + 1][..j] == lines[..j];
  }

  /** The page loop's state after one turn, written out. */
  lemma ScanPageIs(prev: Parsed, lines: seq<string>, page: int, sections: seq<ParsedSection>, figures: seq<ParsedFigure>)
    requires sections == prev.sections + PageSections(Headings(lines), page, |prev.sections| + 1)
    requires figures == prev.figures + PageFigures(lines, page, LastIndex(sections), |prev.figures| + 1)
    ensures ScanPage(prev, lines, page) == Parsed(sections, figures)
  {
  }

  /** Scanning one more page is one more turn of the page loop. */
  lemma ScanSnoc(pages: seq<seq<string>>, k: int)
    requires 0 <= k < |pages|
    ensures Scan(pages[..k + 1]) == ScanPage(Scan(pages[..k]), NonBlankLines(pages[k]), k + 1)
  {
    assert pages[..k + 1][..k] == pages[..k];
  }

  /**
    When no page has a heading, the sections are exactly `Document Overview`
    spanning pages 1 to the page count, and no figure has a section.
   */
  lemma NoHeadingFallback(pages: seq<seq<string>>)
    requires Scan(pages).sections == []
    ensures ParseSpec(pages).sections == [Overview(|pages|)]
    ensures forall i :: 0 <= i < |ParseSpec(pages).figures| ==> ParseSpec(pages).figures[i].sectionIndex.None?
  {
    ScanFactsHold(pages);
    var scanned := Scan(pages);
    assert AllFigureFacts(scanned.figures, |pages|, []);
  }

  /**
    When some heading is found, every section is an `H1` on one page between
    1 and the page count, in non-decreasing page order, and every figure
    points at the last section that starts on its page or earlier.
   */
  lemma HeadingsFound(pages: seq<seq<string>>)
    requires Scan(pages).sections != []
    ensures ParseSpec(pages) == Scan(pages)
    ensures ScanFacts(ParseSpec(pages), |pages|)
  {
    ScanFactsHold(pages);
  }

  /** The heading loop of one page: each heading becomes the next section, numbered by `orderIndex`. */
  method AddPageSections(sections: seq<ParsedSection>, orderIndex: int, headings: seq<string>, page: int)
    returns (sections': seq<ParsedSection>, orderIndex': int)
    requires orderIndex == |sections| + 1
    ensures sections' == sections + PageSections(headings, page, |sections| + 1)
    ensures orderIndex' == |sections'| + 1
  {
    sections', orderIndex' := sections, orderIndex;
    for k := 0 to |headings|
      invariant sections' == sections + PageSections(headings[..k], page, |sections| + 1)
      invariant orderIndex' == |sections'| + 1
    {
      PageSectionsSnoc(headings, k, page, |sections| + 1);
      sections' := sections' + [ParsedSection(headings[k], "H1", Some(page), Some(page), orderIndex')];
      orderIndex' := orderIndex' + 1;
    }
    assert headings[..|headings|] == headings;
  }

  /**
    The figure loop of one page: each line that mentions a figure becomes the
    next figure, attached to the last section so far.
   */
  method AddPageFigures(figures: seq<ParsedFigure>, sections: seq<ParsedSection>, lines: seq<string>, page: int)
    returns (figures': seq<ParsedFigure>)
    ensures figures' == figures + PageFigures(lines, page, LastIndex(sections), |figures| + 1)
  {
    var last := LastIndex(sections);
    figures' := figures;
    for j := 0 to |lines|
      invariant figures' == figures + PageFigures(lines[..j], page, last, |figures| + 1)
    {
      if MentionsFigure(lines[j]) {
        PageFiguresSnocMatch(figures, figures', lines, j, page, last);
        figures' := figures' + [ParsedFigure(last, Some(page), Some(Strip(lines[j])), |figures'| + 1)];
      } else {
        PageFiguresSnocNoMatch(figures, lines, j, page, last);
      }
    }
    assert lines[..|lines|] == lines;
  }

  /** One turn of the page loop of `parse_pdf`: the headings of the page, then its figures. */
  method ParsePage(sections: seq<ParsedSection>, figures: seq<ParsedFigure>, orderIndex: int, lines: seq<string>, page: int)
    returns (sections': seq<ParsedSection>, figures': seq<ParsedFigure>, orderIndex': int)
    requires orderIndex == |sections| + 1
    ensures Parsed(sections', figures') == ScanPage(Parsed(sections, figures), lines, page)
    ensures orderIndex' == |sections'| + 1
  {
    var headings := DetectSections(lines);
    sections', orderIndex' := AddPageSections(sections, orderIndex, headings, page);
    figures' := AddPageFigures(figures, sections', lines, page);
    ScanPageIs(Parsed(sections, figures), lines, page, sections', figures');
  }

  /** The page loop of `parse_pdf`, proved to compute `Scan(pages)`. */
  method ScanPages(pages: seq<seq<string>>) returns (sections: seq<ParsedSection>, figures: seq<ParsedFigure>)
    ensures Parsed(sections, figures) == Scan(pages)
  {
    sections, figures := [], [];
    var orderIndex := 1;
    for pageIndex := 1 to |pages| + 1
      invariant Parsed(sections, figures) == Scan(pages[..pageIndex - 1])
      invariant orderIndex == |sections| + 1
    {
      var lines := NonBlankLines(pages[pageIndex - 1]);
      sections, figures, orderIndex := ParsePage(sections, figures, orderIndex, lines, pageIndex);
      ScanSnoc(pages, pageIndex - 1);
    }
    assert pages[..|pages|] == pages;
  }

  /** `parse_pdf`: the page loop, then the fallback section when no heading was found. */
  method ParsePdf(pages: seq<seq<string>>) returns (sections: seq<ParsedSection>, figures: seq<ParsedFigure>)
    ensures Parsed(sections, figures) == ParseSpec(pages)
    ensures |sections| >= 1
    ensures forall i :: 0 <= i < |sections| ==> sections[i].orderIndex == i + 1
    ensures forall i :: 0 <= i < |figures| ==> figures[i].orderIndex == i + 1
    ensures forall i :: 0 <= i < |figures| && figures[i].sectionIndex.Some? ==> figures[i].sectionIndex.value < |sections|
  {
    sections, figures := ScanPages(pages);
    if sections == [] {
      sections := [Overview(|pages|)];
    }
    ParseSpecFacts(pages);
  }
}
