/**
 * The PDF text cleaner of `backend/ingestion/pdf.py`: from the per-page strings that the
 * PDF extractor returns, vote on repeated first and last lines (headers and footers),
 * trim them from every page, sanitise each remaining line, drop noise lines, and join
 * the pages into one whitespace-normalised document.
 *
 * The regular expressions are written out as functions over strings; for these patterns
 * backtracking never changes the match, so each is a left-to-right scan.
 */
module PdfCleaning {
  import opened Results
  import opened PyStr

  const HeaderFooterMaxLength: nat := 120
  const UnicodeBullets: set<char> := {'\U{2022}', '\U{2023}', '\U{25E6}', '\U{2043}', '\U{2219}'}
  /** The characters of `.strip("-•*")` at the end of `_sanitize_line`. */
  const EdgeMarks: set<char> := {'-', '\U{2022}', '*'}

  /** `max(2, ceil(0.6 * pageCount))`, computed as the integer `ceil(3 * pageCount / 5)`. */
  function Threshold(pageCount: nat): (t: nat)
    ensures t >= 2 && 5 * t >= 3 * pageCount
    ensures t > 2 ==> 5 * (t - 1) < 3 * pageCount
  {
    var c := (3 * pageCount + 4) / 5;
    if c < 2 then 2 else c
  }

  /** No two whitespace characters next to each other. */
  ghost predicate NoDoubleSpace(s: string) {
    forall i, j :: 0 <= i < j < |s| && j == i + 1 ==> !(IsSpace(s[i]) && IsSpace(s[j]))
  }

  /** Every character of `s` satisfies `P`. */
  predicate AllChars(s: string, P: char -> bool) {
    forall i :: 0 <= i < |s| ==> P(s[i])
  }

  // ---------------------------------------------------------------------------
  // Lines and edge lines
  // ---------------------------------------------------------------------------

  /** The ASCII line boundaries of `str.splitlines`. */
  predicate IsLineBreak(c: char) {
    c == '\n' || c == '\r' || c == '\U{0B}' || c == '\U{0C}' || ('\U{1C}' <= c <= '\U{1E}')
  }

  /**
   * The pieces between line boundaries. Unlike `str.splitlines`, "\r\n" counts as two
   * boundaries and a trailing boundary leaves an empty last piece; both extra pieces are
   * blank, and `PrepareLines` drops blank pieces, so it sees the same lines.
   */
  function SplitLines(s: string): (lines: seq<string>)
    ensures |lines| >= 1
  {
    if s == [] then [""]
    else
      var rest := SplitLines(s[1..]);
      if IsLineBreak(s[0]) then [""] + rest else [[s[0]] + rest[0]] + rest[1..]
  }

  /** `[line.strip() for line in lines if line and line.strip()]` */
  function StripNonBlank(lines: seq<string>): (r: seq<string>)
    ensures |r| <= |lines|
  {
    if lines == [] then []
    else
      var t := Strip(lines[0]);
      (if t == [] then [] else [t]) + StripNonBlank(lines[1..])
  }

  /** `_prepare_lines`: the stripped non-blank lines of a page. */
  function PrepareLines(raw: string): seq<string> {
    StripNonBlank(SplitLines(raw))
  }

  /** Every prepared line is non-blank and has no whitespace at either end. */
  lemma PrepareLinesShape(raw: string)
    ensures forall i :: 0 <= i < |PrepareLines(raw)| ==>
      PrepareLines(raw)[i] != [] && Stripped(PrepareLines(raw)[i])
  {
    StripNonBlankShape(SplitLines(raw));
  }

  lemma {:induction false} StripNonBlankShape(lines: seq<string>)
    ensures forall i :: 0 <= i < |StripNonBlank(lines)| ==>
      StripNonBlank(lines)[i] != [] && Stripped(StripNonBlank(lines)[i])
  {
    if lines != [] {
      StripNonBlankShape(lines[1..]);
    }
  }

  /** `re.sub(r"\s+", " ", s)`: every maximal whitespace run becomes one space. */
  function CollapseSpaces(s: string): string
    decreases |s|
  {
    if s == [] then []
    else if IsSpace(s[0]) then " " + CollapseSpaces(s[LeadingSpaces(s)..])
    else [s[0]] + CollapseSpaces(s[1..])
  }

  /** After collapsing, the only whitespace is single spaces, and the first character
      is whitespace exactly when it was before. */
  lemma {:induction false} CollapseSpacesShape(s: string)
    ensures var r := CollapseSpaces(s);
      && (|s| > 0 ==> |r| > 0 && (IsSpace(r[0]) <==> IsSpace(s[0])))
      && (forall i :: 0 <= i < |r| ==> r[i] == ' ' || !IsSpace(r[i]))
      && NoDoubleSpace(r)
    decreases |s|
  {
    if s != [] {
      var k := if IsSpace(s[0]) then LeadingSpaces(s) else 1;
      var rest := s[k..];
      CollapseSpacesShape(rest);
      var t := CollapseSpaces(rest);
      var r := CollapseSpaces(s);
      assert r == [if IsSpace(s[0]) then ' ' else s[0]] + t;
      forall i, j | 0 <= i < j < |r| && j == i + 1 ensures !(IsSpace(r[i]) && IsSpace(r[j])) {
        if i > 0 {
          assert r[i] == t[i - 1] && r[j] == t[j - 1];
        } else if IsSpace(s[0]) {
          assert rest[0] == s[k];
        }
      }
    }
  }

  /** `_normalize_edge_line`: whitespace runs collapsed, stripped, lower-cased. */
  function NormalizeEdgeLine(line: string): string {
    Lower(Strip(CollapseSpaces(line)))
  }

  /** The normalised first (header) or last (footer) non-blank line of a page, if any. */
  function EdgeOf(page: string, header: bool): Option<string> {
    var lines := PrepareLines(page);
    if lines == [] then None
    else Some(NormalizeEdgeLine(if header then lines[0] else lines[|lines| - 1]))
  }

  /** The edge of every page, in page order. */
  function Edges(pages: seq<string>, header: bool): (edges: seq<Option<string>>)
    ensures |edges| == |pages|
  {
    seq(|pages|, i requires 0 <= i < |pages| => EdgeOf(pages[i], header))
  }

  /** How many of the edges are `line`. */
  function Count(edges: seq<Option<string>>, line: string): (c: nat)
    ensures c <= |edges|
  {
    if edges == [] then 0
    else Count(edges[..|edges| - 1], line) + (if edges[|edges| - 1] == Some(line) then 1 else 0)
  }

  /** The lines that occur among the edges. */
  function Occurring(edges: seq<Option<string>>): set<string> {
    if edges == [] then {}
    else
      Occurring(edges[..|edges| - 1])
      + (match edges[|edges| - 1] case Some(l) => {l} case None => {})
  }

  /** Lines that are at least `Threshold` of the edges and at most 120 characters long. */
  function Repeated(edges: seq<Option<string>>): set<string> {
    set line | line in Occurring(edges)
      && Count(edges, line) >= Threshold(|edges|)
      && |line| <= HeaderFooterMaxLength
  }

  /** The repeated headers (or footers) that `_detect_repeated_edges` returns. */
  function Detected(pages: seq<string>, header: bool): set<string> {
    Repeated(Edges(pages, header))
  }

  /** The counter holds, for each line among the edges, how many edges it is. */
  ghost predicate CountsAgree(counter: map<string, nat>, edges: seq<Option<string>>) {
    counter.Keys == Occurring(edges)
    && forall line :: line in counter ==> counter[line] == Count(edges, line)
  }

  /** `counter[line] += 1` on a `collections.Counter` for a present edge. */
  function Tally(counter: map<string, nat>, edge: Option<string>): map<string, nat> {
    match edge
    case None => counter
    case Some(line) => counter[line := (if line in counter then counter[line] else 0) + 1]
  }

  /** Counting one more edge keeps the counter in step with `Count`. */
  lemma CountsStep(counter: map<string, nat>, edges: seq<Option<string>>, i: nat)
    requires i < |edges| && CountsAgree(counter, edges[..i])
    ensures CountsAgree(Tally(counter, edges[i]), edges[..i + 1])
  {
    var prefix, extended := edges[..i], edges[..i + 1];
    assert extended[..i] == prefix && extended[i] == edges[i];
    match edges[i]
    case Some(l) =>
      OccurringCount(prefix, l);
    case None =>
  }

  /** `_detect_repeated_edges`: count normalised first and last lines over all pages. */
  method DetectRepeatedEdges(pages: seq<string>) returns (headers: set<string>, footers: set<string>)
    ensures headers == Detected(pages, true) && footers == Detected(pages, false)
  {
    ghost var headerEdges, footerEdges := Edges(pages, true), Edges(pages, false);
    var headerCounter: map<string, nat> := map[];
    var footerCounter: map<string, nat> := map[];
    for i := 0 to |pages|
      invariant CountsAgree(headerCounter, headerEdges[..i])
      invariant CountsAgree(footerCounter, footerEdges[..i])
    {
      CountsStep(headerCounter, headerEdges, i);
      CountsStep(footerCounter, footerEdges, i);
      var lines := PrepareLines(pages[i]);
      if lines != [] {
        var h := NormalizeEdgeLine(lines[0]);
        headerCounter := headerCounter[h := (if h in headerCounter then headerCounter[h] else 0) + 1];
        var f := NormalizeEdgeLine(lines[|lines| - 1]);
        footerCounter := footerCounter[f := (if f in footerCounter then footerCounter[f] else 0) + 1];
      }
    }
    assert headerEdges[..|pages|] == headerEdges && footerEdges[..|pages|] == footerEdges;
    var threshold := Threshold(|pages|);
    headers := set line | line in headerCounter && headerCounter[line] >= threshold
      && |line| <= HeaderFooterMaxLength;
    footers := set line | line in footerCounter && footerCounter[line] >= threshold
      && |line| <= HeaderFooterMaxLength;
  }

  // ---------------------------------------------------------------------------
  // Per-page trimming
  // ---------------------------------------------------------------------------

  /** `while lines and _normalize_edge_line(lines[0]) in headers: lines.pop(0)` */
  function DropHeaders(lines: seq<string>, headers: set<string>): seq<string> {
    if lines != [] && NormalizeEdgeLine(lines[0]) in headers then DropHeaders(lines[1..], headers)
    else lines
  }

  /** Dropping headers removes the longest prefix of lines that normalise to a header. */
  lemma {:induction false} DropHeadersSpec(lines: seq<string>, headers: set<string>)
    ensures var r := DropHeaders(lines, headers);
      && |r| <= |lines| && r == lines[|lines| - |r|..]
      && (forall i :: 0 <= i < |lines| - |r| ==> NormalizeEdgeLine(lines[i]) in headers)
      && (r == [] || NormalizeEdgeLine(r[0]) !in headers)
  {
    if lines != [] && NormalizeEdgeLine(lines[0]) in headers {
      var tail := lines[1..];
      DropHeadersSpec(tail, headers);
      var r := DropHeaders(lines, headers);
      forall i | 0 < i < |lines| - |r| ensures NormalizeEdgeLine(lines[i]) in headers {
        assert lines[i] == tail[i - 1];
      }
      assert tail[|tail| - |r|..] == lines[|lines| - |r|..];
    }
  }

  /** `while lines and _normalize_edge_line(lines[-1]) in footers: lines.pop()` */
  function DropFooters(lines: seq<string>, footers: set<string>): seq<string> {
    if lines != [] && NormalizeEdgeLine(lines[|lines| - 1]) in footers then
      DropFooters(lines[..|lines| - 1], footers)
    else lines
  }

  /** Dropping footers removes the longest suffix of lines that normalise to a footer. */
  lemma {:induction false} DropFootersSpec(lines: seq<string>, footers: set<string>)
    ensures var r := DropFooters(lines, footers);
      && |r| <= |lines| && r == lines[..|r|]
      && (forall i :: |r| <= i < |lines| ==> NormalizeEdgeLine(lines[i]) in footers)
      && (r == [] || NormalizeEdgeLine(r[|r| - 1]) !in footers)
  {
    if lines != [] && NormalizeEdgeLine(lines[|lines| - 1]) in footers {
      var init := lines[..|lines| - 1];
      DropFootersSpec(init, footers);
      var r := DropFooters(lines, footers);
      forall i | |r| <= i < |init| ensures NormalizeEdgeLine(lines[i]) in footers {
        assert lines[i] == init[i];
      }
      assert init[..|r|] == lines[..|r|];
    }
  }

  // ---------------------------------------------------------------------------
  // Line sanitising
  // ---------------------------------------------------------------------------

  predicate IsAsciiLetter(c: char) {
    ('a' <= c <= 'z') || ('A' <= c <= 'Z')
  }

  /**
   * Length of the bullet marker at the start of `s`: `-`, `*`, one of the Unicode bullets,
   * or digits or a single letter followed by `.` or `)`; 0 when there is none.
   */
  function BulletMarkerLength(s: string): (m: nat)
    ensures m <= |s|
  {
    if s == [] then 0
    else if s[0] == '-' || s[0] == '*' then 1
    else if IsDigit(s[0]) then
      var d := LeadingDigits(s);
      if d < |s| && (s[d] == '.' || s[d] == ')') then d + 1 else 0
    else if IsAsciiLetter(s[0]) then
      if |s| >= 2 && (s[1] == '.' || s[1] == ')') then 2 else 0
    else if s[0] in UnicodeBullets then 1
    else 0
  }

  /** `BULLET_PATTERN.sub("", line)`: remove `\s*<marker>\s+` at the start of the line. */
  function StripBullet(line: string): string {
    var t := LStrip(line);
    var m := BulletMarkerLength(t);
    var rest := t[m..];
    if m > 0 && |LStrip(rest)| < |rest| then LStrip(rest) else line
  }

  /** Length of a caption keyword (in any letter case) at the start of `s`; 0 when none. */
  function LabelKeywordLength(s: string): (k: nat)
    ensures k <= |s|
  {
    if StartsWithIgnoreCase(s, "figure") then 6
    else if StartsWithIgnoreCase(s, "table") then 5
    else if StartsWithIgnoreCase(s, "listing") then 7
    else if StartsWithIgnoreCase(s, "appendix") then 8
    else 0
  }

  predicate IsLabelMark(c: char) {
    c == ':' || c == '.' || c == '-'
  }

  /** `LEADING_LABEL_PATTERN.sub("", line)`: remove `\s*<keyword>\s+\d+[:.-]\s*` at the start. */
  function StripLabel(line: string): string {
    var t := LStrip(line);
    var k := LabelKeywordLength(t);
    var s1 := t[k..];
    var s2 := LStrip(s1);
    var d := LeadingDigits(s2);
    if k > 0 && |s2| < |s1| && 0 < d < |s2| && IsLabelMark(s2[d]) then LStrip(s2[d + 1..])
    else line
  }

  /** Tab, line feed, carriage return and printable ASCII: what `NON_ASCII_PATTERN` spares. */
  predicate IsKeptChar(c: char) {
    c == '\t' || c == '\n' || c == '\r' || (' ' <= c <= '~')
  }

  /** `NON_ASCII_PATTERN.sub(" ", line)` */
  function ReplaceNonAscii(s: string): (r: string)
    ensures |r| == |s| && AllChars(r, IsKeptChar)
    ensures forall i :: 0 <= i < |r| ==> r[i] == (if IsKeptChar(s[i]) then s[i] else ' ')
  {
    seq(|s|, i requires 0 <= i < |s| => if IsKeptChar(s[i]) then s[i] else ' ')
  }

  predicate IsPrintable(c: char) {
    ' ' <= c <= '~'
  }

  /** What `_sanitize_line` guarantees of its result. */
  ghost predicate SanitizedShape(s: string) {
    && AllChars(s, IsPrintable)
    && NoDoubleSpace(s)
    && (s == [] || (s[0] !in EdgeMarks && s[|s| - 1] !in EdgeMarks))
  }

  /** `_sanitize_line` */
  function SanitizeLine(line: string): string {
    StripChars(Strip(CollapseSpaces(ReplaceNonAscii(StripLabel(StripBullet(line))))), EdgeMarks)
  }

  /** A sanitised line is printable ASCII, single-spaced, and has no `-•*` at either end. */
  lemma SanitizeLineShape(line: string)
    ensures SanitizedShape(SanitizeLine(line))
  {
    var replaced := ReplaceNonAscii(StripLabel(StripBullet(line)));
    CollapsedShape(replaced);
    StripEdgesShape(CollapseSpaces(replaced));
  }

  /** After collapsing, a line of kept characters holds single spaces and printable ASCII. */
  lemma CollapsedShape(s: string)
    requires AllChars(s, IsKeptChar)
    ensures var c := CollapseSpaces(s);
      AllChars(c, IsPrintable) && NoDoubleSpace(c)
  {
    CollapseSpacesKeeps(s, IsKeptChar);
    CollapseSpacesShape(s);
    var c := CollapseSpaces(s);
    forall i | 0 <= i < |c| ensures IsPrintable(c[i]) {
      assert c[i] == ' ' || (IsKeptChar(c[i]) && !IsSpace(c[i]));
    }
  }

  /** Characters that `P` accepts stay accepted through `CollapseSpaces`, whitespace aside. */
  lemma {:induction false} CollapseSpacesKeeps(s: string, P: char -> bool)
    requires AllChars(s, P)
    ensures forall i :: 0 <= i < |CollapseSpaces(s)| ==>
      CollapseSpaces(s)[i] == ' ' || P(CollapseSpaces(s)[i])
    decreases |s|
  {
    if s != [] {
      var k := if IsSpace(s[0]) then LeadingSpaces(s) else 1;
      var rest := s[k..];
      assert AllChars(rest, P) by {
        forall i | 0 <= i < |rest| ensures P(rest[i]) {
          assert rest[i] == s[k + i];
        }
      }
      CollapseSpacesKeeps(rest, P);
    }
  }

  /** Stripping whitespace and then `-•*` keeps text printable and single-spaced. */
  lemma StripEdgesShape(c: string)
    requires AllChars(c, IsPrintable) && NoDoubleSpace(c)
    ensures SanitizedShape(StripChars(Strip(c), EdgeMarks))
  {
    StripShape(c);
    StripCharsShape(Strip(c));
  }

  /** `strip()` keeps text printable and single-spaced. */
  lemma StripShape(c: string)
    requires AllChars(c, IsPrintable) && NoDoubleSpace(c)
    ensures AllChars(Strip(c), IsPrintable) && NoDoubleSpace(Strip(c))
  {
    StripSlice(c);
    SliceShape(c, LeadingSpaces(c), LeadingSpaces(c) + |Strip(c)|);
  }

  /** `strip("-•*")` keeps text printable and single-spaced. */
  lemma StripCharsShape(s: string)
    requires AllChars(s, IsPrintable) && NoDoubleSpace(s)
    ensures AllChars(StripChars(s, EdgeMarks), IsPrintable) && NoDoubleSpace(StripChars(s, EdgeMarks))
  {
    StripCharsSlice(s, EdgeMarks);
    SliceShape(s, LeadingIn(s, EdgeMarks), LeadingIn(s, EdgeMarks) + |StripChars(s, EdgeMarks)|);
  }

  /** A slice of printable single-spaced text is printable and single-spaced. */
  lemma SliceShape(c: string, lo: nat, hi: nat)
    requires lo <= hi <= |c| && AllChars(c, IsPrintable) && NoDoubleSpace(c)
    ensures AllChars(c[lo..hi], IsPrintable) && NoDoubleSpace(c[lo..hi])
  {
    var r := c[lo..hi];
    forall i, j | 0 <= i < j < |r| && j == i + 1 ensures !(IsSpace(r[i]) && IsSpace(r[j])) {
      assert r[i] == c[lo + i] && r[j] == c[lo + j];
    }
  }

  // ---------------------------------------------------------------------------
  // Noise lines
  // ---------------------------------------------------------------------------

  /** `.*$` matches the rest of the line: no line feed except possibly a final one. */
  predicate RestOfLine(s: string) {
    forall i :: 0 <= i < |s| - 1 ==> s[i] != '\n'
  }

  /** `\s+of\s+\d+\s*$`, ignoring case. */
  predicate IsOfClause(c: string) {
    var e := LStrip(c);
    && |e| < |c|
    && StartsWithIgnoreCase(e, "of")
    && var f := e[2..];
    && var g := LStrip(f);
    && |g| < |f|
    && LeadingDigits(g) > 0
    && AllSpace(g[LeadingDigits(g)..])
  }

  /** `^\s*page\s+\d+(\s+of\s+\d+)?\s*$`, ignoring case. */
  predicate IsPageNumberLine(line: string) {
    var t := LStrip(line);
    && StartsWithIgnoreCase(t, "page")
    && var a := t[4..];
    && var b := LStrip(a);
    && |b| < |a|
    && LeadingDigits(b) > 0
    && var c := b[LeadingDigits(b)..];
    AllSpace(c) || IsOfClause(c)
  }

  /** `^\s*<word>.*$`, ignoring case. */
  predicate StartsWithBanner(line: string, word: string) {
    var t := LStrip(line);
    StartsWithIgnoreCase(t, word) && RestOfLine(t[|word|..])
  }

  /** `^\s*copyright\s+\d{4}.*$`, ignoring case. */
  predicate IsCopyrightLine(line: string) {
    var t := LStrip(line);
    && StartsWithIgnoreCase(t, "copyright")
    && var a := t[9..];
    && var b := LStrip(a);
    && |b| < |a|
    && |b| >= 4 && AllDigits(b[..4]) && RestOfLine(b[4..])
  }

  /** `_is_noise_line` */
  predicate IsNoiseLine(line: string) {
    || line == []
    || |Lower(line)| <= 2
    || IsPageNumberLine(line)
    || StartsWithBanner(line, "confidential")
    || IsCopyrightLine(line)
    || StartsWithBanner(line, "all rights reserved")
  }

  /** The loop of `_clean_page_text` that sanitises lines and keeps the non-noise ones. */
  function CleanLines(lines: seq<string>): (kept: seq<string>)
    ensures |kept| <= |lines|
  {
    if lines == [] then []
    else
      var s := SanitizeLine(lines[|lines| - 1]);
      CleanLines(lines[..|lines| - 1]) + (if s == [] || IsNoiseLine(s) then [] else [s])
  }

  /** What a line that survives `_clean_page_text` looks like. */
  ghost predicate KeptLine(k: string) {
    |k| > 2 && !IsNoiseLine(k) && SanitizedShape(k)
  }

  /** Every kept line is sanitised, longer than two characters and not noise. */
  lemma {:induction false} CleanLinesShape(lines: seq<string>)
    ensures forall i :: 0 <= i < |CleanLines(lines)| ==> KeptLine(CleanLines(lines)[i])
  {
    if lines != [] {
      CleanLinesShape(lines[..|lines| - 1]);
      var s := SanitizeLine(lines[|lines| - 1]);
      SanitizeLineShape(lines[|lines| - 1]);
      assert s != [] && !IsNoiseLine(s) ==> |s| > 2 by {
        assert |Lower(s)| == |s|;
      }
    }
  }

  lemma CleanLinesStep(lines: seq<string>, i: nat)
    requires i < |lines|
    ensures var s := SanitizeLine(lines[i]);
      CleanLines(lines[..i + 1]) == CleanLines(lines[..i]) + (if s == [] || IsNoiseLine(s) then [] else [s])
  {
    assert lines[..i + 1][..i] == lines[..i];
  }

  /** `_clean_page_text` as a function of the page and the detected edges. */
  function CleanPage(rawPage: string, headers: set<string>, footers: set<string>): string {
    var lines := PrepareLines(rawPage);
    if lines == [] then ""
    else Join(CleanLines(DropFooters(DropHeaders(lines, headers), footers)), "\n")
  }

  /** `_clean_page_text`: pop repeated edges, then sanitise and filter the lines. */
  method CleanPageText(rawPage: string, headers: set<string>, footers: set<string>)
    returns (text: string)
    ensures text == CleanPage(rawPage, headers, footers)
  {
    var lines := PrepareLines(rawPage);
    if lines == [] {
      return "";
    }
    ghost var prepared := lines;
    while lines != [] && NormalizeEdgeLine(lines[0]) in headers
      invariant DropHeaders(lines, headers) == DropHeaders(prepared, headers)
      decreases |lines|
    {
      lines := lines[1..];
    }
    ghost var trimmed := lines;
    while lines != [] && NormalizeEdgeLine(lines[|lines| - 1]) in footers
      invariant DropFooters(lines, footers) == DropFooters(trimmed, footers)
      decreases |lines|
    {
      lines := lines[..|lines| - 1];
    }
    var cleaned: seq<string> := [];
    for i := 0 to |lines|
      invariant cleaned == CleanLines(lines[..i])
    {
      CleanLinesStep(lines, i);
      var sanitized := SanitizeLine(lines[i]);
      if sanitized != [] && !IsNoiseLine(sanitized) {
        cleaned := cleaned + [sanitized];
      }
    }
    assert lines[..|lines|] == lines;
    text := Join(cleaned, "\n");
  }

  // ---------------------------------------------------------------------------
  // Whitespace normalisation of the joined document
  // ---------------------------------------------------------------------------

  predicate IsBlank(c: char) {
    c == ' ' || c == '\t'
  }

  function LeadingBlanks(s: string): (k: nat)
    ensures k <= |s| && (forall i :: 0 <= i < k ==> IsBlank(s[i]))
    ensures k < |s| ==> !IsBlank(s[k])
  {
    if s == [] || !IsBlank(s[0]) then 0 else 1 + LeadingBlanks(s[1..])
  }

  /** `re.sub(r"[ \t]+", " ", text)` */
  function CollapseBlanks(s: string): string
    decreases |s|
  {
    if s == [] then []
    else if IsBlank(s[0]) then " " + CollapseBlanks(s[LeadingBlanks(s)..])
    else [s[0]] + CollapseBlanks(s[1..])
  }

  /** No two spaces or tabs next to each other. */
  ghost predicate NoDoubleBlank(r: string) {
    forall i, j :: 0 <= i < j < |r| && j == i + 1 ==> !(IsBlank(r[i]) && IsBlank(r[j]))
  }

  /** After `[ \t]+` collapsing there is no tab and no two blanks in a row. */
  lemma {:induction false} CollapseBlanksShape(s: string)
    ensures var r := CollapseBlanks(s);
      && NoDoubleBlank(r)
      && (forall i :: 0 <= i < |r| ==> r[i] != '\t')
      && (|s| > 0 ==> |r| > 0 && (IsBlank(r[0]) <==> IsBlank(s[0])))
    decreases |s|
  {
    if s != [] {
      var k := if IsBlank(s[0]) then LeadingBlanks(s) else 1;
      var rest := s[k..];
      CollapseBlanksShape(rest);
      var t := CollapseBlanks(rest);
      var r := CollapseBlanks(s);
      assert r == [if IsBlank(s[0]) then ' ' else s[0]] + t;
      forall i, j | 0 <= i < j < |r| && j == i + 1 ensures !(IsBlank(r[i]) && IsBlank(r[j])) {
        if i > 0 {
          assert r[i] == t[i - 1] && r[j] == t[j - 1];
        } else if IsBlank(s[0]) {
          assert rest[0] == s[k];
        }
      }
    }
  }

  /** Every line feed has a non-whitespace character, or the end of the text, on each side. */
  ghost predicate NewlinesIsolated(r: string) {
    forall i, j :: 0 <= i < j < |r| && j == i + 1 ==>
      (r[i] == '\n' ==> !IsSpace(r[j])) && (r[j] == '\n' ==> !IsSpace(r[i]))
  }

  /** `re.sub(r"\s*\n\s*", "\n", text)`: a whitespace run holding a line feed becomes one line feed. */
  function CollapseNewlineRuns(s: string): string
    decreases |s|
  {
    if s == [] then []
    else if IsSpace(s[0]) then
      var k := LeadingSpaces(s);
      (if '\n' in s[..k] then "\n" else s[..k]) + CollapseNewlineRuns(s[k..])
    else [s[0]] + CollapseNewlineRuns(s[1..])
  }

  /** After `\s*\n\s*` collapsing every line feed stands between non-whitespace characters. */
  lemma {:induction false} CollapseNewlineRunsShape(s: string)
    ensures var r := CollapseNewlineRuns(s);
      && (|s| > 0 && !IsSpace(s[0]) ==> |r| > 0 && r[0] == s[0])
      && NewlinesIsolated(r)
    decreases |s|
  {
    if s != [] {
      if IsSpace(s[0]) {
        var k := LeadingSpaces(s);
        CollapseNewlineRunsShape(s[k..]);
        IsolatedAfterRun(s, k, CollapseNewlineRuns(s[k..]));
      } else {
        CollapseNewlineRunsShape(s[1..]);
        IsolatedAfterChar(s[0], CollapseNewlineRuns(s[1..]));
      }
    }
  }

  lemma IsolatedAfterRun(s: string, k: nat, rest: string)
    requires 0 < k <= |s| && AllSpace(s[..k]) && (k < |s| ==> !IsSpace(s[k]))
    requires k < |s| ==> |rest| > 0 && rest[0] == s[k]
    requires k == |s| ==> rest == []
    requires NewlinesIsolated(rest)
    ensures NewlinesIsolated((if '\n' in s[..k] then "\n" else s[..k]) + rest)
  {
    var piece := if '\n' in s[..k] then "\n" else s[..k];
    var r := piece + rest;
    forall i, j | 0 <= i < j < |r| && j == i + 1
      ensures (r[i] == '\n' ==> !IsSpace(r[j])) && (r[j] == '\n' ==> !IsSpace(r[i]))
    {
      if j < |piece| {
        assert r[i] == s[..k][i] && r[j] == s[..k][j];
      } else if j == |piece| {
        assert r[j] == rest[0] == s[k];
      } else {
        assert r[i] == rest[i - |piece|] && r[j] == rest[j - |piece|];
      }
    }
  }

  lemma IsolatedAfterChar(c: char, rest: string)
    requires !IsSpace(c) && NewlinesIsolated(rest)
    ensures NewlinesIsolated([c] + rest)
  {
    var r := [c] + rest;
    forall i, j | 0 <= i < j < |r| && j == i + 1
      ensures (r[i] == '\n' ==> !IsSpace(r[j])) && (r[j] == '\n' ==> !IsSpace(r[i]))
    {
      if i > 0 {
        assert r[i] == rest[i - 1] && r[j] == rest[j - 1];
      }
    }
  }

  function LeadingNewlines(s: string): (k: nat)
    ensures k <= |s| && (forall i :: 0 <= i < k ==> s[i] == '\n')
    ensures k < |s| ==> s[k] != '\n'
  {
    if s == [] || s[0] != '\n' then 0 else 1 + LeadingNewlines(s[1..])
  }

  /** `re.sub(r"\n{3,}", "\n\n", text)` */
  function CapNewlineRuns(s: string): string
    decreases |s|
  {
    if s == [] then []
    else if s[0] == '\n' then
      var k := LeadingNewlines(s);
      (if k >= 3 then "\n\n" else s[..k]) + CapNewlineRuns(s[k..])
    else [s[0]] + CapNewlineRuns(s[1..])
  }

  /** `_normalize_whitespace` */
  function NormalizeWhitespace(text: string): string {
    Strip(CapNewlineRuns(CollapseNewlineRuns(CollapseBlanks(text))))
  }

  /** Normalised text is stripped, every line feed stands between non-whitespace
      characters, and so there is no blank line. */
  lemma NormalizeWhitespaceShape(text: string)
    ensures var r := NormalizeWhitespace(text);
      Stripped(r) && NewlinesIsolated(r) && NoDoubleNewline(r)
  {
    var blanks := CollapseBlanks(text);
    var collapsed := CollapseNewlineRuns(blanks);
    CollapseNewlineRunsShape(blanks);
    CapAfterCollapse(blanks);
    assert NormalizeWhitespace(text) == Strip(collapsed);
    StripKeepsIsolated(collapsed);
    IsolatedNoDoubleNewline(Strip(collapsed));
  }

  /** Stripping keeps every line feed isolated. */
  lemma StripKeepsIsolated(s: string)
    requires NewlinesIsolated(s)
    ensures NewlinesIsolated(Strip(s))
  {
    StripSlice(s);
    IsolatedSlice(s, LeadingSpaces(s), LeadingSpaces(s) + |Strip(s)|);
  }

  /** No two line feeds next to each other: no blank line. */
  ghost predicate NoDoubleNewline(s: string) {
    forall i, j :: 0 <= i < j < |s| && j == i + 1 ==> !(s[i] == '\n' && s[j] == '\n')
  }

  lemma IsolatedNoDoubleNewline(s: string)
    requires NewlinesIsolated(s)
    ensures NoDoubleNewline(s)
  {
  }

  /** The `\n{3,}` rule never fires on text without two consecutive line feeds. */
  lemma {:induction false} CapNewlineRunsIdentity(s: string)
    requires NoDoubleNewline(s)
    ensures CapNewlineRuns(s) == s
    decreases |s|
  {
    if s != [] {
      var t := s[1..];
      assert NoDoubleNewline(t) by {
        forall i, j | 0 <= i < j < |t| && j == i + 1 ensures !(t[i] == '\n' && t[j] == '\n') {
          assert t[i] == s[i + 1] && t[j] == s[j + 1];
        }
      }
      CapNewlineRunsIdentity(t);
      if s[0] == '\n' {
        assert t == [] || t[0] != '\n';
        assert LeadingNewlines(t) == 0;
        assert LeadingNewlines(s) == 1;
        assert s[..1] + t == s;
      } else {
        assert [s[0]] + t == s;
      }
    }
  }

  lemma IsolatedSlice(s: string, a: nat, b: nat)
    requires a <= b <= |s| && NewlinesIsolated(s)
    ensures NewlinesIsolated(s[a..b])
  {
    var r := s[a..b];
    forall i, j | 0 <= i < j < |r| && j == i + 1
      ensures (r[i] == '\n' ==> !IsSpace(r[j])) && (r[j] == '\n' ==> !IsSpace(r[i]))
    {
      assert r[i] == s[a + i] && r[j] == s[a + j];
    }
  }

  // ---------------------------------------------------------------------------
  // The document
  // ---------------------------------------------------------------------------

  /** `_clean_page_text` with the detected headers and footers fixed. */
  function PageCleaner(headers: set<string>, footers: set<string>): string -> string {
    page => CleanPage(page, headers, footers)
  }

  /** `[page for page in cleaned_pages if page]` */
  function NonEmptyPages(pages: seq<string>): (r: seq<string>)
    ensures |r| <= |pages|
  {
    if pages == [] then []
    else
      var last := pages[|pages| - 1];
      NonEmptyPages(pages[..|pages| - 1]) + (if last == [] then [] else [last])
  }

  /** The kept pages are non-empty, and none is kept exactly when every page is empty. */
  lemma {:induction false} NonEmptyPagesSpec(pages: seq<string>)
    ensures var r := NonEmptyPages(pages);
      && (forall i :: 0 <= i < |r| ==> r[i] != [])
      && (r == [] <==> forall i :: 0 <= i < |pages| ==> pages[i] == [])
  {
    if pages != [] {
      var init, last := pages[..|pages| - 1], pages[|pages| - 1];
      NonEmptyPagesSpec(init);
      var prefix, r := NonEmptyPages(init), NonEmptyPages(pages);
      assert r == prefix + (if last == [] then [] else [last]);
      forall i | 0 <= i < |r| ensures r[i] != [] {
        if i < |prefix| {
          assert r[i] == prefix[i];
        }
      }
      if forall i :: 0 <= i < |pages| ==> pages[i] == [] {
        assert forall i :: 0 <= i < |init| ==> init[i] == pages[i] == [];
      }
    }
  }

  /** `_clean_document_text` as a function of the pages. */
  function CleanDocument(pages: seq<string>): string {
    if pages == [] then ""
    else
      var cleaned := NonEmptyPages(Map(PageCleaner(Detected(pages, true), Detected(pages, false)), pages));
      if cleaned == [] then "" else NormalizeWhitespace(Join(cleaned, "\n\n"))
  }

  /** `[_clean_page_text(page, headers, footers) for page in pages]` */
  method CleanEachPage(pages: seq<string>, headers: set<string>, footers: set<string>)
    returns (cleanedPages: seq<string>)
    ensures cleanedPages == Map(PageCleaner(headers, footers), pages)
  {
    cleanedPages := [];
    for i := 0 to |pages|
      invariant cleanedPages == Map(PageCleaner(headers, footers), pages[..i])
    {
      var page := CleanPageText(pages[i], headers, footers);
      MapStep(PageCleaner(headers, footers), pages, i);
      cleanedPages := cleanedPages + [page];
    }
    assert pages[..|pages|] == pages;
  }

  /** `_clean_document_text` */
  method CleanDocumentText(pages: seq<string>) returns (text: string)
    ensures text == CleanDocument(pages)
  {
    if pages == [] {
      return "";
    }
    var headers, footers := DetectRepeatedEdges(pages);
    var cleanedPages := CleanEachPage(pages, headers, footers);
    cleanedPages := NonEmptyPages(cleanedPages);
    if cleanedPages == [] {
      return "";
    }
    text := NormalizeWhitespace(Join(cleanedPages, "\n\n"));
  }

  // ---------------------------------------------------------------------------
  // Properties
  // ---------------------------------------------------------------------------

  /** A line occurs among the edges exactly when its count is positive. */
  lemma {:induction false} OccurringCount(edges: seq<Option<string>>, line: string)
    ensures line in Occurring(edges) <==> Count(edges, line) > 0
  {
    if edges != [] {
      OccurringCount(edges[..|edges| - 1], line);
    }
  }

  /** A line is a detected header (footer) iff it heads (ends) at least `Threshold` pages and is short. */
  lemma DetectedIff(pages: seq<string>, header: bool, line: string)
    ensures line in Detected(pages, header) <==>
      Count(Edges(pages, header), line) >= Threshold(|pages|) && |line| <= HeaderFooterMaxLength
  {
    OccurringCount(Edges(pages, header), line);
  }

  /** A one-page document has no detected header or footer. */
  lemma OnePageHasNoEdges(pages: seq<string>, header: bool)
    requires |pages| <= 1
    ensures Detected(pages, header) == {}
  {
  }

  /** A short line that is the first (last) line of every page of a document of two or more
      pages is a detected header (footer). */
  lemma SharedEdgeDetected(pages: seq<string>, header: bool, line: string)
    requires |pages| >= 2 && |line| <= HeaderFooterMaxLength
    requires forall i :: 0 <= i < |pages| ==> EdgeOf(pages[i], header) == Some(line)
    ensures line in Detected(pages, header)
  {
    var edges := Edges(pages, header);
    CountAll(edges, line);
    DetectedIff(pages, header, line);
  }

  lemma {:induction false} CountAll(edges: seq<Option<string>>, line: string)
    requires forall i :: 0 <= i < |edges| ==> edges[i] == Some(line)
    ensures Count(edges, line) == |edges|
  {
    if edges != [] {
      CountAll(edges[..|edges| - 1], line);
    }
  }

  /** After trimming, the first line left is not a header and the last line left is not a footer. */
  lemma TrimmedEdges(lines: seq<string>, headers: set<string>, footers: set<string>)
    ensures var r := DropFooters(DropHeaders(lines, headers), footers);
      r == [] || (NormalizeEdgeLine(r[0]) !in headers && NormalizeEdgeLine(r[|r| - 1]) !in footers)
  {
    var h := DropHeaders(lines, headers);
    var r := DropFooters(h, footers);
    DropHeadersSpec(lines, headers);
    DropFootersSpec(h, footers);
    if r != [] {
      assert r[0] == h[0];
    }
  }

  /** A bullet marker of `BULLET_PATTERN`. */
  predicate IsBulletMarker(m: string) {
    || (|m| == 1 && (m[0] == '-' || m[0] == '*' || m[0] in UnicodeBullets))
    || (|m| >= 2 && AllDigits(m[..|m| - 1]) && (m[|m| - 1] == '.' || m[|m| - 1] == ')'))
    || (|m| == 2 && IsAsciiLetter(m[0]) && (m[1] == '.' || m[1] == ')'))
  }

  /** A leading bullet followed by whitespace is removed together with that whitespace. */
  lemma BulletRemoved(pre: string, marker: string, gap: string, rest: string)
    requires AllSpace(pre) && IsBulletMarker(marker)
    requires gap != [] && AllSpace(gap)
    requires rest == [] || !IsSpace(rest[0])
    ensures StripBullet(pre + marker + gap + rest) == rest
  {
    var tail := gap + rest;
    var t := marker + tail;
    var line := pre + t;
    assert pre + marker + gap + rest == line;
    assert LStrip(line) == t by {
      assert !IsSpace(t[0]);
      LStripConcat(pre, t);
    }
    assert BulletMarkerLength(t) == |marker| by {
      MarkerLength(marker, tail);
    }
    assert t[|marker|..] == tail;
    assert LStrip(tail) == rest by {
      LStripConcat(gap, rest);
    }
  }

  /** `BulletMarkerLength` measures a whole marker that whitespace follows. */
  lemma MarkerLength(marker: string, tail: string)
    requires IsBulletMarker(marker) && tail != [] && IsSpace(tail[0])
    ensures BulletMarkerLength(marker + tail) == |marker|
  {
    var s := marker + tail;
    if |marker| >= 2 && AllDigits(marker[..|marker| - 1]) {
      var ds := marker[..|marker| - 1];
      var t := [marker[|marker| - 1]] + tail;
      assert s == ds + t;
      LeadingDigitsConcat(ds, t);
    }
  }

  /** A leading caption label such as `Figure 3:` or `TABLE 12.` is removed with the spaces after it. */
  lemma LabelRemoved(pre: string, keyword: string, gap: string, digits: string, mark: char,
                     gap2: string, rest: string)
    requires AllSpace(pre)
    requires Lower(keyword) == "figure" || Lower(keyword) == "table"
      || Lower(keyword) == "listing" || Lower(keyword) == "appendix"
    requires gap != [] && AllSpace(gap) && digits != [] && AllDigits(digits)
    requires IsLabelMark(mark)
    requires AllSpace(gap2) && (rest == [] || !IsSpace(rest[0]))
    ensures StripLabel(pre + keyword + gap + digits + [mark] + gap2 + rest) == rest
  {
    var s1 := gap + (digits + ([mark] + (gap2 + rest)));
    var line := pre + (keyword + s1);
    assert pre + keyword + gap + digits + [mark] + gap2 + rest == line;
    LabelKeyword(pre, keyword, s1);
    LabelNumber(gap, digits, mark, gap2, rest);
    var t := LStrip(line);
    var s2 := LStrip(t[|keyword|..]);
    StripLabelCut(line, |keyword|, s2, |digits|);
  }

  /** `\s*<keyword>` at the start of a line. */
  lemma LabelKeyword(pre: string, keyword: string, s1: string)
    requires AllSpace(pre)
    requires Lower(keyword) == "figure" || Lower(keyword) == "table"
      || Lower(keyword) == "listing" || Lower(keyword) == "appendix"
    ensures var t := keyword + s1;
      LStrip(pre + t) == t && LabelKeywordLength(t) == |keyword| && t[|keyword|..] == s1
  {
    var t := keyword + s1;
    assert !IsSpace(t[0]) by {
      assert LowerChar(t[0]) == Lower(keyword)[0];
    }
    LStripConcat(pre, t);
    KeywordLength(keyword, s1);
  }

  /** `StripLabel` keeps what follows the keyword, number, mark and spaces. */
  lemma StripLabelCut(line: string, k: nat, s2: string, d: nat)
    requires k == LabelKeywordLength(LStrip(line)) && k > 0
    requires s2 == LStrip(LStrip(line)[k..]) && |s2| < |LStrip(line)[k..]|
    requires d == LeadingDigits(s2) && 0 < d < |s2| && IsLabelMark(s2[d])
    ensures StripLabel(line) == LStrip(s2[d + 1..])
  {
  }

  /** `\s+\d+[:.-]\s*` at the start of the text after the keyword. */
  lemma LabelNumber(gap: string, digits: string, mark: char, gap2: string, rest: string)
    requires gap != [] && AllSpace(gap) && digits != [] && AllDigits(digits)
    requires IsLabelMark(mark)
    requires AllSpace(gap2) && (rest == [] || !IsSpace(rest[0]))
    ensures var s1 := gap + (digits + ([mark] + (gap2 + rest)));
      var s2 := LStrip(s1);
      && |s2| < |s1| && LeadingDigits(s2) == |digits| < |s2|
      && s2[|digits|] == mark && LStrip(s2[|digits| + 1..]) == rest
  {
    var s3 := gap2 + rest;
    var s2 := digits + ([mark] + s3);
    assert LStrip(gap + s2) == s2 by {
      LStripConcat(gap, s2);
    }
    assert LeadingDigits(s2) == |digits| && s2[|digits|] == mark && s2[|digits| + 1..] == s3 by {
      LeadingDigitsConcat(digits, [mark] + s3);
    }
    assert LStrip(s3) == rest by {
      LStripConcat(gap2, rest);
    }
  }

  lemma KeywordLength(keyword: string, s: string)
    requires Lower(keyword) == "figure" || Lower(keyword) == "table"
      || Lower(keyword) == "listing" || Lower(keyword) == "appendix"
    ensures LabelKeywordLength(keyword + s) == |keyword|
  {
    var t := keyword + s;
    assert t[..|keyword|] == keyword;
    var first := LowerChar(keyword[0]);
    assert first == Lower(keyword)[0];
    assert forall n :: 1 <= n <= |t| ==> Lower(t[..n])[0] == first;
  }

  /** `Page N of M`, with the word `page` in any letter case, is a noise line. */
  lemma PageOfLineIsNoise(page: string, n: nat, m: nat)
    requires Lower(page) == "page"
    ensures IsNoiseLine(page + " " + NatToString(n) + " of " + NatToString(m))
  {
    PageLine(page, NatToString(n), NatToString(m));
  }

  lemma PageLine(page: string, dn: string, dm: string)
    requires Lower(page) == "page"
    requires dn != [] && AllDigits(dn) && dm != [] && AllDigits(dm)
    ensures IsPageNumberLine(page + " " + dn + " of " + dm)
  {
    var c := " of " + dm;
    var b := dn + c;
    var line := page + (" " + b);
    assert page + " " + dn + " of " + dm == line;
    assert LStrip(line) == line by {
      assert LowerChar(line[0]) == 'p';
    }
    assert StartsWithIgnoreCase(line, "page") && line[4..] == " " + b by {
      assert line[..4] == page;
    }
    assert LStrip(" " + b) == b by {
      LStripConcat(" ", b);
    }
    assert LeadingDigits(b) == |dn| && b[|dn|..] == c by {
      LeadingDigitsConcat(dn, c);
    }
    OfClause(dm);
  }

  /** ` of <digits>` is the optional clause of a page-number line. */
  lemma OfClause(dm: string)
    requires dm != [] && AllDigits(dm)
    ensures IsOfClause(" of " + dm)
  {
    var c := " of " + dm;
    var e := "of " + dm;
    assert LStrip(c) == e by {
      assert c == " " + e;
      LStripConcat(" ", e);
    }
    assert e[..2] == "of" && e[2..] == " " + dm;
    assert LStrip(" " + dm) == dm by {
      LStripConcat(" ", dm);
    }
    assert LeadingDigits(dm) == |dm| by {
      LeadingDigitsConcat(dm, []);
      assert dm + [] == dm;
    }
  }

  /**
   * `Page 1 content line` of the two-page example survives the line loop of
   * `_clean_page_text` unchanged.
   */
  lemma ContentLineKept()
    ensures CleanLines(["Page 1 content line"]) == ["Page 1 content line"]
  {
    ContentLineNotNoise();
    ContentLineSanitized();
    assert ["Page 1 content line"][..0] == [];
  }

  /** `Page 1 content line` of the two-page example is not a noise line. */
  lemma ContentLineNotNoise()
    ensures !IsNoiseLine("Page 1 content line")
  {
    var line := "Page 1 content line";
    assert line == "Page" + " " + "1" + " content line";
    StartsWithP(line);
    PageOneNotPageNumber(" content line");
  }

  /** Sanitising leaves `Page 1 content line` of the two-page example as it is. */
  lemma ContentLineSanitized()
    ensures SanitizeLine("Page 1 content line") == "Page 1 content line"
  {
    ContentLinePlain();
    PlainLineSanitized("Page 1 content line");
  }

  lemma ContentLinePlain()
    ensures PlainLine("Page 1 content line")
  {
    ContentLineNoMarker();
    ContentLineSingleSpaced();
  }

  lemma ContentLineNoMarker()
    ensures BulletMarkerLength("Page 1 content line") == 0
    ensures LabelKeywordLength("Page 1 content line") == 0
  {
    StartsWithP("Page 1 content line");
  }

  lemma ContentLineSingleSpaced()
    ensures AllChars("Page 1 content line", IsPrintable) && SingleSpaced("Page 1 content line")
  {
  }

  /** A line starting with `P` matches no banner and no caption keyword. */
  lemma StartsWithP(line: string)
    requires line != [] && line[0] == 'P'
    ensures LStrip(line) == line
    ensures forall k :: 1 <= k <= |line| ==> Lower(line[..k])[0] == 'p'
  {
  }

  /** `page 1` followed by text that is not ` of <digits>` is not a page-number line. */
  lemma PageOneNotPageNumber(rest: string)
    requires |rest| >= 2 && rest[0] == ' ' && !IsSpace(rest[1]) && rest[1] != 'o' && rest[1] != 'O'
    ensures !IsPageNumberLine("Page" + " " + "1" + rest)
  {
    var line := "Page" + " " + "1" + rest;
    assert LStrip(line) == line;
    assert line[4..] == " " + ("1" + rest);
    assert LStrip(" " + ("1" + rest)) == "1" + rest by {
      LStripConcat(" ", "1" + rest);
    }
    assert LeadingDigits("1" + rest) == 1 && ("1" + rest)[1..] == rest by {
      LeadingDigitsConcat("1", rest);
    }
    assert LStrip(rest) == rest[1..] by {
      LStripConcat(" ", rest[1..]);
      assert " " + rest[1..] == rest;
    }
    assert !AllSpace(rest);
  }

  /** The only whitespace is single spaces, each followed by something else. */
  ghost predicate SingleSpaced(s: string) {
    forall i :: 0 <= i < |s| && IsSpace(s[i]) ==> s[i] == ' ' && (i + 1 < |s| ==> !IsSpace(s[i + 1]))
  }

  /**
   * A line of printable ASCII with single inner spaces, no bullet, no caption label and no
   * `-•*` or whitespace at either end.
   */
  ghost predicate PlainLine(line: string) {
    && line != [] && !IsSpace(line[0]) && !IsSpace(line[|line| - 1])
    && line[0] !in EdgeMarks && line[|line| - 1] !in EdgeMarks
    && BulletMarkerLength(line) == 0 && LabelKeywordLength(line) == 0
    && AllChars(line, IsPrintable) && SingleSpaced(line)
  }

  /** A plain line is its own sanitised form. */
  lemma PlainLineSanitized(line: string)
    requires PlainLine(line)
    ensures SanitizeLine(line) == line
  {
    assert StripLabel(StripBullet(line)) == line;
    assert ReplaceNonAscii(line) == line;
    CollapseSpacesIdentity(line);
  }

  /** Text whose only whitespace is single spaces between other characters is unchanged by `\s+` collapsing. */
  lemma {:induction false} CollapseSpacesIdentity(s: string)
    requires SingleSpaced(s)
    ensures CollapseSpaces(s) == s
    decreases |s|
  {
    if s != [] {
      var t := s[1..];
      assert forall i :: 0 <= i < |t| ==> t[i] == s[i + 1];
      CollapseSpacesIdentity(t);
      if IsSpace(s[0]) {
        assert LeadingSpaces(s) == 1;
      }
    }
  }

  predicate IsDocChar(c: char) {
    IsPrintable(c) || c == '\n'
  }

  /** A cleaned page holds printable ASCII and line feeds only. */
  lemma CleanPageChars(rawPage: string, headers: set<string>, footers: set<string>)
    ensures AllChars(CleanPage(rawPage, headers, footers), IsDocChar)
  {
    var lines := PrepareLines(rawPage);
    if lines != [] {
      var kept := CleanLines(DropFooters(DropHeaders(lines, headers), footers));
      CleanLinesShape(DropFooters(DropHeaders(lines, headers), footers));
      forall i, j | 0 <= i < |kept| && 0 <= j < |kept[i]| ensures IsDocChar(kept[i][j]) {
        assert KeptLine(kept[i]);
      }
      JoinChars(kept, "\n", IsDocChar);
    }
  }

  /** Pages that all satisfy a property still do after the empty ones are dropped. */
  lemma {:induction false} NonEmptyPagesKeep(pages: seq<string>, P: string -> bool)
    requires forall i :: 0 <= i < |pages| ==> P(pages[i])
    ensures forall i :: 0 <= i < |NonEmptyPages(pages)| ==> P(NonEmptyPages(pages)[i])
  {
    if pages != [] {
      NonEmptyPagesKeep(pages[..|pages| - 1], P);
    }
  }

  /** Characters that `P` accepts stay accepted through the whitespace rules, given
      that `P` accepts a space and a line feed. */
  lemma NormalizeWhitespaceKeeps(text: string, P: char -> bool)
    requires AllChars(text, P) && P(' ') && P('\n')
    ensures AllChars(NormalizeWhitespace(text), P)
  {
    var blanks := CollapseBlanks(text);
    CollapseBlanksKeeps(text, P);
    CollapseNewlineRunsKeeps(blanks, P);
    CapAfterCollapse(blanks);
    StripKeeps(CollapseNewlineRuns(blanks), P);
  }

  /** After `\s*\n\s*` collapsing, the `\n{3,}` rule changes nothing. */
  lemma CapAfterCollapse(s: string)
    ensures CapNewlineRuns(CollapseNewlineRuns(s)) == CollapseNewlineRuns(s)
  {
    CollapseNewlineRunsShape(s);
    IsolatedNoDoubleNewline(CollapseNewlineRuns(s));
    CapNewlineRunsIdentity(CollapseNewlineRuns(s));
  }

  lemma StripKeeps(s: string, P: char -> bool)
    requires AllChars(s, P)
    ensures AllChars(Strip(s), P)
  {
    StripSlice(s);
    var a, r := LeadingSpaces(s), Strip(s);
    assert forall i :: 0 <= i < |r| ==> r[i] == s[a + i];
  }

  lemma {:induction false} CollapseBlanksKeeps(s: string, P: char -> bool)
    requires AllChars(s, P) && P(' ')
    ensures AllChars(CollapseBlanks(s), P)
    decreases |s|
  {
    if s != [] {
      var k := if IsBlank(s[0]) then LeadingBlanks(s) else 1;
      var rest := s[k..];
      assert AllChars(rest, P) by {
        forall i | 0 <= i < |rest| ensures P(rest[i]) {
          assert rest[i] == s[k + i];
        }
      }
      CollapseBlanksKeeps(rest, P);
    }
  }

  lemma {:induction false} CollapseNewlineRunsKeeps(s: string, P: char -> bool)
    requires AllChars(s, P) && P('\n')
    ensures AllChars(CollapseNewlineRuns(s), P)
    decreases |s|
  {
    if s != [] {
      var k := if IsSpace(s[0]) then LeadingSpaces(s) else 1;
      var rest := s[k..];
      assert AllChars(rest, P) by {
        forall i | 0 <= i < |rest| ensures P(rest[i]) {
          assert rest[i] == s[k + i];
        }
      }
      CollapseNewlineRunsKeeps(rest, P);
      assert AllChars(s[..k], P) by {
        forall i | 0 <= i < k ensures P(s[..k][i]) {
          assert s[..k][i] == s[i];
        }
      }
    }
  }

  /** The cleaned document: printable ASCII and line feeds only, stripped, no blank lines,
      and no whitespace next to a line feed. */
  lemma CleanDocumentShape(pages: seq<string>)
    ensures var d := CleanDocument(pages);
      Stripped(d) && AllChars(d, IsDocChar) && NewlinesIsolated(d) && NoDoubleNewline(d)
  {
    if pages != [] {
      var headers, footers := Detected(pages, true), Detected(pages, false);
      var all := Map(PageCleaner(headers, footers), pages);
      MapAt(PageCleaner(headers, footers), pages);
      forall i | 0 <= i < |all| ensures AllChars(all[i], IsDocChar) {
        CleanPageChars(pages[i], headers, footers);
      }
      var cleaned := NonEmptyPages(all);
      NonEmptyPagesKeep(all, s => AllChars(s, IsDocChar));
      if cleaned != [] {
        JoinChars(cleaned, "\n\n", IsDocChar);
        NormalizeWhitespaceKeeps(Join(cleaned, "\n\n"), IsDocChar);
        NormalizeWhitespaceShape(Join(cleaned, "\n\n"));
      }
    }
  }

  /** A document whose pages all clean to nothing is empty. */
  lemma EmptyDocument(pages: seq<string>)
    requires forall i :: 0 <= i < |pages| ==>
      CleanPage(pages[i], Detected(pages, true), Detected(pages, false)) == []
    ensures CleanDocument(pages) == ""
  {
    var clean := PageCleaner(Detected(pages, true), Detected(pages, false));
    MapAt(clean, pages);
    NonEmptyPagesSpec(Map(clean, pages));
  }
}
