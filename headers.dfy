/** `validate_headers`: ATX headings (`#` to `######`), their spacing, emptiness, level
    skips and closing hashes. */
module Headers {
  import opened Text
  import opened Wrappers
  import opened Issues

  /** The heading regex `^(#{1,6})\s*(.*)$` matches exactly the lines that start with `#`. */
  predicate IsHeading(line: string) {
    StartsWith(line, "#")
  }

  /** Group 1's length: the leading hashes, at most six of them. */
  function Level(line: string): (r: nat)
    requires IsHeading(line)
    ensures 1 <= r <= 6 && r <= |line|
  {
    var k := LeadingRun(line, '#');
    if k < 6 then k else 6
  }

  /** Group 1: the hashes. */
  function Hashes(line: string): string
    requires IsHeading(line)
  {
    line[..Level(line)]
  }

  /** Group 2: the rest of the line once `\s*` has taken the whitespace after the hashes. */
  function Rest(line: string): string
    requires IsHeading(line)
  {
    LStrip(line[Level(line)..])
  }

  /** The heading's text: group 2, stripped. */
  function HeadingText(line: string): string
    requires IsHeading(line)
  {
    Strip(Rest(line))
  }

  /** What the match means: a line is hashes (one to six, as many as there are when
      fewer than six), then whitespace, then group 2, which does not start with whitespace. */
  lemma HeadingRegex(line: string)
    requires IsHeading(line)
    ensures var L := Level(line);
            && (forall i :: 0 <= i < L ==> Hashes(line)[i] == '#')
            && (L < 6 ==> !StartsWith(line[L..], "#"))
            && line == Hashes(line) + line[L..|line| - |Rest(line)|] + Rest(line)
            && IsBlank(line[L..|line| - |Rest(line)|])
            && (Rest(line) == [] || !IsSpace(Rest(line)[0]))
  {
    var L := Level(line);
    var after := line[L..];
    var rest := Rest(line);
    LeadingRunSkips(line, '#');
    SkipSpaceSkips(after, 0);
    assert after[..|after| - |rest|] == line[L..|line| - |rest|];
    assert after[|after| - |rest|..] == rest;
  }

  /** The suggested fix for a missing space: the hashes, one space, the text. */
  function FormatFix(line: string): string
    requires IsHeading(line)
  {
    Hashes(line) + " " + HeadingText(line)
  }

  /** The suggested fix for a skipped level: one level below the previous heading. */
  function HierarchyFix(line: string, prev: nat): string
    requires IsHeading(line)
  {
    Repeat('#', prev + 1) + " " + HeadingText(line)
  }

  /** The suggested fix for closing hashes: the text without them. */
  function TrailingFix(line: string): string
    requires IsHeading(line)
  {
    Hashes(line) + " " + RStrip(RStripChar(HeadingText(line), '#'))
  }

  /** The heading has text: something other than whitespace follows the hashes. */
  lemma HasTextIff(line: string)
    requires IsHeading(line)
    ensures HeadingText(line) != [] <==> !IsBlank(line[Level(line)..])
  {
    StripEmpty(Rest(line));
    LStripBlank(line[Level(line)..]);
  }

  /** The heading's text ends with `#` exactly when the heading has text and the line,
      without its trailing whitespace, ends with `#`. */
  lemma TextEndsIff(line: string)
    requires IsHeading(line)
    ensures EndsWithChar(HeadingText(line), '#') <==>
              !IsBlank(line[Level(line)..]) && EndsWithChar(RStrip(line), '#')
  {
    HasTextIff(line);
    var L := Level(line);
    var after := line[L..];
    var k := SkipSpace(after, 0);
    var rest := after[k..];
    assert rest == Rest(line);
    assert rest != [] ==> rest[0] == after[k];
    assert LStrip(rest) == rest;
    if !IsBlank(after) {
      StripEmpty(rest);
      assert rest == line[L + k..];
      SplitAt(line, L + k);
      RStripConcat(line[..L + k], rest);
      var t := RStrip(rest);
      assert HeadingText(line) == t && t != [];
      EndsWithCharConcat(line[..L + k], t, '#');
    }
  }

  /** header_format: the character after the hashes is not a space and there is text. */
  function FormatPart(n: nat, line: string): (r: seq<Issue>)
    requires IsHeading(line)
    ensures AtMostOne(r, n, line, HeaderFormat)
    ensures r != [] <==> !IsBlank(line[Level(line)..]) && !StartsWith(line[Level(line)..], " ")
  {
    var level := Level(line);
    HasTextIff(line);
    assert StartsWith(line[level..], " ") <==> level < |line| && line[level] == ' ';
    if !(level < |line| && line[level] == ' ') && HeadingText(line) != [] then
      [Issue(n, HeaderFormat, Warning, "Missing space after header hashes", line, FormatFix(line))]
    else []
  }

  /** empty_header: nothing but whitespace after the hashes. */
  function EmptyPart(n: nat, line: string): (r: seq<Issue>)
    requires IsHeading(line)
    ensures AtMostOne(r, n, line, EmptyHeader)
    ensures r != [] <==> IsBlank(line[Level(line)..])
  {
    HasTextIff(line);
    if HeadingText(line) == [] then
      [Issue(n, EmptyHeader, Warning, "Empty header text", line, "Add descriptive header text")]
    else []
  }

  /** header_hierarchy: the level is more than one below the previous heading's. */
  function HierarchyPart(n: nat, line: string, prev: nat): (r: seq<Issue>)
    requires IsHeading(line)
    ensures AtMostOne(r, n, line, HeaderHierarchy)
    ensures r != [] <==> prev > 0 && Level(line) > prev + 1
  {
    var level := Level(line);
    if prev > 0 && level > prev + 1 then
      [Issue(n, HeaderHierarchy, Info,
             "Header level skipped from H" + NatToString(prev) + " to H" + NatToString(level),
             line, HierarchyFix(line, prev))]
    else []
  }

  /** trailing_hashes: the heading's text ends with `#`. */
  function TrailingPart(n: nat, line: string): (r: seq<Issue>)
    requires IsHeading(line)
    ensures AtMostOne(r, n, line, TrailingHashes)
  {
    if EndsWithChar(HeadingText(line), '#') then
      [Issue(n, TrailingHashes, Info, "Trailing hashes in header (not recommended)", line, TrailingFix(line))]
    else []
  }

  /** trailing_hashes is reported when the heading has text and the line ends with `#`. */
  lemma TrailingPartIff(n: nat, line: string)
    requires IsHeading(line)
    ensures TrailingPart(n, line) != [] <==> !IsBlank(line[Level(line)..]) && EndsWithChar(RStrip(line), '#')
  {
    TextEndsIff(line);
  }

  /** The issues validate_headers reports for line n, given the level of the last heading
      before it (0 when there is none), in the order the checks run. */
  function Chunk(n: nat, line: string, prev: nat): (r: seq<Issue>)
    ensures !IsHeading(line) ==> r == []
  {
    if !IsHeading(line) then []
    else FormatPart(n, line) + EmptyPart(n, line) + HierarchyPart(n, line, prev) + TrailingPart(n, line)
  }

  /** Every issue of line n's chunk is about line n and quotes the line. */
  lemma ChunkAbout(n: nat, line: string, prev: nat)
    ensures About(Chunk(n, line, prev), n, line)
  {
    if IsHeading(line) {
      var format, empty := FormatPart(n, line), EmptyPart(n, line);
      var hierarchy, trailing := HierarchyPart(n, line, prev), TrailingPart(n, line);
      AtMostOneAbout(format, n, line, HeaderFormat);
      AtMostOneAbout(empty, n, line, EmptyHeader);
      AtMostOneAbout(hierarchy, n, line, HeaderHierarchy);
      AtMostOneAbout(trailing, n, line, TrailingHashes);
      AboutConcat(format, empty, n, line);
      AboutConcat(format + empty, hierarchy, n, line);
      AboutConcat(format + empty + hierarchy, trailing, n, line);
    }
  }

  /** prev_level before line k + 1: the level of the last heading among lines[..k]. */
  function PrevLevel(lines: seq<string>, k: nat): nat
    requires k <= |lines|
  {
    if k == 0 then 0
    else if IsHeading(lines[k - 1]) then Level(lines[k - 1])
    else PrevLevel(lines, k - 1)
  }

  /** prev_level is 0 exactly when no earlier line is a heading, and otherwise the level
      of the last earlier heading. */
  lemma {:induction false} PrevLevelIsLastHeading(lines: seq<string>, k: nat)
    requires k <= |lines|
    ensures PrevLevel(lines, k) == 0 <==> forall j :: 0 <= j < k ==> !IsHeading(lines[j])
    ensures forall j :: 0 <= j < k && IsHeading(lines[j]) && (forall i :: j < i < k ==> !IsHeading(lines[i])) ==>
              PrevLevel(lines, k) == Level(lines[j])
  {
    if k > 0 {
      PrevLevelIsLastHeading(lines, k - 1);
    }
  }

  /** What validate_headers appends for line j (1-based) of lines. */
  function LineChunk(lines: seq<string>, j: int): seq<Issue> {
    if 1 <= j <= |lines| then Chunk(j, lines[j - 1], PrevLevel(lines, j - 1)) else []
  }

  /** LineChunk as a function of the line number. */
  function LineIssues(lines: seq<string>): nat -> seq<Issue> {
    j => LineChunk(lines, j)
  }

  /** Everything validate_headers appends for the first k lines, in order. */
  function HeaderIssuesUpTo(lines: seq<string>, k: nat): seq<Issue> {
    Gather(LineIssues(lines), k)
  }

  /** Everything validate_headers appends. */
  function HeaderIssues(lines: seq<string>): seq<Issue> {
    HeaderIssuesUpTo(lines, |lines|)
  }

  /** Line i + 1's contribution. */
  lemma LineAt(lines: seq<string>, i: nat)
    requires i < |lines|
    ensures LineIssues(lines)(i + 1) == Chunk(i + 1, lines[i], PrevLevel(lines, i))
  {
  }

  /** Line j's contribution is about line j. */
  lemma LineOnLine(lines: seq<string>, j: nat)
    requires 1 <= j <= |lines|
    ensures AllOnLine(LineIssues(lines)(j), j)
  {
    LineAt(lines, j - 1);
    ChunkAbout(j, lines[j - 1], PrevLevel(lines, j - 1));
    AboutOnLine(Chunk(j, lines[j - 1], PrevLevel(lines, j - 1)), j, lines[j - 1]);
  }

  /** The header issues about line n are exactly what the checks report when reading
      line n after the lines before it. */
  lemma HeaderIssuesOnLine(lines: seq<string>, n: nat)
    ensures OnLine(HeaderIssues(lines), n) ==
              if 1 <= n <= |lines| then Chunk(n, lines[n - 1], PrevLevel(lines, n - 1)) else []
  {
    var f := LineIssues(lines);
    forall j | 1 <= j <= |lines| ensures AllOnLine(f(j), j) {
      LineOnLine(lines, j);
    }
    OnLineGather(f, |lines|, n);
    if 1 <= n <= |lines| {
      LineAt(lines, n - 1);
    }
  }

  /** The fix suggested for a missing space is itself correctly spaced. */
  lemma FormatFixIsClean(n: nat, line: string)
    requires IsHeading(line)
    ensures IsHeading(FormatFix(line)) && Level(FormatFix(line)) == Level(line)
    ensures FormatPart(n, FormatFix(line)) == []
  {
    var L := Level(line);
    var fix := FormatFix(line);
    var hashes := Hashes(line);
    LeadingRunSkips(line, '#');
    assert fix == hashes + " " + HeadingText(line);
    assert forall i :: 0 <= i < L ==> fix[i] == hashes[i] == line[i];
    FixLevel(fix, L);
  }

  /** A line of L hashes (L at most six) and then a space is a heading of level L. */
  lemma FixLevel(fix: string, L: nat)
    requires 1 <= L <= 6 && L < |fix| && fix[L] == ' '
    requires forall i :: 0 <= i < L ==> fix[i] == '#'
    ensures IsHeading(fix) && Level(fix) == L
    ensures StartsWith(fix[L..], " ")
  {
    assert fix[0] == '#';
    LeadingRunSkips(fix, '#');
    var k := LeadingRun(fix, '#');
  }

  /** The fix suggested for a skipped level sits exactly one level below the previous
      heading, so it skips nothing. */
  lemma HierarchyFixIsClean(n: nat, line: string, prev: nat)
    requires IsHeading(line) && prev > 0 && Level(line) > prev + 1
    ensures IsHeading(HierarchyFix(line, prev)) && Level(HierarchyFix(line, prev)) == prev + 1
    ensures HierarchyPart(n, HierarchyFix(line, prev), prev) == []
  {
    HashesThenSpace(prev + 1, HeadingText(line));
  }

  /** L hashes (L at most six), a space and any text make a heading of level L. */
  lemma HashesThenSpace(L: nat, text: string)
    requires 1 <= L <= 6
    ensures var fix := Repeat('#', L) + " " + text;
            IsHeading(fix) && Level(fix) == L
  {
    var h := Repeat('#', L);
    var fix := h + " " + text;
    assert forall i :: 0 <= i < L ==> fix[i] == h[i];
    assert fix[L] == ' ';
    FixLevel(fix, L);
  }
}
