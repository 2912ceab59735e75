/** `validate_emphasis`: after removing inline code spans, a line with an odd number of
    `**` or of `__` is reported, once per marker style. Lines whose stripped text starts
    with three backticks or three tildes are skipped; nothing else is. */
module Emphasis {
  import opened Text
  import opened Wrappers
  import opened Issues

  /** re.sub(r'`[^`]+`', '', s): scanning left to right, a backtick followed by at least
      one other character and a closing backtick is removed with everything between; any
      other character is kept. */
  function RemoveCodeSpans(s: string): (r: string)
    ensures |r| <= |s|
    decreases |s|
  {
    if s == [] then []
    else
      var j := IndexFrom(s, 1, '`');
      if s[0] == '`' && 1 < j < |s| then RemoveCodeSpans(s[j + 1..])
      else [s[0]] + RemoveCodeSpans(s[1..])
  }

  /** A line without backticks is left as it is. */
  lemma {:induction false} NoBacktickUnchanged(s: string)
    requires '`' !in s
    ensures RemoveCodeSpans(s) == s
    decreases |s|
  {
    if s != [] {
      assert '`' !in s[1..];
      NoBacktickUnchanged(s[1..]);
      assert s == [s[0]] + s[1..];
    }
  }

  /** A code span at the start of a line is dropped whole, so markers inside it are not
      counted. */
  lemma SpanRemoved(x: string, y: string)
    requires x != [] && '`' !in x
    ensures RemoveCodeSpans("`" + x + "`" + y) == RemoveCodeSpans(y)
  {
    var s := "`" + x + "`" + y;
    forall t | 1 <= t < |x| + 1 ensures s[t] != '`' {
      assert s[t] == x[t - 1];
    }
    IndexFromIs(s, 1, '`', |x| + 1);
    assert s[|x| + 2..] == y;
  }

  /** The stripped line starts with a fence of backticks or tildes. */
  predicate Skipped(line: string) {
    StartsWithRun(Strip(line), '`', 3) || StartsWithRun(Strip(line), '~', 3)
  }

  /** The number of `**` (or `__`) that re.findall counts in t. */
  function Pairs(t: string, c: char): nat {
    CountRun(t, c, 2, 0)
  }

  /** unmatched_bold for the style whose marker is c doubled (`**` or `__`): one warning
      when re.findall finds an odd number of markers in t. */
  function BoldPart(n: nat, line: string, t: string, c: char): (r: seq<Issue>)
    ensures AtMostOne(r, n, line, UnmatchedBold)
    ensures r != [] <==> Pairs(t, c) % 2 == 1
    ensures r != [] ==> r[0].description == "Possibly unmatched bold markers (" + [c, c] + ")" && r[0].severity == Warning
  {
    if Pairs(t, c) % 2 != 0 then
      [Issue(n, UnmatchedBold, Warning, "Possibly unmatched bold markers (" + [c, c] + ")", line,
             "Ensure " + [c, c] + " markers are properly paired")]
    else []
  }

  /** What validate_emphasis appends for line n. */
  function Chunk(n: nat, line: string): seq<Issue> {
    if Skipped(line) then []
    else
      var t := RemoveCodeSpans(line);
      BoldPart(n, line, t, '*') + BoldPart(n, line, t, '_')
  }

  /** Every issue of line n's chunk is an unmatched_bold about line n. */
  lemma ChunkAbout(n: nat, line: string)
    ensures About(Chunk(n, line), n, line) && AllOfKind(Chunk(n, line), UnmatchedBold)
  {
    if !Skipped(line) {
      var t := RemoveCodeSpans(line);
      var a, b := BoldPart(n, line, t, '*'), BoldPart(n, line, t, '_');
      AtMostOneAbout(a, n, line, UnmatchedBold);
      AtMostOneAbout(b, n, line, UnmatchedBold);
      AboutConcat(a, b, n, line);
      AllOfKindConcat(a, b, UnmatchedBold);
    }
  }

  function Odd(k: nat): nat {
    if k % 2 == 1 then 1 else 0
  }

  /** A skipped line gives nothing; any other line, inside a fenced block or not, gives
      one issue per marker style whose count is odd once the code spans are gone. */
  lemma ChunkCount(n: nat, line: string)
    ensures |Chunk(n, line)| ==
              if Skipped(line) then 0
              else Odd(Pairs(RemoveCodeSpans(line), '*')) + Odd(Pairs(RemoveCodeSpans(line), '_'))
  {
  }

  /** What validate_emphasis appends for line j (1-based). */
  function LineChunk(lines: seq<string>, j: int): seq<Issue> {
    if 1 <= j <= |lines| then Chunk(j, lines[j - 1]) else []
  }

  /** LineChunk as a function of the line number. */
  function LineIssues(lines: seq<string>): nat -> seq<Issue> {
    j => LineChunk(lines, j)
  }

  /** Line i + 1's contribution. */
  lemma LineAt(lines: seq<string>, i: nat)
    requires i < |lines|
    ensures LineIssues(lines)(i + 1) == Chunk(i + 1, lines[i])
  {
  }

  /** Everything validate_emphasis appends for the first k lines. */
  function EmphasisIssuesUpTo(lines: seq<string>, k: nat): seq<Issue> {
    Gather(LineIssues(lines), k)
  }

  /** Everything validate_emphasis appends. */
  function EmphasisIssues(lines: seq<string>): seq<Issue> {
    EmphasisIssuesUpTo(lines, |lines|)
  }

  /** Line j's contribution is about line j. */
  lemma LineOnLine(lines: seq<string>, j: nat)
    requires 1 <= j <= |lines|
    ensures AllOnLine(LineIssues(lines)(j), j)
  {
    LineAt(lines, j - 1);
    ChunkAbout(j, lines[j - 1]);
    AboutOnLine(Chunk(j, lines[j - 1]), j, lines[j - 1]);
  }

  /** The emphasis issues about line n are exactly line n's own checks. */
  lemma EmphasisIssuesOnLine(lines: seq<string>, n: nat)
    ensures OnLine(EmphasisIssues(lines), n) == if 1 <= n <= |lines| then Chunk(n, lines[n - 1]) else []
  {
    var f := LineIssues(lines);
    forall j | 1 <= j <= |lines| ensures AllOnLine(f(j), j) {
      LineOnLine(lines, j);
    }
    OnLineGather(f, |lines|, n);
    if 1 <= n <= |lines| {
      LineAt(lines, n - 1);
    }
  }
}
