/** The MarkdownValidator object: a file path, the text read from it, its lines and the
    list of issues the checkers append to, plus validate_all, which runs them in order and
    sorts the result by line. */
module Validator {
  import opened Text
  import opened Wrappers
  import opened Issues
  import opened Sorting
  import opened Brackets
  import opened Urls
  import Headers
  import Links
  import CodeBlocks
  import Lists
  import Images
  import Emphasis
  import Tables
  import Report

  /** What opening and reading the file gave: its text, FileNotFoundError, or any other
      exception, with its message. */
  datatype LoadOutcome = Loaded(text: string) | NotFound | ReadFailed(message: string)

  /** The file_error issue load_file appends when reading fails. */
  function LoadError(filePath: string, outcome: LoadOutcome): (r: Issue)
    requires !outcome.Loaded?
    ensures r.line == 0 && r.kind == FileError && r.severity == Error && r.originalText == ""
  {
    match outcome
    case NotFound =>
      Issue(0, FileError, Error, "File not found: " + filePath, "", "Verify the file path is correct")
    case ReadFailed(message) =>
      Issue(0, FileError, Error, "Error reading file: " + message, "", "Check file permissions and encoding")
  }

  /** Everything the seven checkers append, in the order validate_all runs them. */
  function CheckerIssues(lines: seq<string>, baseDir: string, env: Oracles): seq<Issue> {
    Headers.HeaderIssues(lines)
    + Links.LinkIssues(lines, baseDir, env)
    + CodeBlocks.CodeIssues(lines)
    + Lists.ListIssues(lines)
    + Images.AllImageIssues(lines, baseDir, env)
    + Emphasis.EmphasisIssues(lines)
    + Tables.TableIssues(lines)
  }

  /** What validate_all returns after the issues `before` were already recorded: when the
      file loads, those and everything the seven checkers report, stably sorted by line;
      when it does not, those followed by the file_error. */
  function AllIssues(before: seq<Issue>, filePath: string, baseDir: string, env: Oracles,
                     outcome: LoadOutcome): seq<Issue>
  {
    match outcome
    case Loaded(text) => SortByLine(before + CheckerIssues(Split(text, '\n'), baseDir, env))
    case _ => before + [LoadError(filePath, outcome)]
  }

  /** A loaded file's issues come out ordered by line number. */
  lemma AllIssuesSorted(before: seq<Issue>, filePath: string, baseDir: string, env: Oracles,
                        outcome: LoadOutcome)
    requires outcome.Loaded?
    ensures SortedByLine(AllIssues(before, filePath, baseDir, env, outcome))
  {
    SortSorted(before + CheckerIssues(Split(outcome.text, '\n'), baseDir, env));
  }

  /** The sort is stable: the issues about one line keep the order in which the checkers
      appended them, headers first and tables last. */
  lemma AllIssuesOnLine(before: seq<Issue>, filePath: string, baseDir: string, env: Oracles,
                        outcome: LoadOutcome, n: nat)
    requires outcome.Loaded?
    ensures var lines := Split(outcome.text, '\n');
            OnLine(AllIssues(before, filePath, baseDir, env, outcome), n)
            == OnLine(before, n)
               + (OnLine(Headers.HeaderIssues(lines), n)
                  + OnLine(Links.LinkIssues(lines, baseDir, env), n)
                  + OnLine(CodeBlocks.CodeIssues(lines), n)
                  + OnLine(Lists.ListIssues(lines), n)
                  + OnLine(Images.AllImageIssues(lines, baseDir, env), n)
                  + OnLine(Emphasis.EmphasisIssues(lines), n)
                  + OnLine(Tables.TableIssues(lines), n))
  {
    var lines := Split(outcome.text, '\n');
    SortStable(before + CheckerIssues(lines, baseDir, env), n);
    OnLineSeven(before, Headers.HeaderIssues(lines), Links.LinkIssues(lines, baseDir, env),
                CodeBlocks.CodeIssues(lines), Lists.ListIssues(lines), Images.AllImageIssues(lines, baseDir, env),
                Emphasis.EmphasisIssues(lines), Tables.TableIssues(lines), n);
  }

  /** A file that cannot be read gets exactly one issue, the file_error, on line 0. */
  lemma LoadFailureAlone(filePath: string, baseDir: string, env: Oracles, outcome: LoadOutcome)
    requires !outcome.Loaded?
    ensures var r := AllIssues([], filePath, baseDir, env, outcome);
            |r| == 1 && r[0].kind == FileError && r[0].severity == Error && r[0].line == 0
  {
  }

  /** validate_markdown_file's counts are those of the issues the checkers found, whatever
      order the sort put them in. */
  lemma SummaryCounts(filePath: string, baseDir: string, env: Oracles, text: string)
    ensures var all := CheckerIssues(Split(text, '\n'), baseDir, env);
            var r := Report.Summarize(filePath, AllIssues([], filePath, baseDir, env, Loaded(text)));
            && r.totalIssues == |all|
            && r.errors == Report.CountSeverity(all, Error)
            && r.warnings == Report.CountSeverity(all, Warning)
            && r.info == Report.CountSeverity(all, Info)
  {
    var all := CheckerIssues(Split(text, '\n'), baseDir, env);
    assert [] + all == all;
    Report.SummaryIgnoresOrder(filePath, all);
  }

  /** A file that cannot be read is reported as one error and nothing else. */
  lemma SummaryOfLoadFailure(filePath: string, baseDir: string, env: Oracles, outcome: LoadOutcome)
    requires !outcome.Loaded?
    ensures var r := Report.Summarize(filePath, AllIssues([], filePath, baseDir, env, outcome));
            r.totalIssues == 1 && r.errors == 1 && r.warnings == 0 && r.info == 0
  {
    var r := AllIssues([], filePath, baseDir, env, outcome);
    assert r == [LoadError(filePath, outcome)];
    assert r[..0] == [];
    assert Report.CountSeverity(r, Error) == 1;
    assert Report.CountSeverity(r, Warning) == 0;
    assert Report.CountSeverity(r, Info) == 0;
  }

  /** validate_markdown_file: a fresh validator for file_path runs validate_all, and the
      issues it returns are counted by severity. */
  method ValidateMarkdownFile(filePath: string, baseDir: string, env: Oracles, outcome: LoadOutcome)
    returns (r: Report.Summary)
    ensures r == Report.Summarize(filePath, AllIssues([], filePath, baseDir, env, outcome))
  {
    var validator := new MarkdownValidator(filePath, baseDir, env);
    var issues := validator.ValidateAll(outcome);
    r := Report.Summarize(filePath, issues);
  }

  class MarkdownValidator {
    const filePath: string
    /** os.path.dirname(os.path.abspath(file_path)), worked out by the caller. */
    const baseDir: string
    /** The file system, the URL parser and the network. */
    const env: Oracles
    var content: string
    var lines: seq<string>
    var issues: seq<Issue>

    constructor(filePath: string, baseDir: string, env: Oracles)
      ensures this.filePath == filePath && this.baseDir == baseDir && this.env == env
      ensures content == "" && lines == [] && issues == []
    {
      this.filePath := filePath;
      this.baseDir := baseDir;
      this.env := env;
      content := "";
      lines := [];
      issues := [];
    }

    /** load_file: on success the text and its lines are kept; on failure one file_error
        is appended and nothing else changes. */
    method LoadFile(outcome: LoadOutcome) returns (ok: bool)
      modifies this`content, this`lines, this`issues
      ensures ok <==> outcome.Loaded?
      ensures ok ==> content == outcome.text && lines == Split(outcome.text, '\n') && issues == old(issues)
      ensures !ok ==> content == old(content) && lines == old(lines)
                      && issues == old(issues) + [LoadError(filePath, outcome)]
    {
      match outcome
      case Loaded(text) =>
        content := text;
        lines := Split(content, '\n');
        ok := true;
      case NotFound =>
        issues := issues + [Issue(0, FileError, Error, "File not found: " + filePath, "",
                                  "Verify the file path is correct")];
        ok := false;
      case ReadFailed(message) =>
        issues := issues + [Issue(0, FileError, Error, "Error reading file: " + message, "",
                                  "Check file permissions and encoding")];
        ok := false;
    }

    /** validate_all: a file that does not load leaves only what load_file appended;
        otherwise the seven checkers run in order and the issues are sorted by line. */
    method ValidateAll(outcome: LoadOutcome) returns (result: seq<Issue>)
      modifies this`content, this`lines, this`issues
      ensures result == issues == AllIssues(old(issues), filePath, baseDir, env, outcome)
      ensures outcome.Loaded? ==> content == outcome.text && lines == Split(outcome.text, '\n')
      ensures !outcome.Loaded? ==> content == old(content) && lines == old(lines)
    {
      var ok := LoadFile(outcome);
      if !ok {
        return issues;
      }
      result := CheckAndSort();
    }

    /** validate_all once the file is loaded: the checkers, then the stable sort by line. */
    method CheckAndSort() returns (result: seq<Issue>)
      modifies this`issues
      ensures result == issues == SortByLine(old(issues) + CheckerIssues(lines, baseDir, env))
    {
      RunCheckers();
      issues := SortByLine(issues);
      result := issues;
    }

    /** The seven checkers of validate_all, in the order it runs them. */
    method RunCheckers()
      modifies this`issues
      ensures issues == old(issues) + CheckerIssues(lines, baseDir, env)
    {
      ValidateHeaders();
      ValidateLinks();
      ValidateCodeBlocks();
      ValidateLists();
      ValidateImages();
      ValidateEmphasis();
      ValidateTables();
      AppendSeven(old(issues), Headers.HeaderIssues(lines), Links.LinkIssues(lines, baseDir, env),
                  CodeBlocks.CodeIssues(lines), Lists.ListIssues(lines), Images.AllImageIssues(lines, baseDir, env),
                  Emphasis.EmphasisIssues(lines), Tables.TableIssues(lines));
    }

    /** validate_headers: each line is checked against the level of the last heading
        before it. */
    method ValidateHeaders()
      modifies this`issues
      ensures issues == old(issues) + Headers.HeaderIssues(lines)
    {
      var prevLevel := 0;
      var i := 0;
      while i < |lines|
        invariant 0 <= i <= |lines|
        invariant prevLevel == Headers.PrevLevel(lines, i)
        invariant issues == old(issues) + Headers.HeaderIssuesUpTo(lines, i)
      {
        GatherNext(old(issues), Headers.LineIssues(lines), i);
        prevLevel := CheckHeading(i + 1, lines[i], prevLevel);
        i := i + 1;
      }
    }

    /** The body of validate_headers' loop for line n: the four checks of a heading, in
        order, and the new prev_level. */
    method CheckHeading(n: nat, line: string, prevLevel: nat) returns (newLevel: nat)
      modifies this`issues
      ensures issues == old(issues) + Headers.Chunk(n, line, prevLevel)
      ensures newLevel == if Headers.IsHeading(line) then Headers.Level(line) else prevLevel
    {
      newLevel := prevLevel;
      if Headers.IsHeading(line) {
        ghost var format, empty := Headers.FormatPart(n, line), Headers.EmptyPart(n, line);
        ghost var hierarchy, trailing := Headers.HierarchyPart(n, line, prevLevel), Headers.TrailingPart(n, line);
        CheckHeadingFormat(n, line);
        CheckHeadingEmpty(n, line);
        AppendAssoc(old(issues), format, empty);
        CheckHeadingHierarchy(n, line, prevLevel);
        AppendAssoc(old(issues), format + empty, hierarchy);
        CheckHeadingTrailing(n, line);
        AppendAssoc(old(issues), format + empty + hierarchy, trailing);
        newLevel := Headers.Level(line);
      }
    }

    /** A missing space after the hashes, when the heading has text. */
    method CheckHeadingFormat(n: nat, line: string)
      requires Headers.IsHeading(line)
      modifies this`issues
      ensures issues == old(issues) + Headers.FormatPart(n, line)
    {
      var level := Headers.Level(line);
      if !(level < |line| && line[level] == ' ') && Headers.HeadingText(line) != [] {
        issues := issues + [Issue(n, HeaderFormat, Warning, "Missing space after header hashes", line,
                                  Headers.FormatFix(line))];
      }
    }

    /** A heading without text. */
    method CheckHeadingEmpty(n: nat, line: string)
      requires Headers.IsHeading(line)
      modifies this`issues
      ensures issues == old(issues) + Headers.EmptyPart(n, line)
    {
      if Headers.HeadingText(line) == [] {
        issues := issues + [Issue(n, EmptyHeader, Warning, "Empty header text", line, "Add descriptive header text")];
      }
    }

    /** A level more than one below the previous heading's. */
    method CheckHeadingHierarchy(n: nat, line: string, prevLevel: nat)
      requires Headers.IsHeading(line)
      modifies this`issues
      ensures issues == old(issues) + Headers.HierarchyPart(n, line, prevLevel)
    {
      var level := Headers.Level(line);
      if prevLevel > 0 && level > prevLevel + 1 {
        issues := issues + [Issue(n, HeaderHierarchy, Info,
                                  "Header level skipped from H" + NatToString(prevLevel) + " to H" + NatToString(level),
                                  line, Headers.HierarchyFix(line, prevLevel))];
      }
    }

    /** Closing hashes after the heading's text. */
    method CheckHeadingTrailing(n: nat, line: string)
      requires Headers.IsHeading(line)
      modifies this`issues
      ensures issues == old(issues) + Headers.TrailingPart(n, line)
    {
      if EndsWithChar(Headers.HeadingText(line), '#') {
        issues := issues + [Issue(n, TrailingHashes, Info, "Trailing hashes in header (not recommended)", line,
                                  Headers.TrailingFix(line))];
      }
    }

    /** _validate_url. */
    method ValidateUrl(n: nat, url: string, original: string)
      modifies this`issues
      ensures issues == old(issues) + UrlIssues(n, url, original, baseDir, env)
    {
      if StartsWith(url, "#") {
        return;
      }
      if !HasLinkScheme(url) {
        var fullPath := JoinPath(baseDir, Split(url, '#')[0]);
        if !env.pathExists(fullPath) {
          issues := issues + [Issue(n, BrokenLocalLink, Error, "Local file not found: " + url, original,
                                    "Verify file exists at: " + fullPath)];
        }
        return;
      }
      var parsed := env.urlParse(url);
      if parsed.None? {
        return;
      }
      if parsed.value.scheme == "" || parsed.value.netloc == "" {
        issues := issues + [Issue(n, InvalidUrlFormat, Error, "Invalid URL format: " + url, original,
                                  "Use full URL with scheme: https://" + url)];
        return;
      }
      var response := env.headProbe(url);
      match response {
        case Status(code) =>
          if code >= 400 {
            issues := issues + [Issue(n, BrokenExternalLink, Error,
                                      "Broken link (HTTP " + IntToString(code) + "): " + url, original,
                                      "Update URL or remove the link")];
          }
        case Timeout =>
          issues := issues + [Issue(n, LinkTimeout, Warning, "Link timed out: " + url, original,
                                    "Verify URL is accessible")];
        case OtherFailure =>
      }
    }

    /** validate_links: the definitions pass, then the inline links and the reference
        usages of every line. */
    method ValidateLinks()
      modifies this`issues
      ensures issues == old(issues) + Links.LinkIssues(lines, baseDir, env)
    {
      var definitions := CollectDefinitions();
      CheckLinkLines(definitions);
    }

    /** The first pass of validate_links: reference_definitions, keyed by the lower-cased
        id, each line's definition overwriting an earlier one of the same key. */
    method CollectDefinitions() returns (definitions: map<string, Links.DefEntry>)
      ensures definitions == Links.Definitions(lines, |lines|)
    {
      definitions := map[];
      var i := 0;
      while i < |lines|
        invariant 0 <= i <= |lines|
        invariant definitions == Links.Definitions(lines, i)
      {
        var d := Links.DefinitionAt(lines[i]);
        Links.DefinitionsNext(lines, i);
        if d.Some? {
          definitions := definitions[Lower(d.value.id) := Links.DefEntry(i + 1, d.value.target)];
        }
        i := i + 1;
      }
    }

    /** The second pass of validate_links, over every line. */
    method CheckLinkLines(definitions: map<string, Links.DefEntry>)
      requires definitions == Links.Definitions(lines, |lines|)
      modifies this`issues
      ensures issues == old(issues) + Links.LinkIssues(lines, baseDir, env)
    {
      var i := 0;
      while i < |lines|
        invariant 0 <= i <= |lines|
        invariant issues == old(issues) + Links.LinkIssuesUpTo(lines, baseDir, env, i)
      {
        LinkStep(i, definitions, old(issues));
        i := i + 1;
      }
    }

    /** One turn of the second pass, on line i + 1. */
    method LinkStep(i: nat, definitions: map<string, Links.DefEntry>, ghost base: seq<Issue>)
      requires i < |lines| && definitions == Links.Definitions(lines, |lines|)
      requires issues == base + Links.LinkIssuesUpTo(lines, baseDir, env, i)
      modifies this`issues
      ensures issues == base + Links.LinkIssuesUpTo(lines, baseDir, env, i + 1)
    {
      Links.LineAt(lines, baseDir, env, i);
      GatherNext(base, Links.LineIssues(lines, baseDir, env), i);
      CheckLinkLine(i + 1, lines[i], definitions);
    }

    /** The second pass of validate_links on line n: its inline links, then its
        reference usages. */
    method CheckLinkLine(n: nat, line: string, definitions: map<string, Links.DefEntry>)
      modifies this`issues
      ensures issues == old(issues) + Links.LinkChunk(n, line, definitions, baseDir, env)
    {
      CheckInlineLinks(n, line);
      CheckReferences(n, line, definitions);
      AppendAssoc(old(issues), Gather(Links.InlineAt(n, line, baseDir, env), |FindAll(line, InlineLink)|),
                  Gather(Links.RefAt(n, line, definitions), |FindAll(line, ReferenceLink)|));
    }

    /** The loop of validate_links over the inline links of line n. */
    method CheckInlineLinks(n: nat, line: string)
      modifies this`issues
      ensures issues == old(issues) + Gather(Links.InlineAt(n, line, baseDir, env), |FindAll(line, InlineLink)|)
    {
      var links := FindAll(line, InlineLink);
      var j := 0;
      while j < |links|
        invariant 0 <= j <= |links|
        invariant issues == old(issues) + Gather(Links.InlineAt(n, line, baseDir, env), j)
      {
        InlineStep(n, line, links, j, old(issues));
        j := j + 1;
      }
      assert j == |links|;
    }

    /** One turn of the inline-link loop, on the link links[j]. */
    method InlineStep(n: nat, line: string, links: seq<Match>, j: nat, ghost base: seq<Issue>)
      requires links == FindAll(line, InlineLink) && j < |links|
      requires issues == base + Gather(Links.InlineAt(n, line, baseDir, env), j)
      modifies this`issues
      ensures issues == base + Gather(Links.InlineAt(n, line, baseDir, env), j + 1)
    {
      Links.InlineAtIs(n, line, baseDir, env, j);
      GatherNext(base, Links.InlineAt(n, line, baseDir, env), j);
      CheckInlineLink(n, line, links[j]);
    }

    /** The loop of validate_links over the reference usages of line n. */
    method CheckReferences(n: nat, line: string, definitions: map<string, Links.DefEntry>)
      modifies this`issues
      ensures issues == old(issues) + Gather(Links.RefAt(n, line, definitions), |FindAll(line, ReferenceLink)|)
    {
      var refs := FindAll(line, ReferenceLink);
      var j := 0;
      while j < |refs|
        invariant 0 <= j <= |refs|
        invariant issues == old(issues) + Gather(Links.RefAt(n, line, definitions), j)
      {
        ReferenceStep(n, line, refs, j, definitions, old(issues));
        j := j + 1;
      }
      assert j == |refs|;
    }

    /** One turn of the reference loop, on the usage refs[j]. */
    method ReferenceStep(n: nat, line: string, refs: seq<Match>, j: nat, definitions: map<string, Links.DefEntry>,
                         ghost base: seq<Issue>)
      requires refs == FindAll(line, ReferenceLink) && j < |refs|
      requires issues == base + Gather(Links.RefAt(n, line, definitions), j)
      modifies this`issues
      ensures issues == base + Gather(Links.RefAt(n, line, definitions), j + 1)
    {
      Links.RefAtIs(n, line, definitions, j);
      GatherNext(base, Links.RefAt(n, line, definitions), j);
      CheckReference(n, line, refs[j], definitions);
    }

    /** The check of validate_links on one reference usage m of line n. */
    method CheckReference(n: nat, line: string, m: Match, definitions: map<string, Links.DefEntry>)
      requires m.start <= m.end <= |line|
      modifies this`issues
      ensures issues == old(issues) + Links.RefIssues(n, line, m, definitions)
    {
      var refId := if m.second != [] then Lower(m.second) else Lower(m.first);
      if refId !in definitions {
        issues := issues + [Issue(n, UndefinedReference, Error, "Undefined link reference: [" + refId + "]",
                                  line[m.start..m.end],
                                  "Add reference definition: [" + refId + "]: https://example.com")];
      }
    }

    /** The checks of validate_links on one inline link m of line n. */
    method CheckInlineLink(n: nat, line: string, m: Match)
      requires m.start <= m.end <= |line|
      modifies this`issues
      ensures issues == old(issues) + Links.InlineIssues(n, line, m, baseDir, env)
    {
      var linkText, url, original := m.first, Strip(m.second), line[m.start..m.end];
      ghost var text := Links.LinkTextPart(n, original, linkText, url);
      if linkText == [] {
        issues := issues + [Issue(n, EmptyLinkText, Warning, "Empty link text", original,
                                  "[descriptive text](" + url + ")")];
      }
      assert issues == old(issues) + text;
      if url == [] {
        issues := issues + [Issue(n, EmptyUrl, Error, "Empty URL in link", original,
                                  "[" + linkText + "](https://example.com)")];
        AppendAssoc(old(issues), text, Links.EmptyUrlPart(n, original, linkText, url));
        return;
      }
      ValidateUrl(n, url, original);
      AppendAssoc(old(issues), text, UrlIssues(n, url, original, baseDir, env));
    }

    /** validate_code_blocks: the fence state machine with the backtick check after each
        line's fence update, then the report for a block left open. */
    method ValidateCodeBlocks()
      modifies this`issues
      ensures issues == old(issues) + CodeBlocks.CodeIssues(lines)
    {
      var inFencedBlock, blockStartLine, fenceChar, fenceCount := ScanFences();
      ReportUnclosed(inFencedBlock, blockStartLine, fenceChar, fenceCount);
      AppendAssoc(old(issues), CodeBlocks.BacktickIssuesUpTo(lines, |lines|), CodeBlocks.UnclosedIssues(lines));
    }

    /** The loop of validate_code_blocks, which leaves the state after the last line. */
    method ScanFences() returns (inFencedBlock: bool, blockStartLine: nat, fenceChar: Option<char>, fenceCount: nat)
      modifies this`issues
      ensures CodeBlocks.CodeState(inFencedBlock, blockStartLine, fenceChar, fenceCount) == CodeBlocks.StateAt(lines, |lines|)
      ensures issues == old(issues) + CodeBlocks.BacktickIssuesUpTo(lines, |lines|)
    {
      inFencedBlock, blockStartLine, fenceChar, fenceCount := false, 0, None, 0;
      var i := 0;
      while i < |lines|
        invariant 0 <= i <= |lines|
        invariant CodeBlocks.CodeState(inFencedBlock, blockStartLine, fenceChar, fenceCount) == CodeBlocks.StateAt(lines, i)
        invariant issues == old(issues) + CodeBlocks.BacktickIssuesUpTo(lines, i)
      {
        inFencedBlock, blockStartLine, fenceChar, fenceCount :=
          CodeStep(i, inFencedBlock, blockStartLine, fenceChar, fenceCount, old(issues));
        i := i + 1;
      }
    }

    /** The report of validate_code_blocks for a block still open after the last line. */
    method ReportUnclosed(inFencedBlock: bool, blockStartLine: nat, fenceChar: Option<char>, fenceCount: nat)
      requires CodeBlocks.CodeState(inFencedBlock, blockStartLine, fenceChar, fenceCount) == CodeBlocks.StateAt(lines, |lines|)
      modifies this`issues
      ensures issues == old(issues) + CodeBlocks.UnclosedIssues(lines)
    {
      CodeBlocks.OpenStartInRange(lines);
      if inFencedBlock {
        var fence := if fenceChar == Some('`') then Repeat('`', fenceCount) else Repeat('~', fenceCount);
        issues := issues + [Issue(blockStartLine, UnclosedCodeBlock, Error, "Unclosed fenced code block",
                                  lines[blockStartLine - 1], "Add closing fence: " + fence)];
      }
    }

    /** One turn of validate_code_blocks' loop, on line i + 1: the fence update, then
        the backtick check. */
    method CodeStep(i: nat, inFencedBlock: bool, blockStartLine: nat, fenceChar: Option<char>, fenceCount: nat,
                    ghost base: seq<Issue>)
      returns (inBlock': bool, start': nat, char': Option<char>, count': nat)
      requires i < |lines|
      requires CodeBlocks.CodeState(inFencedBlock, blockStartLine, fenceChar, fenceCount) == CodeBlocks.StateAt(lines, i)
      requires issues == base + CodeBlocks.BacktickIssuesUpTo(lines, i)
      modifies this`issues
      ensures CodeBlocks.CodeState(inBlock', start', char', count') == CodeBlocks.StateAt(lines, i + 1)
      ensures issues == base + CodeBlocks.BacktickIssuesUpTo(lines, i + 1)
    {
      var line, n := lines[i], i + 1;
      inBlock', start', char', count' := UpdateFence(n, line, inFencedBlock, blockStartLine, fenceChar, fenceCount);
      CodeBlocks.StateAtNext(lines, i);
      CodeBlocks.LineAt(lines, i);
      GatherNext(base, CodeBlocks.LineIssues(lines), i);
      CheckBackticks(n, line, inBlock');
    }

    /** The fence part of validate_code_blocks' loop body for line n. */
    method UpdateFence(n: nat, line: string, inFencedBlock: bool, blockStartLine: nat, fenceChar: Option<char>,
                       fenceCount: nat)
      returns (inBlock': bool, start': nat, char': Option<char>, count': nat)
      ensures CodeBlocks.CodeState(inBlock', start', char', count')
              == CodeBlocks.Step(CodeBlocks.CodeState(inFencedBlock, blockStartLine, fenceChar, fenceCount), n, line)
    {
      inBlock', start', char', count' := inFencedBlock, blockStartLine, fenceChar, fenceCount;
      var fenceMatch := CodeBlocks.FenceOf(Strip(line));
      if fenceMatch.Some? {
        var currentChar, currentCount := fenceMatch.value.ch, fenceMatch.value.count;
        if !inFencedBlock {
          inBlock', start', char', count' := true, n, Some(currentChar), currentCount;
        } else if Some(currentChar) == fenceChar && currentCount >= fenceCount {
          inBlock', char' := false, None;
        }
      }
    }

    /** The inline backtick check of validate_code_blocks on line n, made only outside a
        block. */
    method CheckBackticks(n: nat, line: string, inFencedBlock: bool)
      modifies this`issues
      ensures issues == old(issues) + CodeBlocks.BacktickIssues(n, line, inFencedBlock)
    {
      if !inFencedBlock {
        var backtickCount: int := CountRun(line, '`', 1, 0);
        var tripleCount := CountRun(line, '`', 3, 0);
        var singleCount: int := backtickCount - tripleCount * 3;
        if singleCount % 2 != 0 && !StartsWithRun(Strip(line), '`', 3) {
          issues := issues + [Issue(n, UnmatchedBackticks, Warning, "Possible unmatched inline code backticks",
                                    line, "Ensure backticks are properly paired")];
        }
      }
    }

    /** validate_lists: each line is checked against whether the last line that was not
        blank was a list item. */
    method ValidateLists()
      modifies this`issues
      ensures issues == old(issues) + Lists.ListIssues(lines)
    {
      var prevWasList := false;
      var i := 0;
      while i < |lines|
        invariant 0 <= i <= |lines|
        invariant prevWasList == Lists.PrevAt(lines, i)
        invariant issues == old(issues) + Lists.ListIssuesUpTo(lines, i)
      {
        prevWasList := ListStep(i, prevWasList, old(issues));
        i := i + 1;
      }
    }

    /** One turn of validate_lists' loop, on line i + 1. */
    method ListStep(i: nat, prevWasList: bool, ghost base: seq<Issue>) returns (nowList: bool)
      requires i < |lines| && prevWasList == Lists.PrevAt(lines, i)
      requires issues == base + Lists.ListIssuesUpTo(lines, i)
      modifies this`issues
      ensures issues == base + Lists.ListIssuesUpTo(lines, i + 1)
      ensures nowList == Lists.PrevAt(lines, i + 1)
    {
      Lists.LineAt(lines, i);
      Lists.PrevAtNext(lines, i);
      GatherNext(base, Lists.LineIssues(lines), i);
      nowList := CheckListLine(i + 1, lines[i], prevWasList);
    }

    /** The body of validate_lists' loop for line n: the two checks of a list item, and
        the new prev_was_list. */
    method CheckListLine(n: nat, line: string, prevWasList: bool) returns (nowList: bool)
      modifies this`issues
      ensures issues == old(issues) + Lists.Chunk(n, line, prevWasList)
      ensures nowList == Lists.Step(prevWasList, line)
    {
      nowList := prevWasList;
      ghost var indentPart, emptyPart := Lists.IndentPart(n, line, prevWasList), Lists.EmptyItemPart(n, line);
      match Lists.ItemOf(line) {
        case Some(item) =>
          var indent := item.indent;
          if prevWasList && indent > 0 && indent % 2 != 0 && indent % 4 != 0 {
            issues := issues + [Issue(n, InconsistentIndent, Info, "Non-standard list indentation (use 2 or 4 spaces)",
                                      line, Lists.IndentFix(item))];
          }
          assert issues == old(issues) + indentPart;
          if Strip(item.content) == [] {
            issues := issues + [Issue(n, EmptyListItem, Warning, "Empty list item", line,
                                      "Add content or remove empty item")];
          }
          assert issues == (old(issues) + indentPart) + emptyPart;
          AppendAssoc(old(issues), indentPart, emptyPart);
          nowList := true;
        case None =>
          assert indentPart == [] && emptyPart == [];
          if Strip(line) != [] {
            nowList := false;
          }
      }
    }

    /** validate_images. */
    method ValidateImages()
      modifies this`issues
      ensures issues == old(issues) + Images.AllImageIssues(lines, baseDir, env)
    {
      var i := 0;
      while i < |lines|
        invariant 0 <= i <= |lines|
        invariant issues == old(issues) + Images.ImageIssuesUpTo(lines, baseDir, env, i)
      {
        ImageLineStep(i, old(issues));
        i := i + 1;
      }
    }

    /** One turn of validate_images' loop, on line i + 1. */
    method ImageLineStep(i: nat, ghost base: seq<Issue>)
      requires i < |lines|
      requires issues == base + Images.ImageIssuesUpTo(lines, baseDir, env, i)
      modifies this`issues
      ensures issues == base + Images.ImageIssuesUpTo(lines, baseDir, env, i + 1)
    {
      Images.LineAt(lines, baseDir, env, i);
      GatherNext(base, Images.LineIssues(lines, baseDir, env), i);
      CheckImageLine(i + 1, lines[i]);
    }

    /** The loop of validate_images over the images of line n. */
    method CheckImageLine(n: nat, line: string)
      modifies this`issues
      ensures issues == old(issues) + Images.Chunk(n, line, baseDir, env)
    {
      var images := FindAll(line, Image);
      var j := 0;
      while j < |images|
        invariant 0 <= j <= |images|
        invariant issues == old(issues) + Gather(Images.ImageAt(n, line, baseDir, env), j)
      {
        ImageStep(n, line, images, j, old(issues));
        j := j + 1;
      }
      assert j == |images|;
    }

    /** One turn of the image loop, on the image images[j]. */
    method ImageStep(n: nat, line: string, images: seq<Match>, j: nat, ghost base: seq<Issue>)
      requires images == FindAll(line, Image) && j < |images|
      requires issues == base + Gather(Images.ImageAt(n, line, baseDir, env), j)
      modifies this`issues
      ensures issues == base + Gather(Images.ImageAt(n, line, baseDir, env), j + 1)
    {
      Images.ImageAtIs(n, line, baseDir, env, j);
      GatherNext(base, Images.ImageAt(n, line, baseDir, env), j);
      CheckImage(n, line, images[j]);
    }

    /** The checks of validate_images on one image m of line n. */
    method CheckImage(n: nat, line: string, m: Match)
      requires m.start <= m.end <= |line|
      modifies this`issues
      ensures issues == old(issues) + Images.ImageIssues(n, line, m, baseDir, env)
    {
      var altText, url, original := m.first, Strip(m.second), line[m.start..m.end];
      ghost var alt := Images.AltPart(n, original, altText, url);
      if altText == [] {
        issues := issues + [Issue(n, MissingAltText, Warning, "Image missing alt text (accessibility issue)",
                                  original, "![descriptive alt text](" + url + ")")];
      }
      assert issues == old(issues) + alt;
      if url == [] {
        issues := issues + [Issue(n, EmptyImageUrl, Error, "Empty image URL", original,
                                  "![" + altText + "](path/to/image.png)")];
        AppendAssoc(old(issues), alt, Images.EmptyImageUrlPart(n, original, altText, url));
        return;
      }
      if !Images.IsRemote(url) {
        var imgPath := JoinPath(baseDir, url);
        if !env.pathExists(imgPath) {
          issues := issues + [Issue(n, MissingImage, Error, "Image file not found: " + url, original,
                                    "Add image at: " + imgPath)];
        }
      }
      AppendAssoc(old(issues), alt, Images.MissingImagePart(n, original, url, baseDir, env));
    }

    /** validate_emphasis. */
    method ValidateEmphasis()
      modifies this`issues
      ensures issues == old(issues) + Emphasis.EmphasisIssues(lines)
    {
      var i := 0;
      while i < |lines|
        invariant 0 <= i <= |lines|
        invariant issues == old(issues) + Emphasis.EmphasisIssuesUpTo(lines, i)
      {
        EmphasisStep(i, old(issues));
        i := i + 1;
      }
    }

    /** One turn of validate_emphasis' loop, on line i + 1. */
    method EmphasisStep(i: nat, ghost base: seq<Issue>)
      requires i < |lines| && issues == base + Emphasis.EmphasisIssuesUpTo(lines, i)
      modifies this`issues
      ensures issues == base + Emphasis.EmphasisIssuesUpTo(lines, i + 1)
    {
      Emphasis.LineAt(lines, i);
      GatherNext(base, Emphasis.LineIssues(lines), i);
      CheckEmphasisLine(i + 1, lines[i]);
    }

    /** The checks of validate_emphasis on line n. */
    method CheckEmphasisLine(n: nat, line: string)
      modifies this`issues
      ensures issues == old(issues) + Emphasis.Chunk(n, line)
    {
      if !Emphasis.Skipped(line) {
        var lineWithoutCode := Emphasis.RemoveCodeSpans(line);
        ghost var star := Emphasis.BoldPart(n, line, lineWithoutCode, '*');
        if Emphasis.Pairs(lineWithoutCode, '*') % 2 != 0 {
          issues := issues + [Issue(n, UnmatchedBold, Warning, "Possibly unmatched bold markers (" + "**" + ")", line,
                                    "Ensure " + "**" + " markers are properly paired")];
        }
        assert issues == old(issues) + star;
        ghost var underscore := Emphasis.BoldPart(n, line, lineWithoutCode, '_');
        if Emphasis.Pairs(lineWithoutCode, '_') % 2 != 0 {
          issues := issues + [Issue(n, UnmatchedBold, Warning, "Possibly unmatched bold markers (" + "__" + ")", line,
                                    "Ensure " + "__" + " markers are properly paired")];
        }
        assert issues == (old(issues) + star) + underscore;
        AppendAssoc(old(issues), star, underscore);
      }
    }

    /** validate_tables. */
    method ValidateTables()
      modifies this`issues
      ensures issues == old(issues) + Tables.TableIssues(lines)
    {
      var inTable := false;
      var tableStart := 0;
      var headerCols := 0;
      var i := 0;
      while i < |lines|
        invariant 0 <= i <= |lines|
        invariant Tables.TableState(inTable, tableStart, headerCols) == Tables.StateAt(lines, i)
        invariant issues == old(issues) + Tables.TableIssuesUpTo(lines, i)
      {
        inTable, tableStart, headerCols := TableStep(i, inTable, tableStart, headerCols, old(issues));
        i := i + 1;
      }
    }

    /** One turn of validate_tables' loop, on line i + 1. */
    method TableStep(i: nat, inTable: bool, tableStart: nat, headerCols: nat, ghost base: seq<Issue>)
      returns (inTable': bool, tableStart': nat, headerCols': nat)
      requires i < |lines| && Tables.TableState(inTable, tableStart, headerCols) == Tables.StateAt(lines, i)
      requires issues == base + Tables.TableIssuesUpTo(lines, i)
      modifies this`issues
      ensures issues == base + Tables.TableIssuesUpTo(lines, i + 1)
      ensures Tables.TableState(inTable', tableStart', headerCols') == Tables.StateAt(lines, i + 1)
    {
      Tables.LineAt(lines, i);
      GatherNext(base, Tables.LineIssues(lines), i);
      inTable', tableStart', headerCols' := CheckTableLine(i + 1, lines[i], inTable, tableStart, headerCols);
    }

    /** The body of validate_tables' loop for line n: a row opens a table or is checked
        against the first row's column count; any other line that is not blank closes the
        table. */
    method CheckTableLine(n: nat, line: string, inTable: bool, tableStart: nat, headerCols: nat)
      returns (inTable': bool, tableStart': nat, headerCols': nat)
      modifies this`issues
      ensures issues == old(issues) + Tables.RowIssues(n, line, Tables.TableState(inTable, tableStart, headerCols))
      ensures Tables.TableState(inTable', tableStart', headerCols')
              == Tables.Step(Tables.TableState(inTable, tableStart, headerCols), n, line)
    {
      inTable', tableStart', headerCols' := inTable, tableStart, headerCols;
      if '|' in line {
        var stripped := Strip(line);
        if StartsWith(stripped, "|") || EndsWithChar(stripped, '|') {
          var cols := Tables.Columns(stripped);
          if !inTable {
            inTable', tableStart', headerCols' := true, n, cols;
          } else if cols != headerCols && !Tables.IsSeparator(stripped) {
            issues := issues + [Issue(n, TableColumnMismatch, Error,
                                      "Table has inconsistent columns (expected " + NatToString(headerCols)
                                      + ", found " + NatToString(cols) + ")",
                                      line, "Adjust to " + NatToString(headerCols) + " columns")];
          }
        }
      } else if inTable && Strip(line) != [] {
        inTable' := false;
      }
    }
  }
}
