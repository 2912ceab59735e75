/** `validate_code_blocks`: a state machine over fence lines (`` ``` `` or `~~~`, three or
    more, optionally followed by an info word), an inline backtick parity check on every
    line outside a block, and a report for a block still open at the end. */
module CodeBlocks {
  import opened Text
  import opened Wrappers
  import opened Issues

  /** A fence line's character and the length of its run. */
  datatype Fence = Fence(ch: char, count: nat)

  /** `^(`{3,}|~{3,})(\w*)$` on a stripped line: a run of at least three of one fence
      character followed only by word characters. */
  function FenceOf(s: string): (r: Option<Fence>)
    ensures r.Some? ==> (r.value.ch == '`' || r.value.ch == '~') && 3 <= r.value.count <= |s|
  {
    if s != [] && (s[0] == '`' || s[0] == '~') then
      var k := LeadingRun(s, s[0]);
      if k >= 3 && forall i :: k <= i < |s| ==> IsWordChar(s[i]) then Some(Fence(s[0], k)) else None
    else None
  }

  /** Every word of the fence language is recognised with its character and count. */
  lemma FenceComplete(c: char, k: nat, w: string)
    requires (c == '`' || c == '~') && k >= 3
    requires forall i :: 0 <= i < |w| ==> IsWordChar(w[i])
    ensures FenceOf(Repeat(c, k) + w) == Some(Fence(c, k))
  {
    var s := Repeat(c, k) + w;
    assert s[0] == c;
    assert forall i :: k <= i < |s| ==> s[i] == w[i - k];
    assert forall i :: 0 <= i < k ==> s[i] == c;
    assert k < |s| ==> s[k] == w[0] && IsWordChar(s[k]) && s[k] != c;
    LeadingRunSkips(s, c);
    assert LeadingRun(s, c) == k;
  }

  /** The checker's state: in_fenced_block, block_start_line, fence_char (None when no
      block is open) and fence_count. */
  datatype CodeState = CodeState(inBlock: bool, start: nat, fenceChar: Option<char>, fenceCount: nat)

  const Initial: CodeState := CodeState(false, 0, None, 0)

  /** The fence update for line n: a fence opens a block when none is open, and closes
      the open one when it has the same character and at least as many of them. */
  function Step(st: CodeState, n: nat, line: string): CodeState {
    match FenceOf(Strip(line))
    case None => st
    case Some(f) =>
      if !st.inBlock then CodeState(true, n, Some(f.ch), f.count)
      else if Some(f.ch) == st.fenceChar && f.count >= st.fenceCount then st.(inBlock := false, fenceChar := None)
      else st
  }

  /** The state after lines[..k]. */
  function StateAt(lines: seq<string>, k: nat): CodeState
    requires k <= |lines|
  {
    if k == 0 then Initial else Step(StateAt(lines, k - 1), k, lines[k - 1])
  }

  /** With a block open, a line closes it exactly when it is a fence of the opening
      character with at least the opening count. */
  lemma StepCloses(st: CodeState, n: nat, line: string)
    requires st.inBlock
    ensures !Step(st, n, line).inBlock <==>
              FenceOf(Strip(line)).Some? && st.fenceChar == Some(FenceOf(Strip(line)).value.ch)
              && FenceOf(Strip(line)).value.count >= st.fenceCount
  {
  }

  /** With a block open, every line that does not close it, fence or not, leaves the state as it was. */
  lemma StepInert(st: CodeState, n: nat, line: string)
    requires st.inBlock && Step(st, n, line).inBlock
    ensures Step(st, n, line) == st
  {
  }

  /** While a block is open, its start is an earlier line holding a fence with the
      recorded character and count; fence_char is set exactly while a block is open. */
  lemma {:induction false} StateInvariant(lines: seq<string>, k: nat)
    requires k <= |lines|
    ensures var st := StateAt(lines, k);
            && (st.inBlock <==> st.fenceChar.Some?)
            && (st.inBlock ==> 1 <= st.start <= k
                               && FenceOf(Strip(lines[st.start - 1])) == Some(Fence(st.fenceChar.value, st.fenceCount)))
  {
    if k > 0 {
      StateInvariant(lines, k - 1);
      InvariantStep(lines, k);
    }
  }

  /** Reading line k keeps the invariant: a fence that opens a block records itself, and
      any other line leaves the state as it was or closes the block. */
  lemma InvariantStep(lines: seq<string>, k: nat)
    requires 0 < k <= |lines|
    requires var st := StateAt(lines, k - 1);
             && (st.inBlock <==> st.fenceChar.Some?)
             && (st.inBlock ==> 1 <= st.start <= k - 1
                                && FenceOf(Strip(lines[st.start - 1])) == Some(Fence(st.fenceChar.value, st.fenceCount)))
    ensures var st := StateAt(lines, k);
            && (st.inBlock <==> st.fenceChar.Some?)
            && (st.inBlock ==> 1 <= st.start <= k
                               && FenceOf(Strip(lines[st.start - 1])) == Some(Fence(st.fenceChar.value, st.fenceCount)))
  {
  }

  /** The backtick count that is left once the triple backticks are taken out. */
  function SingleBackticks(line: string): int {
    CountRun(line, '`', 1, 0) - 3 * CountRun(line, '`', 3, 0)
  }

  /** Triple backticks are made of backticks: at least three per triple are counted. */
  lemma {:induction false} TriplesAreBackticks(s: string, i: nat)
    requires i <= |s|
    ensures 3 * CountRun(s, '`', 3, i) <= CountRun(s, '`', 1, i)
    decreases |s| - i
  {
    if i + 3 <= |s| {
      if RunAt(s, i, '`', 3) {
        assert s[i] == '`' && s[i + 1] == '`' && s[i + 2] == '`';
        assert RunAt(s, i, '`', 1) && RunAt(s, i + 1, '`', 1) && RunAt(s, i + 2, '`', 1);
        assert CountRun(s, '`', 1, i) == 1 + CountRun(s, '`', 1, i + 1);
        assert CountRun(s, '`', 1, i + 1) == 1 + CountRun(s, '`', 1, i + 2);
        assert CountRun(s, '`', 1, i + 2) == 1 + CountRun(s, '`', 1, i + 3);
        TriplesAreBackticks(s, i + 3);
      } else {
        TriplesAreBackticks(s, i + 1);
      }
    }
  }

  /** The backtick count left after removing triples is never negative. */
  lemma SingleBackticksNonNegative(line: string)
    ensures SingleBackticks(line) >= 0
  {
    TriplesAreBackticks(line, 0);
  }

  /** unmatched_backticks for line n, given whether a block is open after the fence update
      of that same line. */
  function BacktickIssues(n: nat, line: string, inBlock: bool): (r: seq<Issue>)
    ensures AtMostOne(r, n, line, UnmatchedBackticks)
  {
    if !inBlock && SingleBackticks(line) % 2 != 0 && !StartsWithRun(Strip(line), '`', 3) then
      [Issue(n, UnmatchedBackticks, Warning, "Possible unmatched inline code backticks", line,
             "Ensure backticks are properly paired")]
    else []
  }

  /** unmatched_backticks is a warning, reported exactly when no block is open after the
      line's fence update, an odd number of backticks is left outside the triples, and the
      stripped line does not start with three backticks. */
  lemma BacktickIff(n: nat, line: string, inBlock: bool)
    ensures var r := BacktickIssues(n, line, inBlock);
            && (r != [] <==> !inBlock && SingleBackticks(line) % 2 != 0 && !StartsWithRun(Strip(line), '`', 3))
            && (r != [] ==> r[0].severity == Warning)
  {
  }

  /** What the loop appends for line j (1-based): checked after that line's fence update. */
  function LineChunk(lines: seq<string>, j: int): seq<Issue> {
    if 1 <= j <= |lines| then BacktickIssues(j, lines[j - 1], StateAt(lines, j).inBlock) else []
  }

  /** LineChunk as a function of the line number. */
  function LineIssues(lines: seq<string>): nat -> seq<Issue> {
    j => LineChunk(lines, j)
  }

  /** Line i + 1's fence update. */
  lemma StateAtNext(lines: seq<string>, i: nat)
    requires i < |lines|
    ensures StateAt(lines, i + 1) == Step(StateAt(lines, i), i + 1, lines[i])
  {
  }

  /** Line i + 1's contribution, checked after its fence update. */
  lemma LineAt(lines: seq<string>, i: nat)
    requires i < |lines|
    ensures LineIssues(lines)(i + 1) == BacktickIssues(i + 1, lines[i], StateAt(lines, i + 1).inBlock)
  {
  }

  /** Line j's contribution is about line j. */
  lemma LineOnLine(lines: seq<string>, j: nat)
    requires 1 <= j <= |lines|
    ensures AllOnLine(LineIssues(lines)(j), j)
  {
    LineAt(lines, j - 1);
    AtMostOneAbout(BacktickIssues(j, lines[j - 1], StateAt(lines, j).inBlock), j, lines[j - 1], UnmatchedBackticks);
    AboutOnLine(BacktickIssues(j, lines[j - 1], StateAt(lines, j).inBlock), j, lines[j - 1]);
  }

  /** Each line contributes only unmatched_backticks. */
  lemma LineIssuesKind(lines: seq<string>)
    ensures forall j :: 1 <= j <= |lines| ==> AllOfKind(LineIssues(lines)(j), UnmatchedBackticks)
  {
    forall j | 1 <= j <= |lines| ensures AllOfKind(LineIssues(lines)(j), UnmatchedBackticks) {
      LineKind(lines, j);
    }
  }

  /** Line j contributes only unmatched_backticks. */
  lemma LineKind(lines: seq<string>, j: nat)
    requires 1 <= j <= |lines|
    ensures AllOfKind(LineIssues(lines)(j), UnmatchedBackticks)
  {
    LineAt(lines, j - 1);
    var r := BacktickIssues(j, lines[j - 1], StateAt(lines, j).inBlock);
    AtMostOneAbout(r, j, lines[j - 1], UnmatchedBackticks);
  }

  /** Everything the loop appends over the first k lines. */
  function BacktickIssuesUpTo(lines: seq<string>, k: nat): seq<Issue> {
    Gather(LineIssues(lines), k)
  }

  /** The closing fence the final report suggests: the opening character, as many times
      as the opening run. */
  function ClosingFence(st: CodeState): string {
    if st.fenceChar == Some('`') then Repeat('`', st.fenceCount) else Repeat('~', st.fenceCount)
  }

  /** A block open at the end started on one of the lines. */
  lemma OpenStartInRange(lines: seq<string>)
    ensures StateAt(lines, |lines|).inBlock ==> 1 <= StateAt(lines, |lines|).start <= |lines|
  {
    StateInvariant(lines, |lines|);
  }

  /** unclosed_code_block, at the line that opened the block still open at the end. */
  function UnclosedIssues(lines: seq<string>): (r: seq<Issue>)
    ensures AllOfKind(r, UnclosedCodeBlock) && |r| <= 1
  {
    var st := StateAt(lines, |lines|);
    OpenStartInRange(lines);
    if st.inBlock then
      [Issue(st.start, UnclosedCodeBlock, Error, "Unclosed fenced code block", lines[st.start - 1],
             "Add closing fence: " + ClosingFence(st))]
    else []
  }

  /** Everything validate_code_blocks appends. */
  function CodeIssues(lines: seq<string>): seq<Issue> {
    BacktickIssuesUpTo(lines, |lines|) + UnclosedIssues(lines)
  }

  /** A block still open at the end gives exactly one unclosed_code_block error, at the
      line of its opening fence, quoting that line and suggesting a fence of the same
      character and count; otherwise there is none. */
  lemma UnclosedReport(lines: seq<string>)
    ensures var st := StateAt(lines, |lines|);
            var u := OfKind(CodeIssues(lines), UnclosedCodeBlock);
            && (!st.inBlock ==> u == [])
            && (st.inBlock ==>
                  && st.fenceChar.Some? && 1 <= st.start <= |lines|
                  && |u| == 1 && u[0].line == st.start
                  && u[0].severity == Error && u[0].originalText == lines[st.start - 1]
                  && FenceOf(Strip(lines[st.start - 1])) == Some(Fence(st.fenceChar.value, st.fenceCount))
                  && u[0].suggestedFix == "Add closing fence: " + Repeat(st.fenceChar.value, st.fenceCount))
  {
    UnclosedIsOnlyReport(lines);
    UnclosedFacts(lines);
  }

  /** The final report on its own: present exactly when a block is open at the end. */
  lemma UnclosedFacts(lines: seq<string>)
    ensures var st := StateAt(lines, |lines|);
            var u := UnclosedIssues(lines);
            && (!st.inBlock ==> u == [])
            && (st.inBlock ==>
                  && st.fenceChar.Some? && 1 <= st.start <= |lines|
                  && |u| == 1 && u[0].line == st.start
                  && u[0].severity == Error && u[0].originalText == lines[st.start - 1]
                  && FenceOf(Strip(lines[st.start - 1])) == Some(Fence(st.fenceChar.value, st.fenceCount))
                  && u[0].suggestedFix == "Add closing fence: " + Repeat(st.fenceChar.value, st.fenceCount))
  {
    StateInvariant(lines, |lines|);
    var st := StateAt(lines, |lines|);
    if st.inBlock {
      assert ClosingFence(st) == Repeat(st.fenceChar.value, st.fenceCount) by {
        assert st.fenceChar == Some('`') || st.fenceChar == Some('~');
      }
    }
  }

  /** The only unclosed_code_block issues are the final report's. */
  lemma UnclosedIsOnlyReport(lines: seq<string>)
    ensures OfKind(CodeIssues(lines), UnclosedCodeBlock) == UnclosedIssues(lines)
  {
    var f := LineIssues(lines);
    LineIssuesKind(lines);
    GatherAllOfKind(f, |lines|, UnmatchedBackticks);
    OfOtherKind(Gather(f, |lines|), UnmatchedBackticks, UnclosedCodeBlock);
    OfKindConcat(Gather(f, |lines|), UnclosedIssues(lines), UnclosedCodeBlock);
    var u := UnclosedIssues(lines);
    assert OfKind(u, UnclosedCodeBlock) == u by {
      if u != [] {
        assert u[1..] == [];
      }
    }
  }

  /** The suggested closing fence does close the open block. */
  lemma ClosingFenceCloses(st: CodeState, n: nat)
    requires st.inBlock && (st.fenceChar == Some('`') || st.fenceChar == Some('~')) && st.fenceCount >= 3
    ensures !Step(st, n, ClosingFence(st)).inBlock
  {
    var c := st.fenceChar.value;
    var s := ClosingFence(st);
    assert s == Repeat(c, st.fenceCount);
    SkipSpaceIs(s, 0, 0);
    assert LStrip(s) == s;
    SkipSpaceBackIs(s, |s|, |s|);
    assert Strip(s) == s;
    FenceComplete(c, st.fenceCount, "");
    assert s + "" == s;
  }

  /** The backtick issues about line n are exactly line n's own check, and the unclosed
      report is about the block's opening line. */
  lemma CodeIssuesOnLine(lines: seq<string>, n: nat)
    ensures OnLine(CodeIssues(lines), n) ==
              (if 1 <= n <= |lines| then BacktickIssues(n, lines[n - 1], StateAt(lines, n).inBlock) else [])
              + OnLine(UnclosedIssues(lines), n)
  {
    var f := LineIssues(lines);
    forall j | 1 <= j <= |lines| ensures AllOnLine(f(j), j) {
      LineOnLine(lines, j);
    }
    OnLineGather(f, |lines|, n);
    if 1 <= n <= |lines| {
      LineAt(lines, n - 1);
    }
    OnLineConcat(Gather(f, |lines|), UnclosedIssues(lines), n);
  }
}
