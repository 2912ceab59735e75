/** `validate_tables`: pipe-table regions, whose first row fixes the column count that
    every later non-separator row must have. */
module Tables {
  import opened Text
  import opened Wrappers
  import opened Issues

  /** The checker's state: in_table, table_start and header_cols. */
  datatype TableState = TableState(inTable: bool, start: nat, headerCols: nat)

  const Initial: TableState := TableState(false, 0, 0)

  /** The number of pieces kept by `[c for c in pieces if c.strip() or c == '']`: all but
      the non-empty pieces made only of whitespace. */
  function Cells(pieces: seq<string>): (r: nat)
    ensures r <= |pieces|
  {
    if pieces == [] then 0 else Cells(pieces[..|pieces| - 1]) + Kept(pieces[|pieces| - 1])
  }

  /** 1 when the comprehension keeps the piece, 0 when it drops it. */
  function Kept(piece: string): nat {
    if Strip(piece) != [] || piece == [] then 1 else 0
  }

  /** The column count of a stripped row. */
  function Columns(stripped: string): nat {
    Cells(Split(stripped, '|'))
  }

  /** A line that counts as a row: it holds `|` and, stripped, starts or ends with `|`. */
  predicate IsRow(line: string) {
    '|' in line && (StartsWith(Strip(line), "|") || EndsWithChar(Strip(line), '|'))
  }

  /** A line that ends a table region: it is not blank and holds no `|`. */
  predicate EndsTable(line: string) {
    '|' !in line && !IsBlank(line)
  }

  /** `^[\s|:-]+$` on a stripped row. */
  predicate IsSeparator(s: string) {
    s != [] && forall i :: 0 <= i < |s| ==> IsSpace(s[i]) || s[i] == '|' || s[i] == ':' || s[i] == '-'
  }

  /** The state update for line n. */
  function Step(st: TableState, n: nat, line: string): TableState {
    if '|' in line then
      if IsRow(line) && !st.inTable then TableState(true, n, Columns(Strip(line))) else st
    else if st.inTable && Strip(line) != [] then st.(inTable := false)
    else st
  }

  /** The state after lines[..k]. */
  function StateAt(lines: seq<string>, k: nat): TableState
    requires k <= |lines|
  {
    if k == 0 then Initial else Step(StateAt(lines, k - 1), k, lines[k - 1])
  }

  /** table_column_mismatch for line n, given the state before it: a row inside a region,
      not its first, whose column count differs from the first row's and which is not a
      separator row. */
  function RowIssues(n: nat, line: string, st: TableState): (r: seq<Issue>)
    ensures AtMostOne(r, n, line, TableColumnMismatch)
  {
    var stripped := Strip(line);
    if IsRow(line) && st.inTable && Columns(stripped) != st.headerCols && !IsSeparator(stripped) then
      [Issue(n, TableColumnMismatch, Error,
             "Table has inconsistent columns (expected " + NatToString(st.headerCols) + ", found "
             + NatToString(Columns(stripped)) + ")",
             line, "Adjust to " + NatToString(st.headerCols) + " columns")]
    else []
  }

  /** table_column_mismatch is an error, reported exactly for a row inside a region whose
      column count differs from the recorded one and which is not a separator row. */
  lemma RowIssuesIff(n: nat, line: string, st: TableState)
    ensures var r := RowIssues(n, line, st);
            && (r != [] <==> IsRow(line) && st.inTable && Columns(Strip(line)) != st.headerCols
                             && !IsSeparator(Strip(line)))
            && (r != [] ==> r[0].severity == Error)
  {
  }

  /** A blank line keeps the state, whether a region is open or not. */
  lemma BlankKeeps(st: TableState, n: nat, line: string)
    requires IsBlank(line)
    ensures Step(st, n, line) == st
  {
    StripEmpty(line);
  }

  /** A line that holds `|` but neither starts nor ends with it (once stripped) changes
      nothing and reports nothing. */
  lemma InnerPipeInert(st: TableState, n: nat, line: string)
    requires '|' in line && !IsRow(line)
    ensures Step(st, n, line) == st && RowIssues(n, line, st) == []
  {
  }

  /** An open region is closed exactly by a line that ends tables. */
  lemma RegionEnds(st: TableState, n: nat, line: string)
    requires st.inTable
    ensures !Step(st, n, line).inTable <==> EndsTable(line)
  {
    StripEmpty(line);
  }

  /** While a region is open after lines[..k], its first row is one of those lines, its
      column count is the recorded one, and no line since then has ended tables. */
  predicate OpenRegionValid(lines: seq<string>, k: nat)
    requires k <= |lines|
  {
    var st := StateAt(lines, k);
    st.inTable ==>
      && 1 <= st.start <= k && IsRow(lines[st.start - 1])
      && st.headerCols == Columns(Strip(lines[st.start - 1]))
      && forall i :: st.start <= i < k ==> !EndsTable(lines[i])
  }

  /** While a region is open, its first row is an earlier line whose column count is the
      recorded one, and no line since then has ended tables. */
  lemma {:induction false} StateInvariant(lines: seq<string>, k: nat)
    requires k <= |lines|
    ensures OpenRegionValid(lines, k)
  {
    if k > 0 {
      StateInvariant(lines, k - 1);
      InvariantStep(lines, k);
    }
  }

  /** Reading line k keeps the invariant. */
  lemma InvariantStep(lines: seq<string>, k: nat)
    requires 0 < k <= |lines| && OpenRegionValid(lines, k - 1)
    ensures OpenRegionValid(lines, k)
  {
    var prev := StateAt(lines, k - 1);
    if prev.inTable {
      RegionEnds(prev, k, lines[k - 1]);
    }
  }

  /** A piece is dropped exactly when it is non-empty and made only of whitespace. */
  lemma KeptIff(piece: string)
    ensures Kept(piece) == 0 <==> piece != [] && IsBlank(piece)
  {
    StripEmpty(piece);
  }

  /** A row `|x|y|` has the two empty outer pieces and its two cells, each counted
      unless it is made only of whitespace. */
  lemma TwoCellRow(x: string, y: string)
    requires '|' !in x && '|' !in y
    ensures Columns("|" + x + "|" + y + "|") == 2 + Kept(x) + Kept(y)
  {
    SplitPieces4(x, y);
    var p := ["", x, y, ""];
    assert p[..3] == ["", x, y] && p[..3][..2] == ["", x] && p[..3][..2][..1] == [""];
    assert Kept("") == 1;
    assert Cells([""]) == 1 by { assert [""][..0] == []; }
    assert Cells(["", x]) == 1 + Kept(x);
    assert Cells(["", x, y]) == 1 + Kept(x) + Kept(y);
    assert Cells(p) == 2 + Kept(x) + Kept(y);
  }

  /** Splitting `|x|y|` for pieces without `|`. */
  lemma SplitPieces4(x: string, y: string)
    requires '|' !in x && '|' !in y
    ensures Split("|" + x + "|" + y + "|", '|') == ["", x, y, ""]
  {
    SplitJoin(["", x, y, ""], '|');
    assert Join(["", x, y, ""], '|') == "|" + x + "|" + y + "|" by {
      assert Join(["", x, y, ""][1..][1..][1..], '|') == "";
      assert Join(["", x, y, ""][1..][1..], '|') == y + "|";
      assert Join(["", x, y, ""][1..], '|') == x + "|" + y + "|";
    }
  }

  /** What validate_tables appends for line j (1-based), checked against the state before it. */
  function LineChunk(lines: seq<string>, j: int): seq<Issue> {
    if 1 <= j <= |lines| then RowIssues(j, lines[j - 1], StateAt(lines, j - 1)) else []
  }

  /** LineChunk as a function of the line number. */
  function LineIssues(lines: seq<string>): nat -> seq<Issue> {
    j => LineChunk(lines, j)
  }

  /** Everything validate_tables appends for the first k lines. */
  function TableIssuesUpTo(lines: seq<string>, k: nat): seq<Issue> {
    Gather(LineIssues(lines), k)
  }

  /** Everything validate_tables appends. */
  function TableIssues(lines: seq<string>): seq<Issue> {
    TableIssuesUpTo(lines, |lines|)
  }

  /** Line i + 1's contribution. */
  lemma LineAt(lines: seq<string>, i: nat)
    requires i < |lines|
    ensures LineIssues(lines)(i + 1) == RowIssues(i + 1, lines[i], StateAt(lines, i))
  {
  }

  /** Line j's contribution is about line j. */
  lemma LineOnLine(lines: seq<string>, j: nat)
    requires 1 <= j <= |lines|
    ensures AllOnLine(LineIssues(lines)(j), j)
  {
    LineAt(lines, j - 1);
    AtMostOneAbout(RowIssues(j, lines[j - 1], StateAt(lines, j - 1)), j, lines[j - 1], TableColumnMismatch);
    AboutOnLine(RowIssues(j, lines[j - 1], StateAt(lines, j - 1)), j, lines[j - 1]);
  }

  /** The table issues about line n are exactly line n's own check. */
  lemma TableIssuesOnLine(lines: seq<string>, n: nat)
    ensures OnLine(TableIssues(lines), n) ==
              if 1 <= n <= |lines| then RowIssues(n, lines[n - 1], StateAt(lines, n - 1)) else []
  {
    var f := LineIssues(lines);
    forall j | 1 <= j <= |lines| ensures AllOnLine(f(j), j) {
      LineOnLine(lines, j);
    }
    OnLineGather(f, |lines|, n);
    if 1 <= n <= |lines| {
      LineAt(lines, n - 1);
    }
  }

  /** A mismatch is reported only inside a region, never on its first row, and against
      the column count of that first row. */
  lemma MismatchAgainstFirstRow(lines: seq<string>, n: nat)
    requires 1 <= n <= |lines| && RowIssues(n, lines[n - 1], StateAt(lines, n - 1)) != []
    ensures var st := StateAt(lines, n - 1);
            && st.inTable && 1 <= st.start < n
            && Columns(Strip(lines[n - 1])) != Columns(Strip(lines[st.start - 1]))
            && forall i :: st.start <= i < n - 1 ==> !EndsTable(lines[i])
  {
    ReportedRow(n, lines[n - 1], StateAt(lines, n - 1));
    AgainstFirstRow(lines, n);
  }

  /** A row read inside a region with a column count other than the recorded one differs
      from the region's first row, which lies before it. */
  lemma AgainstFirstRow(lines: seq<string>, n: nat)
    requires 1 <= n <= |lines| && StateAt(lines, n - 1).inTable
    requires Columns(Strip(lines[n - 1])) != StateAt(lines, n - 1).headerCols
    ensures var st := StateAt(lines, n - 1);
            && 1 <= st.start < n
            && Columns(Strip(lines[n - 1])) != Columns(Strip(lines[st.start - 1]))
            && forall i :: st.start <= i < n - 1 ==> !EndsTable(lines[i])
  {
    StateInvariant(lines, n - 1);
  }

  /** A reported row lies inside a region and has a column count other than the recorded one. */
  lemma ReportedRow(n: nat, line: string, st: TableState)
    requires RowIssues(n, line, st) != []
    ensures st.inTable && Columns(Strip(line)) != st.headerCols
  {
    RowIssuesIff(n, line, st);
  }
}
