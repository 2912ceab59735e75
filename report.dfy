/** `validate_markdown_file`: the result dictionary built from the issues validate_all
    returns, with the number of issues of each severity and a one-line summary. */
module Report {
  import opened Text
  import opened Issues
  import opened Sorting

  /** The dictionary's fields: file_path, total_issues, errors, warnings, info, issues
      and summary. */
  datatype Summary = Summary(
    filePath: string,
    totalIssues: nat,
    errors: nat,
    warnings: nat,
    info: nat,
    issues: seq<Issue>,
    summary: string)

  /** len([i for i in issues if i['severity'] == sev]). */
  function CountSeverity(issues: seq<Issue>, sev: Severity): (r: nat)
    ensures r <= |issues|
  {
    if issues == [] then 0
    else CountSeverity(issues[..|issues| - 1], sev) + (if issues[|issues| - 1].severity == sev then 1 else 0)
  }

  /** The positions of issues holding an issue of severity sev. */
  function SeverityPositions(issues: seq<Issue>, sev: Severity): set<int> {
    set i | 0 <= i < |issues| && issues[i].severity == sev
  }

  /** The count is the number of positions holding an issue of that severity. */
  lemma {:induction false} CountIsFilter(issues: seq<Issue>, sev: Severity)
    ensures CountSeverity(issues, sev) == |SeverityPositions(issues, sev)|
  {
    if issues != [] {
      CountIsFilter(issues[..|issues| - 1], sev);
      PositionsSnoc(issues, sev);
    }
  }

  /** The positions in a non-empty sequence: those of all but the last, and the last
      when it has the severity. */
  lemma PositionsSnoc(issues: seq<Issue>, sev: Severity)
    requires issues != []
    ensures var A, last := SeverityPositions(issues[..|issues| - 1], sev), |issues| - 1;
            && last !in A
            && SeverityPositions(issues, sev) == if issues[last].severity == sev then A + {last} else A
  {
  }

  /** Counting the severities of two runs of issues one after the other. */
  lemma {:induction false} CountConcat(a: seq<Issue>, b: seq<Issue>, sev: Severity)
    ensures CountSeverity(a + b, sev) == CountSeverity(a, sev) + CountSeverity(b, sev)
    decreases |b|
  {
    if b != [] {
      var b' := b[..|b| - 1];
      assert (a + b)[..|a + b| - 1] == a + b';
      assert (a + b)[|a + b| - 1] == b[|b| - 1];
      CountConcat(a, b', sev);
    } else {
      assert a + b == a;
    }
  }

  /** Every issue has exactly one of the three severities, so the three counts add up to
      the total. */
  lemma {:induction false} CountsAddUp(issues: seq<Issue>)
    ensures CountSeverity(issues, Error) + CountSeverity(issues, Warning) + CountSeverity(issues, Info) == |issues|
  {
    if issues != [] {
      CountsAddUp(issues[..|issues| - 1]);
    }
  }

  /** The counts depend only on which issues there are, not on their order: the sort in
      validate_all does not change them. */
  lemma {:induction false} CountByMultiset(a: seq<Issue>, b: seq<Issue>, sev: Severity)
    requires multiset(a) == multiset(b)
    ensures CountSeverity(a, sev) == CountSeverity(b, sev)
    decreases |a|
  {
    if a != [] {
      var x := a[|a| - 1];
      var a' := a[..|a| - 1];
      assert a == a' + [x];
      assert x in multiset(b);
      var k :| 0 <= k < |b| && b[k] == x;
      var b' := b[..k] + b[k + 1..];
      assert b == b[..k] + [x] + b[k + 1..];
      assert multiset(b) == multiset(b[..k]) + multiset{x} + multiset(b[k + 1..]);
      assert multiset(a) == multiset(a') + multiset{x};
      assert multiset(b') == multiset(b[..k]) + multiset(b[k + 1..]);
      assert multiset(a') == multiset(a) - multiset{x};
      assert multiset(b') == multiset(b) - multiset{x};
      CountByMultiset(a', b', sev);
      CountConcat(b[..k], [x], sev);
      CountConcat(b[..k] + [x], b[k + 1..], sev);
      CountConcat(b[..k], b[k + 1..], sev);
      CountConcat(a', [x], sev);
    }
  }

  /** The dictionary validate_markdown_file returns for the issues of file_path. */
  function Summarize(filePath: string, issues: seq<Issue>): (r: Summary)
    ensures r.filePath == filePath && r.issues == issues && r.totalIssues == |issues|
    ensures r.errors == CountSeverity(issues, Error) && r.warnings == CountSeverity(issues, Warning)
            && r.info == CountSeverity(issues, Info)
    ensures r.errors + r.warnings + r.info == r.totalIssues
  {
    var e, w, i := CountSeverity(issues, Error), CountSeverity(issues, Warning), CountSeverity(issues, Info);
    CountsAddUp(issues);
    Summary(filePath, |issues|, e, w, i, issues,
            "Found " + NatToString(e) + " errors, " + NatToString(w) + " warnings, and "
            + NatToString(i) + " info messages")
  }

  /** The counts are those of the issues before the sort. */
  lemma SummaryIgnoresOrder(filePath: string, issues: seq<Issue>)
    ensures var r := Summarize(filePath, SortByLine(issues));
            && r.errors == CountSeverity(issues, Error)
            && r.warnings == CountSeverity(issues, Warning)
            && r.info == CountSeverity(issues, Info)
  {
    SortPermutes(issues);
    CountByMultiset(SortByLine(issues), issues, Error);
    CountByMultiset(SortByLine(issues), issues, Warning);
    CountByMultiset(SortByLine(issues), issues, Info);
  }
}
