/** The ValidationIssue record and the sequences of issues the checkers append to. */
module Issues {

  datatype Severity = Error | Warning | Info

  /** The issue_type tags the validator emits. */
  datatype IssueKind =
    | FileError
    | HeaderFormat | EmptyHeader | HeaderHierarchy | TrailingHashes
    | EmptyLinkText | EmptyUrl | UndefinedReference
    | BrokenLocalLink | InvalidUrlFormat | BrokenExternalLink | LinkTimeout
    | UnmatchedBackticks | UnclosedCodeBlock
    | InconsistentIndent | EmptyListItem
    | MissingAltText | EmptyImageUrl | MissingImage
    | UnmatchedBold
    | TableColumnMismatch

  /** One finding: line 0 is file-level, otherwise the 1-based line it is about. */
  datatype Issue = Issue(
    line: nat,
    kind: IssueKind,
    severity: Severity,
    description: string,
    originalText: string,
    suggestedFix: string)

  /** The string stored in the issue_type field. */
  function KindName(k: IssueKind): string {
    match k
    case FileError => "file_error"
    case HeaderFormat => "header_format"
    case EmptyHeader => "empty_header"
    case HeaderHierarchy => "header_hierarchy"
    case TrailingHashes => "trailing_hashes"
    case EmptyLinkText => "empty_link_text"
    case EmptyUrl => "empty_url"
    case UndefinedReference => "undefined_reference"
    case BrokenLocalLink => "broken_local_link"
    case InvalidUrlFormat => "invalid_url_format"
    case BrokenExternalLink => "broken_external_link"
    case LinkTimeout => "link_timeout"
    case UnmatchedBackticks => "unmatched_backticks"
    case UnclosedCodeBlock => "unclosed_code_block"
    case InconsistentIndent => "inconsistent_indent"
    case EmptyListItem => "empty_list_item"
    case MissingAltText => "missing_alt_text"
    case EmptyImageUrl => "empty_image_url"
    case MissingImage => "missing_image"
    case UnmatchedBold => "unmatched_bold"
    case TableColumnMismatch => "table_column_mismatch"
  }

  /** The string stored in the severity field. */
  function SeverityName(s: Severity): string {
    match s
    case Error => "error"
    case Warning => "warning"
    case Info => "info"
  }

  /** Every issue of s is about line n. */
  predicate AllOnLine(s: seq<Issue>, n: nat) {
    forall i :: 0 <= i < |s| ==> s[i].line == n
  }

  /** The issues of s about line n, in their order in s. */
  function OnLine(s: seq<Issue>, n: nat): (r: seq<Issue>)
    ensures AllOnLine(r, n)
    ensures |r| <= |s|
  {
    if s == [] then []
    else (if s[0].line == n then [s[0]] else []) + OnLine(s[1..], n)
  }

  lemma {:induction false} OnLineConcat(a: seq<Issue>, b: seq<Issue>, n: nat)
    ensures OnLine(a + b, n) == OnLine(a, n) + OnLine(b, n)
    decreases |a|
  {
    if a != [] {
      assert (a + b)[1..] == a[1..] + b;
      OnLineConcat(a[1..], b, n);
    } else {
      assert a + b == b;
    }
  }

  /** Selecting line n keeps all of a sequence about line m when n == m and none otherwise. */
  lemma {:induction false} OnLineUniform(s: seq<Issue>, m: nat, n: nat)
    requires AllOnLine(s, m)
    ensures OnLine(s, n) == if n == m then s else []
    decreases |s|
  {
    if s != [] {
      OnLineUniform(s[1..], m, n);
      assert s == [s[0]] + s[1..];
    }
  }

  /** Every issue of s is about line n and quotes text as its original text. */
  predicate About(s: seq<Issue>, n: nat, text: string) {
    forall i :: 0 <= i < |s| ==> s[i].line == n && s[i].originalText == text
  }

  /** r is empty or a single issue of kind k about line n quoting text: what each
      individual check appends. */
  predicate AtMostOne(r: seq<Issue>, n: nat, text: string, k: IssueKind) {
    |r| <= 1 && (r != [] ==> r[0].line == n && r[0].originalText == text && r[0].kind == k)
  }

  lemma SingleAbout(r: seq<Issue>, n: nat, text: string)
    requires |r| <= 1 && (r != [] ==> r[0].line == n && r[0].originalText == text)
    ensures About(r, n, text)
  {
  }

  lemma AtMostOneAbout(r: seq<Issue>, n: nat, text: string, k: IssueKind)
    requires AtMostOne(r, n, text, k)
    ensures About(r, n, text) && AllOfKind(r, k)
  {
  }

  /** Issues about line n and some text are about line n. */
  lemma AboutOnLine(s: seq<Issue>, n: nat, text: string)
    requires About(s, n, text)
    ensures AllOnLine(s, n)
  {
  }

  lemma AboutConcat(a: seq<Issue>, b: seq<Issue>, n: nat, text: string)
    requires About(a, n, text) && About(b, n, text)
    ensures About(a + b, n, text)
  {
  }

  /** Some issue of s has kind k. */
  predicate HasKind(s: seq<Issue>, k: IssueKind) {
    exists i :: 0 <= i < |s| && s[i].kind == k
  }

  /** A concatenation has an issue of kind k when one of its parts does. */
  lemma HasKindConcat(a: seq<Issue>, b: seq<Issue>, k: IssueKind)
    ensures HasKind(a + b, k) <==> HasKind(a, k) || HasKind(b, k)
  {
    if HasKind(a + b, k) {
      var i :| 0 <= i < |a + b| && (a + b)[i].kind == k;
      if i < |a| {
        assert a[i] == (a + b)[i];
      } else {
        assert b[i - |a|] == (a + b)[i];
      }
    }
    if HasKind(a, k) {
      var i :| 0 <= i < |a| && a[i].kind == k;
      assert (a + b)[i] == a[i];
    }
    if HasKind(b, k) {
      var i :| 0 <= i < |b| && b[i].kind == k;
      assert (a + b)[|a| + i] == b[i];
    }
  }

  /** At most one issue: it has kind k exactly when it is there and of kind k. */
  lemma HasKindOne(r: seq<Issue>, k: IssueKind)
    requires |r| <= 1
    ensures HasKind(r, k) <==> r != [] && r[0].kind == k
  {
    if r != [] && r[0].kind == k {
      assert r[0].kind == k;
    }
  }

  /** The issues of s of kind k, in their order in s. */
  function OfKind(s: seq<Issue>, k: IssueKind): (r: seq<Issue>)
    ensures forall i :: 0 <= i < |r| ==> r[i].kind == k
    ensures |r| <= |s|
  {
    if s == [] then []
    else (if s[0].kind == k then [s[0]] else []) + OfKind(s[1..], k)
  }

  lemma {:induction false} OfKindConcat(a: seq<Issue>, b: seq<Issue>, k: IssueKind)
    ensures OfKind(a + b, k) == OfKind(a, k) + OfKind(b, k)
    decreases |a|
  {
    if a != [] {
      var x := if a[0].kind == k then [a[0]] else [];
      assert (a + b)[1..] == a[1..] + b;
      OfKindConcat(a[1..], b, k);
      AppendAssoc(x, OfKind(a[1..], k), OfKind(b, k));
    } else {
      assert a + b == b;
    }
  }

  /** Every issue of s has kind k. */
  predicate AllOfKind(s: seq<Issue>, k: IssueKind) {
    forall i :: 0 <= i < |s| ==> s[i].kind == k
  }

  lemma AllOfKindConcat(a: seq<Issue>, b: seq<Issue>, k: IssueKind)
    requires AllOfKind(a, k) && AllOfKind(b, k)
    ensures AllOfKind(a + b, k)
  {
  }

  /** A checker's output over the first k lines: what line 1 contributes, then line 2,
      and so on up to line k. */
  function Gather(f: nat -> seq<Issue>, k: nat): seq<Issue>
    decreases k
  {
    if k == 0 then [] else Gather(f, k - 1) + f(k)
  }

  /** Concatenation regroups. */
  lemma AppendAssoc(a: seq<Issue>, b: seq<Issue>, c: seq<Issue>)
    ensures (a + b) + c == a + (b + c)
  {
  }

  /** Appending seven runs one by one to b is appending their concatenation. */
  lemma AppendSeven(b: seq<Issue>, s1: seq<Issue>, s2: seq<Issue>, s3: seq<Issue>, s4: seq<Issue>,
                    s5: seq<Issue>, s6: seq<Issue>, s7: seq<Issue>)
    ensures b + s1 + s2 + s3 + s4 + s5 + s6 + s7 == b + (s1 + s2 + s3 + s4 + s5 + s6 + s7)
  {
  }

  /** The issues about line n in b followed by seven runs: those of b, then those of each run. */
  lemma OnLineSeven(b: seq<Issue>, s1: seq<Issue>, s2: seq<Issue>, s3: seq<Issue>, s4: seq<Issue>,
                    s5: seq<Issue>, s6: seq<Issue>, s7: seq<Issue>, n: nat)
    ensures OnLine(b + (s1 + s2 + s3 + s4 + s5 + s6 + s7), n)
            == OnLine(b, n) + (OnLine(s1, n) + OnLine(s2, n) + OnLine(s3, n) + OnLine(s4, n)
                               + OnLine(s5, n) + OnLine(s6, n) + OnLine(s7, n))
  {
    OnLineConcat(b, s1 + s2 + s3 + s4 + s5 + s6 + s7, n);
    OnLineConcat(s1 + s2 + s3 + s4 + s5 + s6, s7, n);
    OnLineConcat(s1 + s2 + s3 + s4 + s5, s6, n);
    OnLineConcat(s1 + s2 + s3 + s4, s5, n);
    OnLineConcat(s1 + s2 + s3, s4, n);
    OnLineConcat(s1 + s2, s3, n);
    OnLineConcat(s1, s2, n);
  }

  /** Appending line k + 1's contribution to what came before and the first k lines. */
  lemma GatherNext(base: seq<Issue>, f: nat -> seq<Issue>, k: nat)
    ensures (base + Gather(f, k)) + f(k + 1) == base + Gather(f, k + 1)
  {
    AppendAssoc(base, Gather(f, k), f(k + 1));
  }

  /** When each line's contribution is about that line only, the issues about line n in
      the whole output are exactly line n's contribution. */
  lemma {:induction false} OnLineGather(f: nat -> seq<Issue>, k: nat, n: nat)
    requires forall j :: 1 <= j <= k ==> AllOnLine(f(j), j)
    ensures OnLine(Gather(f, k), n) == if 1 <= n <= k then f(n) else []
    decreases k
  {
    if k > 0 {
      OnLineGather(f, k - 1, n);
      OnLineConcat(Gather(f, k - 1), f(k), n);
      OnLineUniform(f(k), k, n);
    }
  }

  /** Contributions that are all about line n gather into output about line n. */
  lemma {:induction false} GatherAllOnLine(f: nat -> seq<Issue>, k: nat, n: nat)
    requires forall j :: 1 <= j <= k ==> AllOnLine(f(j), n)
    ensures AllOnLine(Gather(f, k), n)
    decreases k
  {
    if k > 0 {
      GatherAllOnLine(f, k - 1, n);
    }
  }

  /** If every line contributes only kind k, the whole output has only kind k. */
  lemma {:induction false} GatherAllOfKind(f: nat -> seq<Issue>, k: nat, kind: IssueKind)
    requires forall j :: 1 <= j <= k ==> AllOfKind(f(j), kind)
    ensures AllOfKind(Gather(f, k), kind)
    decreases k
  {
    if k > 0 {
      GatherAllOfKind(f, k - 1, kind);
    }
  }

  /** A sequence of one kind has no issue of any other kind. */
  lemma {:induction false} OfOtherKind(s: seq<Issue>, k: IssueKind, k': IssueKind)
    requires AllOfKind(s, k) && k' != k
    ensures OfKind(s, k') == []
    decreases |s|
  {
    if s != [] {
      OfOtherKind(s[1..], k, k');
    }
  }
}
