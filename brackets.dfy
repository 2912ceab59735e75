/** A hand-written scanner for the three bracket-pair regexes of the validator and for
    re.finditer over them:
      inline link     \[([^\]]*)\]\(([^)]*)\)
      image           !\[([^\]]*)\]\(([^)]*)\)
      reference link  \[([^\]]+)\]\[([^\]]*)\]
    Each is an opener, a first group that runs to the first `]`, a second opening
    character, and a second group that runs to the first closing character. */
module Brackets {
  import opened Text
  import opened Wrappers

  datatype Shape = Shape(opener: string, minFirst: nat, open2: char, close2: char)

  const InlineLink: Shape := Shape("[", 0, '(', ')')
  const Image: Shape := Shape("![", 0, '(', ')')
  const ReferenceLink: Shape := Shape("[", 1, '[', ']')

  /** One regex match: line[start..end] is group(0); first and second are groups 1 and 2. */
  datatype Match = Match(start: nat, end: nat, first: string, second: string)

  /** The text m describes is a word of the shape's regular language: opener, first
      group without `]`, `]`, the second opening character, second group without the
      closing character, the closing character. */
  predicate IsMatch(line: string, p: Shape, m: Match) {
    var f := m.start + |p.opener|;
    var j := f + |m.first|;
    var k := j + 2 + |m.second|;
    && m.end == k + 1 <= |line|
    && line[m.start..f] == p.opener
    && line[f..j] == m.first && ']' !in m.first && |m.first| >= p.minFirst
    && line[j] == ']' && line[j + 1] == p.open2
    && line[j + 2..k] == m.second && p.close2 !in m.second
    && line[k] == p.close2
  }

  /** group(0) of a match, written out. */
  lemma MatchText(line: string, p: Shape, m: Match)
    requires IsMatch(line, p, m)
    ensures line[m.start..m.end] == p.opener + m.first + "]" + [p.open2] + m.second + [p.close2]
  {
    var f := m.start + |p.opener|;
    var j := f + |m.first|;
    var k := j + 2 + |m.second|;
    Pieces(line, m.start, f, j, k);
    assert line[j..j + 1] == "]";
    assert line[j + 1..j + 2] == [p.open2];
    assert line[k..k + 1] == [p.close2];
  }

  /** s[a..k + 1] cut at f, j, j + 1, j + 2 and k. */
  lemma Pieces(s: string, a: nat, f: nat, j: nat, k: nat)
    requires a <= f <= j && j + 2 <= k < |s|
    ensures s[a..k + 1] == s[a..f] + s[f..j] + s[j..j + 1] + s[j + 1..j + 2] + s[j + 2..k] + s[k..k + 1]
  {
    SliceAt(s, a, k, k + 1);
    SliceAt(s, a, j + 2, k);
    SliceAt(s, a, j + 1, j + 2);
    SliceAt(s, a, j, j + 1);
    SliceAt(s, a, f, j);
  }

  /** re.match of the shape's regex at position s (the backtracking search has a single
      candidate, because each group must stop at the first character it excludes). */
  function MatchAt(line: string, s: nat, p: Shape): (r: Option<Match>)
    ensures r.Some? ==> r.value.start == s < r.value.end <= |line|
  {
    var f := s + |p.opener|;
    if f <= |line| && line[s..f] == p.opener then
      var j := IndexFrom(line, f, ']');
      if j - f >= p.minFirst && j + 1 < |line| && line[j + 1] == p.open2 then
        var k := IndexFrom(line, j + 2, p.close2);
        if k < |line| then
          Some(Match(s, k + 1, line[f..j], line[j + 2..k]))
        else None
      else None
    else None
  }

  /** The scanner reports only words of the language: it agrees with the regex. */
  lemma MatchAtSound(line: string, s: nat, p: Shape)
    ensures MatchAt(line, s, p).Some? ==> IsMatch(line, p, MatchAt(line, s, p).value)
  {
    var f := s + |p.opener|;
    if MatchAt(line, s, p).Some? {
      var j := IndexFrom(line, f, ']');
      var k := IndexFrom(line, j + 2, p.close2);
      var m := MatchAt(line, s, p).value;
      assert m == Match(s, k + 1, line[f..j], line[j + 2..k]);
      IndexFromSkips(line, f, ']');
      IndexFromSkips(line, j + 2, p.close2);
      assert ']' !in m.first by {
        forall i | 0 <= i < |m.first| ensures m.first[i] != ']' { assert m.first[i] == line[f + i]; }
      }
      assert p.close2 !in m.second by {
        forall i | 0 <= i < |m.second| ensures m.second[i] != p.close2 { assert m.second[i] == line[j + 2 + i]; }
      }
    }
  }

  /** The scanner finds every word of the language that starts at s: it agrees with the regex. */
  lemma MatchAtComplete(line: string, p: Shape, m: Match)
    requires IsMatch(line, p, m)
    ensures MatchAt(line, m.start, p) == Some(m)
  {
    var f := m.start + |p.opener|;
    var j := f + |m.first|;
    var k := j + 2 + |m.second|;
    forall i | f <= i < j ensures line[i] != ']' {
      assert line[i] == line[f..j][i - f];
    }
    IndexFromIs(line, f, ']', j);
    forall i | j + 2 <= i < k ensures line[i] != p.close2 {
      assert line[i] == line[j + 2..k][i - j - 2];
    }
    IndexFromIs(line, j + 2, p.close2, k);
  }

  /** re.match tried at every position of the line. */
  function Candidates(line: string, p: Shape): (r: seq<Option<Match>>)
    ensures |r| == |line|
  {
    seq(|line|, i requires 0 <= i < |line| => MatchAt(line, i, p))
  }

  /** A candidate at position i starts there and ends after it, within the line. */
  predicate Forward(ms: seq<Option<Match>>) {
    forall i :: 0 <= i < |ms| && ms[i].Some? ==> ms[i].value.start == i < ms[i].value.end <= |ms|
  }

  lemma CandidatesForward(line: string, p: Shape)
    ensures Forward(Candidates(line, p))
  {
  }

  /** The finditer walk over the candidates from pos: a candidate is reported and the walk
      resumes at its end; a position without one is skipped. */
  function Scan(ms: seq<Option<Match>>, pos: nat): (r: seq<Match>)
    requires Forward(ms) && pos <= |ms|
    decreases |ms| - pos
  {
    if pos == |ms| then []
    else
      match ms[pos]
      case Some(m) => [m] + Scan(ms, m.end)
      case None => Scan(ms, pos + 1)
  }

  /** Everything the walk reports from pos on is a candidate at or after pos. */
  lemma {:induction false} ScanFrom(ms: seq<Option<Match>>, pos: nat)
    requires Forward(ms) && pos <= |ms|
    ensures forall i :: 0 <= i < |Scan(ms, pos)| ==>
              var m := Scan(ms, pos)[i];
              pos <= m.start < |ms| && ms[m.start] == Some(m)
    decreases |ms| - pos
  {
    if pos < |ms| {
      match ms[pos]
      case Some(m) =>
        var rest := Scan(ms, m.end);
        ScanFrom(ms, m.end);
        var r := [m] + rest;
        forall i | 0 <= i < |r| ensures pos <= r[i].start < |ms| && ms[r[i].start] == Some(r[i]) {
          if i > 0 {
            assert r[i] == rest[i - 1];
          }
        }
      case None =>
        ScanFrom(ms, pos + 1);
    }
  }

  /** re.finditer from position pos: leftmost matches, each search resuming where the
      previous match ended. */
  function FindAllFrom(line: string, p: Shape, pos: nat): (r: seq<Match>)
    requires pos <= |line|
  {
    CandidatesForward(line, p);
    Scan(Candidates(line, p), pos)
  }

  /** Every match re.finditer reports from pos on is the regex's match at its own start. */
  lemma FindAllFromAt(line: string, p: Shape, pos: nat)
    requires pos <= |line|
    ensures forall i :: 0 <= i < |FindAllFrom(line, p, pos)| ==>
              var m := FindAllFrom(line, p, pos)[i];
              pos <= m.start < |line| && MatchAt(line, m.start, p) == Some(m)
  {
    CandidatesForward(line, p);
    ScanFrom(Candidates(line, p), pos);
  }

  /** re.finditer over the whole line. */
  function FindAll(line: string, p: Shape): (r: seq<Match>)
    ensures forall i :: 0 <= i < |r| ==> r[i].start < r[i].end <= |line|
  {
    FindAllFromAt(line, p, 0);
    FindAllFrom(line, p, 0)
  }

  /** Matches left to right along the line, none overlapping a later one. */
  predicate Ordered(r: seq<Match>) {
    forall i, k :: 0 <= i < k < |r| ==> r[i].end <= r[k].start
  }

  lemma ConsOrdered(m: Match, rest: seq<Match>)
    requires Ordered(rest)
    requires forall i :: 0 <= i < |rest| ==> m.end <= rest[i].start
    ensures Ordered([m] + rest)
  {
    var r := [m] + rest;
    forall i, k | 0 <= i < k < |r| ensures r[i].end <= r[k].start {
      assert r[k] == rest[k - 1];
      if i > 0 {
        assert r[i] == rest[i - 1];
      }
    }
  }

  /** The walk reports its candidates in order. */
  lemma {:induction false} ScanOrdered(ms: seq<Option<Match>>, pos: nat)
    requires Forward(ms) && pos <= |ms|
    ensures Ordered(Scan(ms, pos))
    decreases |ms| - pos
  {
    if pos < |ms| {
      match ms[pos]
      case Some(m) =>
        ScanOrdered(ms, m.end);
        ScanFrom(ms, m.end);
        ConsOrdered(m, Scan(ms, m.end));
      case None =>
        ScanOrdered(ms, pos + 1);
    }
  }

  /** re.finditer over the whole line reports its matches left to right, disjoint. */
  lemma FindAllOrdered(line: string, p: Shape)
    ensures Ordered(FindAll(line, p))
  {
    CandidatesForward(line, p);
    ScanOrdered(Candidates(line, p), 0);
  }

  /** Everything re.finditer reports on the line is a word of the shape's language. */
  lemma FindAllMatches(line: string, p: Shape)
    ensures forall i :: 0 <= i < |FindAll(line, p)| ==> IsMatch(line, p, FindAll(line, p)[i])
  {
    FindAllFromAt(line, p, 0);
    var r := FindAll(line, p);
    forall i | 0 <= i < |r| ensures IsMatch(line, p, r[i]) {
      MatchAtSound(line, r[i].start, p);
    }
  }

  /** The walk skips no candidate: every candidate position from pos on is the start of
      a reported match or lies inside one. */
  lemma {:induction false} ScanCovers(ms: seq<Option<Match>>, pos: nat, s: nat)
    requires Forward(ms) && pos <= s < |ms| && ms[s].Some?
    ensures exists i :: 0 <= i < |Scan(ms, pos)| && Scan(ms, pos)[i].start <= s < Scan(ms, pos)[i].end
    decreases |ms| - pos
  {
    match ms[pos]
    case Some(m) =>
      var rest := Scan(ms, m.end);
      assert Scan(ms, pos) == [m] + rest;
      if s >= m.end {
        ScanCovers(ms, m.end, s);
        var i :| 0 <= i < |rest| && rest[i].start <= s < rest[i].end;
        assert Scan(ms, pos)[i + 1] == rest[i];
      } else {
        assert Scan(ms, pos)[0] == m;
      }
    case None =>
      assert s != pos;
      ScanCovers(ms, pos + 1, s);
      assert Scan(ms, pos) == Scan(ms, pos + 1);
  }

  /** No match is skipped: every position from pos on where the pattern matches is the
      start of a reported match or lies inside one. */
  lemma FindAllCovers(line: string, p: Shape, pos: nat, s: nat)
    requires pos <= s < |line|
    requires MatchAt(line, s, p).Some?
    ensures exists i :: 0 <= i < |FindAllFrom(line, p, pos)| &&
              FindAllFrom(line, p, pos)[i].start <= s < FindAllFrom(line, p, pos)[i].end
  {
    CandidatesForward(line, p);
    assert Candidates(line, p)[s] == MatchAt(line, s, p);
    ScanCovers(Candidates(line, p), pos, s);
    assert FindAllFrom(line, p, pos) == Scan(Candidates(line, p), pos);
  }

  /** Every `![alt](url)` also holds a word of the inline-link language one position
      later, with the same two groups: images pass through the link checks as well. */
  lemma ImageIsInlineLink(line: string, m: Match)
    requires IsMatch(line, Image, m)
    ensures MatchAt(line, m.start + 1, InlineLink) == Some(Match(m.start + 1, m.end, m.first, m.second))
  {
    var m' := Match(m.start + 1, m.end, m.first, m.second);
    assert line[m.start + 1..m.start + 2] == line[m.start..m.start + 2][1..];
    assert IsMatch(line, InlineLink, m');
    MatchAtComplete(line, InlineLink, m');
  }
}
