/** The final `issues.sort(key=lambda x: x.line_number)`: a stable sort by line number. */
module Sorting {
  import opened Issues

  predicate SortedByLine(s: seq<Issue>) {
    forall i, j :: 0 <= i < j < |s| ==> s[i].line <= s[j].line
  }

  /** Places x after every element whose line is not greater than x's. */
  function InsertByLine(s: seq<Issue>, x: Issue): (r: seq<Issue>)
    ensures |r| == |s| + 1
    decreases |s|
  {
    if s == [] || s[|s| - 1].line <= x.line then s + [x]
    else
      assert s == s[..|s| - 1] + [s[|s| - 1]];
      InsertByLine(s[..|s| - 1], x) + [s[|s| - 1]]
  }

  /** Sorts by line number; elements on the same line keep their relative order. */
  function SortByLine(s: seq<Issue>): (r: seq<Issue>)
    ensures |r| == |s|
    decreases |s|
  {
    if s == [] then []
    else InsertByLine(SortByLine(s[..|s| - 1]), s[|s| - 1])
  }

  /** Inserting adds x and loses nothing. */
  lemma {:induction false} InsertPermutes(s: seq<Issue>, x: Issue)
    ensures multiset(InsertByLine(s, x)) == multiset(s) + multiset{x}
    decreases |s|
  {
    if s != [] && s[|s| - 1].line > x.line {
      var init, y := s[..|s| - 1], s[|s| - 1];
      assert s == init + [y];
      InsertPermutes(init, x);
    }
  }

  /** The sort is a permutation: the same issues, each as often as before. */
  lemma {:induction false} SortPermutes(s: seq<Issue>)
    ensures multiset(SortByLine(s)) == multiset(s)
    decreases |s|
  {
    if s != [] {
      var init, y := s[..|s| - 1], s[|s| - 1];
      assert s == init + [y];
      SortPermutes(init);
      InsertPermutes(SortByLine(init), y);
    }
  }

  lemma {:induction false} InsertSorted(s: seq<Issue>, x: Issue)
    requires SortedByLine(s)
    ensures SortedByLine(InsertByLine(s, x))
    decreases |s|
  {
    if s != [] && s[|s| - 1].line > x.line {
      var init, y := s[..|s| - 1], s[|s| - 1];
      InsertSorted(init, x);
      var r' := InsertByLine(init, x);
      InsertPermutes(init, x);
      forall i | 0 <= i < |r'| ensures r'[i].line <= y.line {
        assert r'[i] in multiset(r');
        if r'[i] != x {
          assert r'[i] in multiset(init);
          var k :| 0 <= k < |init| && init[k] == r'[i];
          assert s[k] == init[k];
        }
      }
    }
  }

  /** The result of SortByLine is sorted. */
  lemma {:induction false} SortSorted(s: seq<Issue>)
    ensures SortedByLine(SortByLine(s))
    decreases |s|
  {
    if s != [] {
      SortSorted(s[..|s| - 1]);
      InsertSorted(SortByLine(s[..|s| - 1]), s[|s| - 1]);
    }
  }

  lemma OnLineSnoc(s: seq<Issue>, e: Issue, n: nat)
    ensures OnLine(s + [e], n) == OnLine(s, n) + (if e.line == n then [e] else [])
  {
    OnLineConcat(s, [e], n);
    assert [e][1..] == [];
  }

  /** Inserting x changes the issues of no line except x's, where x comes last. */
  lemma {:induction false} InsertOnLine(s: seq<Issue>, x: Issue, n: nat)
    requires SortedByLine(s)
    ensures OnLine(InsertByLine(s, x), n) == OnLine(s, n) + (if x.line == n then [x] else [])
    decreases |s|
  {
    if s == [] || s[|s| - 1].line <= x.line {
      OnLineSnoc(s, x, n);
    } else {
      var init, y := s[..|s| - 1], s[|s| - 1];
      assert s == init + [y];
      SortedInit(s);
      InsertOnLine(init, x, n);
      assert InsertByLine(s, x) == InsertByLine(init, x) + [y];
      OnLineSnoc(InsertByLine(init, x), y, n);
      OnLineSnoc(init, y, n);
      SwapSingles(OnLine(init, n), x, y, n);
    }
  }

  /** At most one of two issues on different lines is about line n, so their order does not matter. */
  lemma SwapSingles(I: seq<Issue>, x: Issue, y: Issue, n: nat)
    requires x.line != y.line
    ensures var X, Y := (if x.line == n then [x] else []), (if y.line == n then [y] else []);
            I + X + Y == I + Y + X
  {
    if x.line == n {
      assert I + [x] + [] == I + [] + [x];
    } else if y.line == n {
      assert I + [] + [y] == I + [y] + [];
    }
  }

  /** Stability: for every line, the issues about it appear in the same order as before sorting. */
  lemma {:induction false} SortStable(s: seq<Issue>, n: nat)
    ensures OnLine(SortByLine(s), n) == OnLine(s, n)
    decreases |s|
  {
    if s != [] {
      var init, x := s[..|s| - 1], s[|s| - 1];
      assert s == init + [x];
      SortStable(init, n);
      SortSorted(init);
      InsertOnLine(SortByLine(init), x, n);
      OnLineSnoc(init, x, n);
    }
  }

  /** The last issue of a non-empty sequence is among the issues about its line. */
  lemma OnLineLast(s: seq<Issue>)
    requires s != []
    ensures OnLine(s, s[|s| - 1].line) != []
  {
    var x := s[|s| - 1];
    assert s == s[..|s| - 1] + [x];
    OnLineSnoc(s[..|s| - 1], x, x.line);
  }

  /** In a sorted sequence, a line that has issues is not beyond the last issue's line. */
  lemma {:induction false} OnLineBound(s: seq<Issue>, n: nat)
    requires SortedByLine(s) && OnLine(s, n) != []
    ensures s != [] && n <= s[|s| - 1].line
    decreases |s|
  {
    if s != [] && s[0].line != n {
      assert OnLine(s, n) == OnLine(s[1..], n);
      assert SortedByLine(s[1..]) by {
        forall i, j | 0 <= i < j < |s[1..]| ensures s[1..][i].line <= s[1..][j].line {
          assert s[1..][i] == s[i + 1] && s[1..][j] == s[j + 1];
        }
      }
      OnLineBound(s[1..], n);
      assert s[1..][|s[1..]| - 1] == s[|s| - 1];
    }
  }

  lemma SortedInit(s: seq<Issue>)
    requires SortedByLine(s) && s != []
    ensures SortedByLine(s[..|s| - 1])
  {
    var init := s[..|s| - 1];
    forall i, j | 0 <= i < j < |init| ensures init[i].line <= init[j].line {
      assert init[i] == s[i] && init[j] == s[j];
    }
  }

  /** Sorted sequences that agree line by line end on the same line. */
  lemma SameLastLine(a: seq<Issue>, b: seq<Issue>)
    requires SortedByLine(a) && SortedByLine(b) && a != [] && b != []
    requires OnLine(a, a[|a| - 1].line) == OnLine(b, a[|a| - 1].line)
    requires OnLine(a, b[|b| - 1].line) == OnLine(b, b[|b| - 1].line)
    ensures a[|a| - 1].line == b[|b| - 1].line
  {
    OnLineLast(a);
    OnLineBound(b, a[|a| - 1].line);
    OnLineLast(b);
    OnLineBound(a, b[|b| - 1].line);
  }

  /** Sorted sequences that agree line by line end with the same issue. */
  lemma SameLast(a: seq<Issue>, x: Issue, b: seq<Issue>, y: Issue)
    requires SortedByLine(a + [x]) && SortedByLine(b + [y])
    requires OnLine(a + [x], x.line) == OnLine(b + [y], x.line)
    requires OnLine(a + [x], y.line) == OnLine(b + [y], y.line)
    ensures x == y
  {
    assert (a + [x])[|a|] == x && (b + [y])[|b|] == y;
    SameLastLine(a + [x], b + [y]);
    var L := x.line;
    OnLineSnoc(a, x, L);
    OnLineSnoc(b, y, L);
    var p, q := OnLine(a, L), OnLine(b, L);
    assert p + [x] == q + [y];
    assert x == (p + [x])[|p|] == (q + [y])[|q|] == y;
  }

  /** Dropping the same last issue from two sequences keeps them in agreement on line n. */
  lemma DropLast(a: seq<Issue>, b: seq<Issue>, x: Issue, n: nat)
    requires OnLine(a + [x], n) == OnLine(b + [x], n)
    ensures OnLine(a, n) == OnLine(b, n)
  {
    OnLineSnoc(a, x, n);
    OnLineSnoc(b, x, n);
    var p, q := OnLine(a, n), OnLine(b, n);
    if x.line == n {
      assert p + [x] == q + [x];
      assert p == (p + [x])[..|p|];
      assert q == (q + [x])[..|q|];
    } else {
      assert p + [] == p;
      assert q + [] == q;
    }
  }

  /** Two sorted sequences that agree on the issues of every line are equal: a stable
      sort by line has only one possible result, whatever algorithm computes it. */
  lemma {:induction false} SortedUnique(a: seq<Issue>, b: seq<Issue>)
    requires SortedByLine(a) && SortedByLine(b)
    requires forall n: nat :: OnLine(a, n) == OnLine(b, n)
    ensures a == b
    decreases |a| + |b|
  {
    EmptyTogether(a, b);
    if a != [] {
      var a', x := a[..|a| - 1], a[|a| - 1];
      var b', y := b[..|b| - 1], b[|b| - 1];
      assert a == a' + [x];
      assert b == b' + [y];
      AgreeOnInit(a', x, b', y);
      SortedUnique(a', b');
    }
  }

  /** Sequences that agree line by line are empty together. */
  lemma EmptyTogether(a: seq<Issue>, b: seq<Issue>)
    requires forall n: nat :: OnLine(a, n) == OnLine(b, n)
    ensures a == [] <==> b == []
  {
    if a != [] {
      OnLineLast(a);
    }
    if b != [] {
      OnLineLast(b);
    }
  }

  /** Sorted sequences that agree line by line end with the same issue, and without it
      they are still sorted and still agree line by line. */
  lemma AgreeOnInit(a: seq<Issue>, x: Issue, b: seq<Issue>, y: Issue)
    requires SortedByLine(a + [x]) && SortedByLine(b + [y])
    requires forall n: nat :: OnLine(a + [x], n) == OnLine(b + [y], n)
    ensures x == y
    ensures SortedByLine(a) && SortedByLine(b)
    ensures forall n: nat :: OnLine(a, n) == OnLine(b, n)
  {
    SameLast(a, x, b, y);
    forall n: nat ensures OnLine(a, n) == OnLine(b, n) {
      DropLast(a, b, x, n);
    }
    SortedInit(a + [x]);
    SortedInit(b + [y]);
    assert (a + [x])[..|a + [x]| - 1] == a;
    assert (b + [y])[..|b + [y]| - 1] == b;
  }

  /** Sorting an already sorted sequence changes nothing. */
  lemma SortIdempotent(s: seq<Issue>)
    requires SortedByLine(s)
    ensures SortByLine(s) == s
  {
    SortSorted(s);
    forall n: nat ensures OnLine(SortByLine(s), n) == OnLine(s, n) {
      SortStable(s, n);
    }
    SortedUnique(SortByLine(s), s);
  }
}
