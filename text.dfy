/** String helpers with the meaning of the Python str methods the validator relies on. */
module Text {

  /** The code points for which Python's str.isspace() holds; the regex class \s on a
      str pattern and the argument-less str.strip() use the same set. */
  predicate IsSpace(c: char) {
    var n := c as int;
    (9 <= n <= 13) || (28 <= n <= 32) || n == 0x85 || n == 0xA0 || n == 0x1680
    || (0x2000 <= n <= 0x200A) || n == 0x2028 || n == 0x2029 || n == 0x202F
    || n == 0x205F || n == 0x3000
  }

  /** Every character is whitespace (the empty string included). */
  predicate IsBlank(s: string) {
    forall i :: 0 <= i < |s| ==> IsSpace(s[i])
  }

  /** The regex class \d, restricted to ASCII digits. */
  predicate IsDigit(c: char) {
    '0' <= c <= '9'
  }

  /** The regex class \w, restricted to ASCII letters, digits and the underscore. */
  predicate IsWordChar(c: char) {
    ('a' <= c <= 'z') || ('A' <= c <= 'Z') || IsDigit(c) || c == '_'
  }

  /** The first index at or after i that does not hold whitespace (|s| if none). */
  function SkipSpace(s: string, i: nat): (r: nat)
    requires i <= |s|
    ensures i <= r <= |s|
    ensures r < |s| ==> !IsSpace(s[r])
    decreases |s| - i
  {
    if i < |s| && IsSpace(s[i]) then SkipSpace(s, i + 1) else i
  }

  /** Everything SkipSpace skips is whitespace. */
  lemma {:induction false} SkipSpaceSkips(s: string, i: nat)
    requires i <= |s|
    ensures forall j :: i <= j < SkipSpace(s, i) ==> IsSpace(s[j])
    decreases |s| - i
  {
    if i < |s| && IsSpace(s[i]) {
      SkipSpaceSkips(s, i + 1);
    }
  }

  /** SkipSpace is the only index with its properties. */
  lemma {:induction false} SkipSpaceIs(s: string, i: nat, r: nat)
    requires i <= r <= |s|
    requires r < |s| ==> !IsSpace(s[r])
    requires forall j :: i <= j < r ==> IsSpace(s[j])
    ensures SkipSpace(s, i) == r
    decreases r - i
  {
    if i < r {
      SkipSpaceIs(s, i + 1, r);
    }
  }

  /** str.lstrip(): drop the leading whitespace. */
  function LStrip(s: string): string {
    s[SkipSpace(s, 0)..]
  }

  /** The end of s[..j] once its trailing whitespace is dropped. */
  function SkipSpaceBack(s: string, j: nat): (r: nat)
    requires j <= |s|
    ensures r <= j
    ensures r > 0 ==> !IsSpace(s[r - 1])
  {
    if j > 0 && IsSpace(s[j - 1]) then SkipSpaceBack(s, j - 1) else j
  }

  /** Everything SkipSpaceBack skips is whitespace. */
  lemma {:induction false} SkipSpaceBackSkips(s: string, j: nat)
    requires j <= |s|
    ensures forall i :: SkipSpaceBack(s, j) <= i < j ==> IsSpace(s[i])
  {
    if j > 0 && IsSpace(s[j - 1]) {
      SkipSpaceBackSkips(s, j - 1);
    }
  }

  /** SkipSpaceBack is the only index with its properties. */
  lemma SkipSpaceBackIs(s: string, j: nat, r: nat)
    requires r <= j <= |s|
    requires r > 0 ==> !IsSpace(s[r - 1])
    requires forall i :: r <= i < j ==> IsSpace(s[i])
    ensures SkipSpaceBack(s, j) == r
  {
    if j > r {
      SkipSpaceBackIs(s, j - 1, r);
    }
  }

  /** str.rstrip(): drop the trailing whitespace. */
  function RStrip(s: string): string {
    s[..SkipSpaceBack(s, |s|)]
  }

  /** str.strip(): drop whitespace at both ends. */
  function Strip(s: string): string {
    RStrip(LStrip(s))
  }

  /** strip() leaves nothing exactly when the string is blank. */
  lemma StripEmpty(s: string)
    ensures Strip(s) == [] <==> IsBlank(s)
  {
    LStripBlank(s);
    var l := LStrip(s);
    SkipSpaceBackSkips(l, |l|);
  }

  /** The end of s[..j] once its trailing run of c is dropped. */
  function SkipCharBack(s: string, j: nat, c: char): (r: nat)
    requires j <= |s|
    ensures r <= j
    ensures r > 0 ==> s[r - 1] != c
  {
    if j > 0 && s[j - 1] == c then SkipCharBack(s, j - 1, c) else j
  }

  /** Everything SkipCharBack skips is c. */
  lemma {:induction false} SkipCharBackSkips(s: string, j: nat, c: char)
    requires j <= |s|
    ensures forall i :: SkipCharBack(s, j, c) <= i < j ==> s[i] == c
  {
    if j > 0 && s[j - 1] == c {
      SkipCharBackSkips(s, j - 1, c);
    }
  }

  /** str.rstrip(c) for a single character c: drop the trailing run of c. */
  function RStripChar(s: string, c: char): string {
    s[..SkipCharBack(s, |s|, c)]
  }

  /** str.startswith(p). */
  predicate StartsWith(s: string, p: string) {
    p <= s
  }

  /** str.endswith(p). */
  predicate EndsWith(s: string, p: string) {
    |p| <= |s| && s[|s| - |p|..] == p
  }

  /** str.endswith(c) for a one-character suffix. */
  predicate EndsWithChar(s: string, c: char) {
    s != [] && s[|s| - 1] == c
  }

  /** A non-empty tail decides what a concatenation ends with. */
  lemma EndsWithCharConcat(a: string, t: string, c: char)
    requires t != []
    ensures EndsWithChar(a + t, c) <==> EndsWithChar(t, c)
  {
    assert (a + t)[|a + t| - 1] == t[|t| - 1];
  }

  /** A string is its prefix up to i followed by its suffix from i. */
  lemma SplitAt(s: string, i: nat)
    requires i <= |s|
    ensures s == s[..i] + s[i..]
  {
  }

  /** A slice is its part up to j followed by its part from j. */
  lemma SliceAt(s: string, i: nat, j: nat, k: nat)
    requires i <= j <= k <= |s|
    ensures s[i..k] == s[i..j] + s[j..k]
  {
  }

  /** The first index at or after `from` that holds c, or |s| when there is none. */
  function IndexFrom(s: string, from: nat, c: char): (r: nat)
    requires from <= |s|
    ensures from <= r <= |s|
    ensures r < |s| ==> s[r] == c
    decreases |s| - from
  {
    if from == |s| || s[from] == c then from else IndexFrom(s, from + 1, c)
  }

  /** No c lies between `from` and the index IndexFrom finds. */
  lemma {:induction false} IndexFromSkips(s: string, from: nat, c: char)
    requires from <= |s|
    ensures forall i :: from <= i < IndexFrom(s, from, c) ==> s[i] != c
    decreases |s| - from
  {
    if from < |s| && s[from] != c {
      IndexFromSkips(s, from + 1, c);
    }
  }

  /** j is the first index at or after `from` holding c. */
  lemma IndexFromIs(s: string, from: nat, c: char, j: nat)
    requires from <= j < |s| && s[j] == c
    requires forall i :: from <= i < j ==> s[i] != c
    ensures IndexFrom(s, from, c) == j
    decreases j - from
  {
    if from < j {
      IndexFromIs(s, from + 1, c, j);
    }
  }

  /** The first index at or after i that does not hold c (|s| if none). */
  function SkipChar(s: string, i: nat, c: char): (r: nat)
    requires i <= |s|
    ensures i <= r <= |s|
    ensures r < |s| ==> s[r] != c
    decreases |s| - i
  {
    if i < |s| && s[i] == c then SkipChar(s, i + 1, c) else i
  }

  /** Everything SkipChar skips is c. */
  lemma {:induction false} SkipCharSkips(s: string, i: nat, c: char)
    requires i <= |s|
    ensures forall j :: i <= j < SkipChar(s, i, c) ==> s[j] == c
    decreases |s| - i
  {
    if i < |s| && s[i] == c {
      SkipCharSkips(s, i + 1, c);
    }
  }

  /** The length of the maximal run of c at the start of s (what a greedy `c+` consumes). */
  function LeadingRun(s: string, c: char): (r: nat)
    ensures r <= |s|
    ensures r < |s| ==> s[r] != c
  {
    SkipChar(s, 0, c)
  }

  /** The leading run is made of c. */
  lemma LeadingRunSkips(s: string, c: char)
    ensures forall i :: 0 <= i < LeadingRun(s, c) ==> s[i] == c
  {
    SkipCharSkips(s, 0, c);
  }

  /** lstrip() leaves a blank remainder exactly when the string was blank. */
  lemma LStripBlank(s: string)
    ensures IsBlank(LStrip(s)) <==> IsBlank(s)
  {
    var k := SkipSpace(s, 0);
    SkipSpaceSkips(s, 0);
    assert k < |s| ==> s[k..][0] == s[k];
    assert IsBlank(s) ==> IsBlank(s[k..]) by {
      forall i | 0 <= i < |s| - k ensures s[k..][i] == s[k + i] { }
    }
  }

  /** Trailing whitespace of a + b lies in b when b is not blank. */
  lemma RStripConcat(a: string, b: string)
    requires !IsBlank(b)
    ensures RStrip(a + b) == a + RStrip(b)
  {
    var s := a + b;
    var k := SkipSpaceBack(b, |b|);
    SkipSpaceBackSkips(b, |b|);
    assert k > 0;
    assert s[|a| + k - 1] == b[k - 1];
    forall i | |a| + k <= i < |s| ensures IsSpace(s[i]) {
      assert s[i] == b[i - |a|];
    }
    SkipSpaceBackIs(s, |s|, |a| + k);
    assert s[..|a| + k] == a + b[..k];
  }

  /** s[i..i + w] is w copies of c. */
  predicate RunAt(s: string, i: nat, c: char, w: nat)
    requires i + w <= |s|
  {
    forall k :: i <= k < i + w ==> s[k] == c
  }

  /** str.count(p) and len(re.findall(p)) from index i on, for a pattern p of w copies of
      one character c: the non-overlapping occurrences found scanning from the left. */
  function CountRun(s: string, c: char, w: nat, i: nat): nat
    requires 1 <= w && i <= |s|
    decreases |s| - i
  {
    if i + w > |s| then 0
    else if RunAt(s, i, c, w) then 1 + CountRun(s, c, w, i + w)
    else CountRun(s, c, w, i + 1)
  }

  /** str.startswith(p) for a pattern p of w copies of c. */
  predicate StartsWithRun(s: string, c: char, w: nat) {
    w <= |s| && RunAt(s, 0, c, w)
  }

  /** ASCII case mapping of one character. */
  function LowerChar(c: char): char {
    if 'A' <= c <= 'Z' then (c as int + 32) as char else c
  }

  /** str.lower(), restricted to the ASCII letters. */
  function Lower(s: string): (r: string)
    ensures |r| == |s|
    ensures forall i :: 0 <= i < |s| ==> r[i] == LowerChar(s[i])
  {
    seq(|s|, i requires 0 <= i < |s| => LowerChar(s[i]))
  }

  /** Lowering twice changes nothing: ids compared after lower() are case-insensitive keys. */
  lemma LowerIdempotent(s: string)
    ensures Lower(Lower(s)) == Lower(s)
  {
  }

  /** n copies of the character c ('#' * n in Python). */
  function Repeat(c: char, n: nat): (r: string)
    ensures |r| == n
    ensures forall i :: 0 <= i < n ==> r[i] == c
  {
    seq(n, _ => c)
  }

  /** n copies of the string s (s * n in Python). */
  function RepeatString(s: string, n: nat): (r: string)
    ensures |r| == n * |s|
  {
    if n == 0 then "" else s + RepeatString(s, n - 1)
  }

  /** str.split(d) for a one-character separator d. */
  function Split(s: string, d: char): (r: seq<string>)
    ensures |r| >= 1
    ensures forall k :: 0 <= k < |r| ==> d !in r[k]
    decreases |s|
  {
    if |s| == 0 then [""]
    else
      var rest := Split(s[1..], d);
      if s[0] == d then [""] + rest
      else [[s[0]] + rest[0]] + rest[1..]
  }

  /** d.join(parts): the inverse of Split. */
  function Join(parts: seq<string>, d: char): string
    requires |parts| >= 1
    decreases |parts|
  {
    if |parts| == 1 then parts[0] else parts[0] + [d] + Join(parts[1..], d)
  }

  /** Splitting and re-joining gives back the original string. */
  lemma {:induction false} JoinSplit(s: string, d: char)
    ensures Join(Split(s, d), d) == s
    decreases |s|
  {
    if |s| > 0 {
      var rest := Split(s[1..], d);
      JoinSplit(s[1..], d);
      if s[0] == d {
        assert Split(s, d)[1..] == rest;
      } else {
        var r := Split(s, d);
        if |rest| == 1 {
          assert r == [[s[0]] + rest[0]];
        } else {
          assert r[1..] == rest[1..];
          assert Join(rest, d) == rest[0] + [d] + Join(rest[1..], d);
        }
      }
    }
  }

  /** Joining separator-free parts and splitting again gives back the parts. */
  lemma {:induction false} SplitJoin(parts: seq<string>, d: char)
    requires |parts| >= 1
    requires forall k :: 0 <= k < |parts| ==> d !in parts[k]
    ensures Split(Join(parts, d), d) == parts
    decreases |parts|, |parts[0]|
  {
    if |parts| == 1 {
      SplitNoSeparator(parts[0], d);
    } else if parts[0] == "" {
      var j := Join(parts, d);
      assert j == [d] + Join(parts[1..], d);
      assert j[1..] == Join(parts[1..], d);
      SplitJoin(parts[1..], d);
      assert Split(j, d) == [""] + parts[1..];
    } else {
      var j := Join(parts, d);
      var tail := [parts[0][1..]] + parts[1..];
      assert parts[0] == [parts[0][0]] + parts[0][1..];
      assert Join(tail, d) == parts[0][1..] + [d] + Join(parts[1..], d) by {
        assert tail[1..] == parts[1..];
      }
      assert j == [parts[0][0]] + Join(tail, d);
      assert j[1..] == Join(tail, d);
      assert j[0] == parts[0][0] && j[0] != d;
      SplitJoin(tail, d);
      assert Split(j, d) == [[parts[0][0]] + tail[0]] + tail[1..];
    }
  }

  lemma {:induction false} SplitNoSeparator(s: string, d: char)
    requires d !in s
    ensures Split(s, d) == [s]
    decreases |s|
  {
    if |s| > 0 {
      SplitNoSeparator(s[1..], d);
      assert s == [s[0]] + s[1..];
    }
  }

  function DigitChar(d: nat): char
    requires d < 10
  {
    "0123456789"[d]
  }

  /** str(n) for a non-negative integer: its decimal digits. */
  function NatToString(n: nat): (r: string)
    ensures |r| >= 1
    ensures forall i :: 0 <= i < |r| ==> IsDigit(r[i])
    ensures n < 10 <==> |r| == 1
  {
    if n < 10 then [DigitChar(n)] else NatToString(n / 10) + [DigitChar(n % 10)]
  }
}
