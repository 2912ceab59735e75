/** `validate_lists`: list items `^(\s*)([-*+]|\d+[.)])\s+(.*)$`, their indentation
    relative to a preceding item, and empty items. */
module Lists {
  import opened Text
  import opened Wrappers
  import opened Issues

  /** A match of the list-item regex: the length of group 1, group 2 and group 3. */
  datatype Item = Item(indent: nat, marker: string, content: string)

  predicate IsBullet(c: char) {
    c == '-' || c == '*' || c == '+'
  }

  /** Group 2's language: one bullet, or digits followed by `.` or `)`. */
  predicate IsMarker(m: string) {
    || (|m| == 1 && IsBullet(m[0]))
    || (|m| >= 2 && (m[|m| - 1] == '.' || m[|m| - 1] == ')') && forall i :: 0 <= i < |m| - 1 ==> IsDigit(m[i]))
  }

  /** The first index at or after i that does not hold a digit. */
  function SkipDigits(s: string, i: nat): (r: nat)
    requires i <= |s|
    ensures i <= r <= |s|
    ensures r < |s| ==> !IsDigit(s[r])
    decreases |s| - i
  {
    if i < |s| && IsDigit(s[i]) then SkipDigits(s, i + 1) else i
  }

  /** Everything SkipDigits skips is a digit. */
  lemma {:induction false} SkipDigitsSkips(s: string, i: nat)
    requires i <= |s|
    ensures forall j :: i <= j < SkipDigits(s, i) ==> IsDigit(s[j])
    decreases |s| - i
  {
    if i < |s| && IsDigit(s[i]) {
      SkipDigitsSkips(s, i + 1);
    }
  }

  /** Where a marker starting at i ends, or i when there is none. */
  function MarkerEnd(line: string, i: nat): (r: nat)
    requires i <= |line|
    ensures i <= r <= |line|
  {
    if i < |line| && IsBullet(line[i]) then i + 1
    else
      var d := SkipDigits(line, i);
      if d > i && d < |line| && (line[d] == '.' || line[d] == ')') then d + 1 else i
  }

  /** What MarkerEnd finds is a word of group 2's language. */
  lemma MarkerEndShape(line: string, i: nat)
    requires i <= |line|
    ensures MarkerEnd(line, i) > i ==> IsMarker(line[i..MarkerEnd(line, i)])
  {
    var r := MarkerEnd(line, i);
    if r > i && !(IsBullet(line[i])) {
      var m := line[i..r];
      SkipDigitsSkips(line, i);
      assert forall j :: 0 <= j < |m| - 1 ==> m[j] == line[i + j];
    }
  }

  /** re.match of the list-item regex. `\s*` takes all the leading whitespace and `\s+` all
      the whitespace after the marker, since no marker or content can start with it. */
  function ItemOf(line: string): (r: Option<Item>) {
    var k := SkipSpace(line, 0);
    var e := MarkerEnd(line, k);
    if e > k && e < |line| && IsSpace(line[e]) then
      Some(Item(k, line[k..e], line[SkipSpace(line, e)..]))
    else None
  }

  /** An item's marker is a word of group 2's language and its content does not start
      with whitespace. */
  lemma ItemOfShape(line: string)
    ensures ItemOf(line).Some? ==> IsMarker(ItemOf(line).value.marker)
    ensures ItemOf(line).Some? ==> ItemOf(line).value.content == [] || !IsSpace(ItemOf(line).value.content[0])
  {
    var k := SkipSpace(line, 0);
    MarkerEndShape(line, k);
    if ItemOf(line).Some? {
      var c := SkipSpace(line, MarkerEnd(line, k));
      assert c < |line| ==> line[c..][0] == line[c];
    }
  }

  /** A blank line is never a list item. */
  lemma BlankIsNotItem(line: string)
    requires IsBlank(line)
    ensures ItemOf(line) == None
  {
    SkipSpaceIs(line, 0, |line|);
  }

  /** prev_was_list after a line: set by an item, cleared by any other line that is not
      blank, kept by a blank line. */
  function Step(prev: bool, line: string): bool {
    if ItemOf(line).Some? then true
    else if Strip(line) != [] then false
    else prev
  }

  /** prev_was_list before line k + 1. */
  function PrevAt(lines: seq<string>, k: nat): bool
    requires k <= |lines|
  {
    if k == 0 then false else Step(PrevAt(lines, k - 1), lines[k - 1])
  }

  /** Blank lines do not break list continuity. */
  lemma BlankKeeps(prev: bool, line: string)
    requires IsBlank(line)
    ensures Step(prev, line) == prev
  {
    BlankIsNotItem(line);
    StripEmpty(line);
  }

  /** Line j is an item and every line after it, up to line k, is blank. */
  predicate ItemThenBlanks(lines: seq<string>, j: nat, k: nat)
    requires j < k <= |lines|
  {
    ItemOf(lines[j]).Some? && forall i :: j < i < k ==> IsBlank(lines[i])
  }

  /** One line's update, with strip() == '' read as blankness. */
  lemma StepIs(prev: bool, line: string)
    ensures Step(prev, line) == (ItemOf(line).Some? || (IsBlank(line) && prev))
  {
    StripEmpty(line);
  }

  /** The same fold over the lines' classification alone: which lines are items and
      which are blank. */
  function Carry(items: seq<bool>, blanks: seq<bool>, k: nat): bool
    requires k <= |items| == |blanks|
  {
    if k == 0 then false else items[k - 1] || (blanks[k - 1] && Carry(items, blanks, k - 1))
  }

  /** The fold holds exactly after an item followed only by blanks. */
  lemma {:induction false} CarryIff(items: seq<bool>, blanks: seq<bool>, k: nat)
    requires k <= |items| == |blanks|
    ensures Carry(items, blanks, k) <==> exists j :: 0 <= j < k && items[j] && forall i :: j < i < k ==> blanks[i]
  {
    if k > 0 {
      CarryIff(items, blanks, k - 1);
      if !items[k - 1] && blanks[k - 1] {
        if exists j :: 0 <= j < k - 1 && items[j] && forall i :: j < i < k - 1 ==> blanks[i] {
          var j :| 0 <= j < k - 1 && items[j] && forall i :: j < i < k - 1 ==> blanks[i];
          assert forall i :: j < i < k ==> blanks[i];
        }
      }
    }
  }

  /** Which lines are list items. */
  function ItemFlags(lines: seq<string>): (r: seq<bool>)
    ensures |r| == |lines|
  {
    seq(|lines|, i requires 0 <= i < |lines| => ItemOf(lines[i]).Some?)
  }

  /** Which lines are blank. */
  function BlankFlags(lines: seq<string>): (r: seq<bool>)
    ensures |r| == |lines|
  {
    seq(|lines|, i requires 0 <= i < |lines| => IsBlank(lines[i]))
  }

  /** prev_was_list is the fold over the lines' classification. */
  lemma {:induction false} PrevAtCarry(lines: seq<string>, k: nat)
    requires k <= |lines|
    ensures PrevAt(lines, k) == Carry(ItemFlags(lines), BlankFlags(lines), k)
  {
    if k > 0 {
      PrevAtCarry(lines, k - 1);
      StepIs(PrevAt(lines, k - 1), lines[k - 1]);
    }
  }

  /** Before line k + 1, prev_was_list holds exactly when some earlier line is an item
      and every line between it and line k + 1 is blank. */
  lemma PrevAtIff(lines: seq<string>, k: nat)
    requires k <= |lines|
    ensures PrevAt(lines, k) <==> exists j :: 0 <= j < k && ItemThenBlanks(lines, j, k)
  {
    var items, blanks := ItemFlags(lines), BlankFlags(lines);
    PrevAtCarry(lines, k);
    CarryIff(items, blanks, k);
    forall j | 0 <= j < k
      ensures ItemThenBlanks(lines, j, k) <==> items[j] && forall i :: j < i < k ==> blanks[i]
    {
      assert items[j] == ItemOf(lines[j]).Some?;
      assert forall i :: j < i < k ==> blanks[i] == IsBlank(lines[i]);
    }
  }

  /** The suggested fix: the indentation rounded down to an even width, the marker, one
      space, the content. */
  function IndentFix(it: Item): string {
    RepeatString("  ", it.indent / 2) + it.marker + " " + it.content
  }

  /** inconsistent_indent: the previous tracked line was an item and the indentation is
      odd (the `% 4` test cannot fail for an odd width). */
  function IndentPart(n: nat, line: string, prev: bool): (r: seq<Issue>)
    ensures AtMostOne(r, n, line, InconsistentIndent)
    ensures r != [] <==> prev && ItemOf(line).Some? && ItemOf(line).value.indent % 2 == 1
  {
    match ItemOf(line)
    case None => []
    case Some(it) =>
      if prev && it.indent > 0 && it.indent % 2 != 0 && it.indent % 4 != 0 then
        [Issue(n, InconsistentIndent, Info, "Non-standard list indentation (use 2 or 4 spaces)", line, IndentFix(it))]
      else []
  }

  /** empty_list_item: the item's content is blank, which is the case exactly when
      nothing follows the marker but whitespace. */
  function EmptyItemPart(n: nat, line: string): (r: seq<Issue>)
    ensures AtMostOne(r, n, line, EmptyListItem)
    ensures r != [] <==> ItemOf(line).Some? && ItemOf(line).value.content == []
  {
    match ItemOf(line)
    case None => []
    case Some(it) =>
      StripEmpty(it.content);
      if Strip(it.content) == [] then
        [Issue(n, EmptyListItem, Warning, "Empty list item", line, "Add content or remove empty item")]
      else []
  }

  /** What validate_lists appends for line n, given prev_was_list before it. */
  function Chunk(n: nat, line: string, prev: bool): seq<Issue> {
    IndentPart(n, line, prev) + EmptyItemPart(n, line)
  }

  /** Every issue of line n's chunk is about line n and quotes the line. */
  lemma ChunkAbout(n: nat, line: string, prev: bool)
    ensures About(Chunk(n, line, prev), n, line)
  {
    var a, b := IndentPart(n, line, prev), EmptyItemPart(n, line);
    AtMostOneAbout(a, n, line, InconsistentIndent);
    AtMostOneAbout(b, n, line, EmptyListItem);
    AboutConcat(a, b, n, line);
  }

  /** What validate_lists appends for line j (1-based). */
  function LineChunk(lines: seq<string>, j: int): seq<Issue> {
    if 1 <= j <= |lines| then Chunk(j, lines[j - 1], PrevAt(lines, j - 1)) else []
  }

  /** LineChunk as a function of the line number. */
  function LineIssues(lines: seq<string>): nat -> seq<Issue> {
    j => LineChunk(lines, j)
  }

  /** Line i + 1's contribution. */
  lemma LineAt(lines: seq<string>, i: nat)
    requires i < |lines|
    ensures LineIssues(lines)(i + 1) == Chunk(i + 1, lines[i], PrevAt(lines, i))
  {
  }

  /** The state after line i + 1. */
  lemma PrevAtNext(lines: seq<string>, i: nat)
    requires i < |lines|
    ensures PrevAt(lines, i + 1) == Step(PrevAt(lines, i), lines[i])
  {
  }

  /** Everything validate_lists appends for the first k lines. */
  function ListIssuesUpTo(lines: seq<string>, k: nat): seq<Issue> {
    Gather(LineIssues(lines), k)
  }

  /** Everything validate_lists appends. */
  function ListIssues(lines: seq<string>): seq<Issue> {
    ListIssuesUpTo(lines, |lines|)
  }

  /** Line j's contribution is about line j. */
  lemma LineOnLine(lines: seq<string>, j: nat)
    requires 1 <= j <= |lines|
    ensures AllOnLine(LineIssues(lines)(j), j)
  {
    LineChunkOnLine(lines, j);
  }

  /** Line j's chunk is about line j. */
  lemma LineChunkOnLine(lines: seq<string>, j: nat)
    requires 1 <= j <= |lines|
    ensures AllOnLine(LineChunk(lines, j), j)
  {
    ChunkOnLine(j, lines[j - 1], PrevAt(lines, j - 1));
  }

  /** Line n's chunk is about line n. */
  lemma ChunkOnLine(n: nat, line: string, prev: bool)
    ensures AllOnLine(Chunk(n, line, prev), n)
  {
    ChunkAbout(n, line, prev);
    AboutOnLine(Chunk(n, line, prev), n, line);
  }

  /** The list issues about line n are exactly line n's own checks. */
  lemma ListIssuesOnLine(lines: seq<string>, n: nat)
    ensures OnLine(ListIssues(lines), n) ==
              if 1 <= n <= |lines| then Chunk(n, lines[n - 1], PrevAt(lines, n - 1)) else []
  {
    var f := LineIssues(lines);
    forall j | 1 <= j <= |lines| ensures AllOnLine(f(j), j) {
      LineOnLine(lines, j);
    }
    OnLineGather(f, |lines|, n);
    if 1 <= n <= |lines| {
      LineAt(lines, n - 1);
    }
  }

  /** RepeatString of two spaces is all spaces. */
  lemma {:induction false} SpacesAreSpaces(n: nat)
    ensures forall i :: 0 <= i < |RepeatString("  ", n)| ==> RepeatString("  ", n)[i] == ' '
  {
    if n > 0 {
      SpacesAreSpaces(n - 1);
      var t := RepeatString("  ", n - 1);
      assert RepeatString("  ", n) == "  " + t;
    }
  }

  /** A marker written at k, followed by a space, is found by MarkerEnd. */
  lemma MarkerEndIs(s: string, k: nat, m: string)
    requires IsMarker(m) && k + |m| < |s| && s[k + |m|] == ' '
    requires forall i :: k <= i < k + |m| ==> s[i] == m[i - k]
    ensures MarkerEnd(s, k) == k + |m|
  {
    var e := k + |m|;
    if !(|m| == 1 && IsBullet(m[0])) {
      assert IsDigit(s[k]) && !IsDigit(s[e - 1]);
      SkipDigitsSkips(s, k);
      var d := SkipDigits(s, k);
      assert d == e - 1;
    }
  }

  /** The suggested fix is itself a list item with the same marker and content and an
      even indentation. */
  lemma IndentFixReparses(it: Item)
    requires IsMarker(it.marker) && (it.content == [] || !IsSpace(it.content[0]))
    ensures ItemOf(IndentFix(it)) == Some(Item(it.indent / 2 * 2, it.marker, it.content))
  {
    var sp := RepeatString("  ", it.indent / 2);
    var k := |sp|;
    var e := k + |it.marker|;
    SpacesAreSpaces(it.indent / 2);
    ItemPieces(sp, it.marker, it.content);
    ItemOfIs(IndentFix(it), k, e, e + 1);
  }

  /** Where the regex's pieces lie in spaces, a marker, one space and a content: the
      leading whitespace is the spaces, the marker follows, and the content starts after
      the single space. */
  lemma ItemPieces(sp: string, m: string, content: string)
    requires forall i :: 0 <= i < |sp| ==> sp[i] == ' '
    requires IsMarker(m) && (content == [] || !IsSpace(content[0]))
    ensures var s := sp + m + " " + content;
            var k, e := |sp|, |sp| + |m|;
            && k < e < |s| && IsSpace(s[e])
            && SkipSpace(s, 0) == k && MarkerEnd(s, k) == e && SkipSpace(s, e) == e + 1
            && s[k..e] == m && s[e + 1..] == content
  {
    ItemScan(sp, m, content);
    ItemSlices(sp, m, content);
  }

  /** The scans over spaces, a marker, one space and a content stop at the pieces' ends. */
  lemma ItemScan(sp: string, m: string, content: string)
    requires forall i :: 0 <= i < |sp| ==> sp[i] == ' '
    requires IsMarker(m) && (content == [] || !IsSpace(content[0]))
    ensures var s := sp + m + " " + content;
            var k, e := |sp|, |sp| + |m|;
            && k < e < |s| && IsSpace(s[e])
            && SkipSpace(s, 0) == k && MarkerEnd(s, k) == e && SkipSpace(s, e) == e + 1
  {
    var s := sp + m + " " + content;
    var k, e := |sp|, |sp| + |m|;
    assert forall i :: 0 <= i < k ==> s[i] == sp[i];
    assert forall i :: k <= i < e ==> s[i] == m[i - k];
    assert s[e] == ' ';
    assert e + 1 < |s| ==> s[e + 1] == content[0];
    SkipSpaceIs(s, 0, k);
    MarkerEndIs(s, k, m);
    SkipSpaceIs(s, e, e + 1);
  }

  /** The marker and the content are slices of spaces, a marker, one space and a content. */
  lemma ItemSlices(sp: string, m: string, content: string)
    ensures var s := sp + m + " " + content;
            s[|sp|..|sp| + |m|] == m && s[|sp| + |m| + 1..] == content
  {
    var s := sp + m + " " + content;
    assert s[|sp|..|sp| + |m|] == m;
    assert s[|sp| + |m| + 1..] == content;
  }

  /** The regex's match, read off the positions of its pieces. */
  lemma ItemOfIs(s: string, k: nat, e: nat, c: nat)
    requires k < e < |s| && IsSpace(s[e]) && c <= |s|
    requires SkipSpace(s, 0) == k && MarkerEnd(s, k) == e && SkipSpace(s, e) == c
    ensures ItemOf(s) == Some(Item(k, s[k..e], s[c..]))
  {
  }

  /** The suggested fix is not reported as inconsistently indented. */
  lemma IndentFixIsClean(it: Item, n: nat, prev: bool)
    requires IsMarker(it.marker) && (it.content == [] || !IsSpace(it.content[0]))
    ensures IndentPart(n, IndentFix(it), prev) == []
  {
    IndentFixReparses(it);
  }
}
