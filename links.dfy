/** `validate_links`: a first pass collects the reference definitions `[id]: target`, a
    second pass checks every inline link `[text](url)` and every reference usage
    `[text][id]`. */
module Links {
  import opened Text
  import opened Wrappers
  import opened Issues
  import opened Brackets
  import opened Urls

  /** A match of `^\[([^\]]+)\]:\s*(.+)$`: group 1 (the id) and group 2 (the target). */
  datatype Definition = Definition(id: string, target: string)

  /** A value of reference_definitions: the definition's line and its target. */
  datatype DefEntry = DefEntry(line: nat, target: string)

  /** The definition regex at the start of a line. Group 1 runs to the first `]` and must
      be followed by `:`; `\s*` is greedy but gives back one character when nothing else
      is left for `(.+)`. */
  function DefinitionAt(line: string): (r: Option<Definition>)
    ensures r.Some? ==> r.value.id != [] && ']' !in r.value.id && r.value.target != []
  {
    if line != [] && line[0] == '[' then
      var j := IndexFrom(line, 1, ']');
      if j >= 2 && j + 2 < |line| && line[j + 1] == ':' then
        var after := line[j + 2..];
        var k := SkipSpace(after, 0);
        var target := if k < |after| then after[k..] else after[|after| - 1..];
        var id := line[1..j];
        assert ']' !in id by {
          IndexFromSkips(line, 1, ']');
          forall i | 0 <= i < |id| ensures id[i] != ']' { assert id[i] == line[1 + i]; }
        }
        Some(Definition(id, target))
      else None
    else None
  }

  /** Every line of the definition language is recognised with its two groups: `[`, an id
      without `]`, `]:`, whitespace, and a target that does not start with whitespace. */
  lemma DefinitionComplete(id: string, ws: string, target: string)
    requires id != [] && ']' !in id
    requires IsBlank(ws)
    requires target != [] && !IsSpace(target[0])
    ensures DefinitionAt("[" + id + "]:" + ws + target) == Some(Definition(id, target))
  {
    var line := "[" + id + "]:" + ws + target;
    var pre, rest := "[" + id + "]:", ws + target;
    var j := |id| + 1;
    assert line == pre + rest;
    forall i | 1 <= i < j ensures line[i] != ']' {
      assert line[i] == pre[i] == id[i - 1];
    }
    assert line[j] == pre[j] == ']';
    IndexFromIs(line, 1, ']', j);
    assert line[j + 2..] == rest;
    SkipSpaceIs(rest, 0, |ws|);
    assert rest[|ws|..] == target;
    assert line[1..j] == id;
    DefinitionAtIs(line, j, |ws|);
  }

  /** The match read off the positions of its pieces: the `]` that ends group 1 at j, and
      the start k of group 2 in what follows `]:`. */
  lemma DefinitionAtIs(line: string, j: nat, k: nat)
    requires line != [] && line[0] == '[' && 2 <= j && j + 2 < |line| && line[j + 1] == ':'
    requires IndexFrom(line, 1, ']') == j
    requires SkipSpace(line[j + 2..], 0) == k < |line| - (j + 2)
    ensures DefinitionAt(line) == Some(Definition(line[1..j], line[j + 2..][k..]))
  {
  }

  /** Ids are compared lower-cased. */
  predicate Defines(line: string, key: string) {
    DefinitionAt(line).Some? && Lower(DefinitionAt(line).value.id) == key
  }

  /** The line defines key with this target. */
  predicate DefinesAs(line: string, key: string, target: string) {
    Defines(line, key) && DefinitionAt(line).value.target == target
  }

  /** The definition regex applied to each line of lines[..k]. */
  function Parsed(lines: seq<string>, k: nat): (r: seq<Option<Definition>>)
    requires k <= |lines|
    ensures |r| == k && forall i :: 0 <= i < k ==> r[i] == DefinitionAt(lines[i])
  {
    if k == 0 then [] else Parsed(lines, k - 1) + [DefinitionAt(lines[k - 1])]
  }

  /** The dictionary built from parsed lines: each definition, in order, stores its
      1-based line and its target under its lower-cased id, over any earlier entry. */
  function Table(ds: seq<Option<Definition>>): map<string, DefEntry> {
    if ds == [] then map[]
    else
      var defs := Table(ds[..|ds| - 1]);
      match ds[|ds| - 1]
      case None => defs
      case Some(d) => defs[Lower(d.id) := DefEntry(|ds|, d.target)]
  }

  /** Entry i of the parsed lines defines key. */
  predicate DefinesAt(ds: seq<Option<Definition>>, i: nat, key: string)
    requires i < |ds|
  {
    ds[i].Some? && Lower(ds[i].value.id) == key
  }

  /** The table after one more entry: that entry's definition over the earlier ones. */
  lemma TableSnoc(ds: seq<Option<Definition>>, key: string)
    requires ds != []
    ensures var init := ds[..|ds| - 1];
            && (DefinesAt(ds, |ds| - 1, key) ==>
                  key in Table(ds) && Table(ds)[key] == DefEntry(|ds|, ds[|ds| - 1].value.target))
            && (!DefinesAt(ds, |ds| - 1, key) ==>
                  (key in Table(ds) <==> key in Table(init))
                  && (key in Table(init) ==> Table(ds)[key] == Table(init)[key]))
            && forall j :: 0 <= j < |init| ==> (DefinesAt(init, j, key) <==> DefinesAt(ds, j, key))
  {
  }

  /** A key is in the table exactly when some entry defines it. */
  lemma {:induction false} TableHas(ds: seq<Option<Definition>>, key: string)
    ensures key in Table(ds) <==> exists j :: 0 <= j < |ds| && DefinesAt(ds, j, key)
  {
    if ds != [] {
      var init := ds[..|ds| - 1];
      TableHas(init, key);
      TableSnoc(ds, key);
      if !DefinesAt(ds, |ds| - 1, key) {
        if exists j :: 0 <= j < |ds| && DefinesAt(ds, j, key) {
          var j :| 0 <= j < |ds| && DefinesAt(ds, j, key);
          assert DefinesAt(init, j, key);
        }
      }
    }
  }

  /** The table's entry for a key comes from the last entry that defines it. */
  lemma {:induction false} TableLast(ds: seq<Option<Definition>>, key: string)
    requires key in Table(ds)
    ensures var e := Table(ds)[key];
            && 1 <= e.line <= |ds|
            && DefinesAt(ds, e.line - 1, key)
            && ds[e.line - 1].value.target == e.target
            && forall j :: e.line <= j < |ds| ==> !DefinesAt(ds, j, key)
  {
    TableSnoc(ds, key);
    if !DefinesAt(ds, |ds| - 1, key) {
      var init := ds[..|ds| - 1];
      TableLast(init, key);
      var e := Table(init)[key];
      assert ds[e.line - 1] == init[e.line - 1];
    }
  }

  /** reference_definitions after the first pass has read lines[..k]. */
  function Definitions(lines: seq<string>, k: nat): map<string, DefEntry>
    requires k <= |lines|
  {
    Table(Parsed(lines, k))
  }

  /** Reading line i + 1 adds its definition, if it has one, over any earlier one. */
  lemma DefinitionsNext(lines: seq<string>, i: nat)
    requires i < |lines|
    ensures var d := DefinitionAt(lines[i]);
            Definitions(lines, i + 1) ==
              if d.Some? then Definitions(lines, i)[Lower(d.value.id) := DefEntry(i + 1, d.value.target)]
              else Definitions(lines, i)
  {
    var ds := Parsed(lines, i + 1);
    assert ds[..i] == Parsed(lines, i);
  }

  /** A key is defined exactly when some line read so far defines it. */
  lemma DefinedIff(lines: seq<string>, k: nat, key: string)
    requires k <= |lines|
    ensures key in Definitions(lines, k) <==> exists j :: 0 <= j < k && Defines(lines[j], key)
  {
    var ds := Parsed(lines, k);
    TableHas(ds, key);
    assert forall j :: 0 <= j < k ==> (DefinesAt(ds, j, key) <==> Defines(lines[j], key));
  }

  /** The last definition wins: the entry for a key comes from the last line that
      defines it and holds that line's target. */
  lemma LastDefinitionWins(lines: seq<string>, k: nat, key: string)
    requires k <= |lines| && key in Definitions(lines, k)
    ensures var e := Definitions(lines, k)[key];
            && 1 <= e.line <= k
            && DefinesAs(lines[e.line - 1], key, e.target)
            && forall j :: e.line <= j < k ==> !Defines(lines[j], key)
  {
    var ds := Parsed(lines, k);
    TableLast(ds, key);
    assert forall j :: 0 <= j < k ==> (DefinesAt(ds, j, key) <==> Defines(lines[j], key));
  }

  /** The id a reference usage looks up: group 2, or group 1 when group 2 is empty, lower-cased. */
  function RefId(m: Match): string {
    if m.second != [] then Lower(m.second) else Lower(m.first)
  }

  /** empty_link_text: the link text is empty. */
  function LinkTextPart(n: nat, original: string, text: string, url: string): (r: seq<Issue>)
    ensures AtMostOne(r, n, original, EmptyLinkText)
    ensures r != [] <==> text == []
    ensures |r| <= 1 && (r != [] ==> r[0].severity == Warning)
  {
    if text == [] then
      [Issue(n, EmptyLinkText, Warning, "Empty link text", original, "[descriptive text](" + url + ")")]
    else []
  }

  /** empty_url: the stripped URL is empty. */
  function EmptyUrlPart(n: nat, original: string, text: string, url: string): (r: seq<Issue>)
    ensures AtMostOne(r, n, original, EmptyUrl)
    ensures r != [] <==> url == []
    ensures |r| <= 1 && (r != [] ==> r[0].severity == Error)
  {
    if url == [] then
      [Issue(n, EmptyUrl, Error, "Empty URL in link", original, "[" + text + "](https://example.com)")]
    else []
  }

  /** The issues for one inline-link match m of line n: the text check, then either the
      empty-URL report or the classification of the stripped URL. */
  function InlineIssues(n: nat, line: string, m: Match, baseDir: string, env: Oracles): seq<Issue>
    requires m.start <= m.end <= |line|
  {
    var original := line[m.start..m.end];
    var url := Strip(m.second);
    LinkTextPart(n, original, m.first, url)
    + if url == [] then EmptyUrlPart(n, original, m.first, url)
      else UrlIssues(n, url, original, baseDir, env)
  }

  /** Every issue of one inline link is about its line and quotes the whole match. */
  lemma InlineIssuesAbout(n: nat, line: string, m: Match, baseDir: string, env: Oracles)
    requires m.start <= m.end <= |line|
    ensures About(InlineIssues(n, line, m, baseDir, env), n, line[m.start..m.end])
  {
    var original := line[m.start..m.end];
    var url := Strip(m.second);
    var text := LinkTextPart(n, original, m.first, url);
    AtMostOneAbout(text, n, original, EmptyLinkText);
    if url == [] {
      var tail := EmptyUrlPart(n, original, m.first, url);
      AtMostOneAbout(tail, n, original, EmptyUrl);
      AboutConcat(text, tail, n, original);
    } else {
      var tail := UrlIssues(n, url, original, baseDir, env);
      SingleAbout(tail, n, original);
      AboutConcat(text, tail, n, original);
    }
  }

  /** An empty link text is reported, and only then. */
  lemma InlineTextReported(n: nat, line: string, m: Match, baseDir: string, env: Oracles)
    requires m.start <= m.end <= |line|
    ensures HasKind(InlineIssues(n, line, m, baseDir, env), EmptyLinkText) <==> m.first == []
  {
    var original := line[m.start..m.end];
    var url := Strip(m.second);
    var text := LinkTextPart(n, original, m.first, url);
    var tail := if url == [] then EmptyUrlPart(n, original, m.first, url)
                else UrlIssues(n, url, original, baseDir, env);
    HasKindConcat(text, tail, EmptyLinkText);
    HasKindOne(text, EmptyLinkText);
    HasKindOne(tail, EmptyLinkText);
  }

  /** A blank URL is reported as empty_url and nothing is classified. */
  lemma InlineBlankUrl(n: nat, line: string, m: Match, baseDir: string, env: Oracles)
    requires m.start <= m.end <= |line| && IsBlank(m.second)
    ensures var r := InlineIssues(n, line, m, baseDir, env);
            && HasKind(r, EmptyUrl)
            && forall i :: 0 <= i < |r| ==> r[i].kind == EmptyLinkText || r[i].kind == EmptyUrl
  {
    var original := line[m.start..m.end];
    var url := Strip(m.second);
    StripEmpty(m.second);
    var text := LinkTextPart(n, original, m.first, url);
    var tail := EmptyUrlPart(n, original, m.first, url);
    HasKindConcat(text, tail, EmptyUrl);
    HasKindOne(tail, EmptyUrl);
    AtMostOneAbout(text, n, original, EmptyLinkText);
    AtMostOneAbout(tail, n, original, EmptyUrl);
  }

  /** Any other URL is stripped and classified, and is not reported as empty. */
  lemma InlineClassified(n: nat, line: string, m: Match, baseDir: string, env: Oracles)
    requires m.start <= m.end <= |line| && !IsBlank(m.second)
    ensures var r := InlineIssues(n, line, m, baseDir, env);
            && !HasKind(r, EmptyUrl)
            && r == LinkTextPart(n, line[m.start..m.end], m.first, Strip(m.second))
                    + UrlIssues(n, Strip(m.second), line[m.start..m.end], baseDir, env)
  {
    var original := line[m.start..m.end];
    var url := Strip(m.second);
    StripEmpty(m.second);
    var text := LinkTextPart(n, original, m.first, url);
    var tail := UrlIssues(n, url, original, baseDir, env);
    HasKindConcat(text, tail, EmptyUrl);
    HasKindOne(text, EmptyUrl);
    HasKindOne(tail, EmptyUrl);
  }

  /** undefined_reference: the usage's id is not a key of the definitions. */
  function RefIssues(n: nat, line: string, m: Match, defs: map<string, DefEntry>): (r: seq<Issue>)
    requires m.start <= m.end <= |line|
    ensures AtMostOne(r, n, line[m.start..m.end], UndefinedReference)
    ensures r != [] <==> RefId(m) !in defs
    ensures |r| <= 1 && (r != [] ==> r[0].severity == Error)
  {
    var id := RefId(m);
    if id !in defs then
      [Issue(n, UndefinedReference, Error, "Undefined link reference: [" + id + "]", line[m.start..m.end],
             "Add reference definition: [" + id + "]: https://example.com")]
    else []
  }

  /** The inline-link issues of line n, match by match (match j is the j-th, 1-based). */
  function InlineOf(n: nat, line: string, baseDir: string, env: Oracles, j: int): seq<Issue> {
    var ms := FindAll(line, InlineLink);
    if 1 <= j <= |ms| then InlineIssues(n, line, ms[j - 1], baseDir, env) else []
  }

  /** InlineOf as a function of the match number. */
  function InlineAt(n: nat, line: string, baseDir: string, env: Oracles): nat -> seq<Issue> {
    j => InlineOf(n, line, baseDir, env, j)
  }

  /** The reference-usage issues of line n, match by match. */
  function RefOf(n: nat, line: string, defs: map<string, DefEntry>, j: int): seq<Issue> {
    var ms := FindAll(line, ReferenceLink);
    if 1 <= j <= |ms| then RefIssues(n, line, ms[j - 1], defs) else []
  }

  /** RefOf as a function of the match number. */
  function RefAt(n: nat, line: string, defs: map<string, DefEntry>): nat -> seq<Issue> {
    j => RefOf(n, line, defs, j)
  }

  /** Inline link j + 1's issues. */
  lemma InlineAtIs(n: nat, line: string, baseDir: string, env: Oracles, j: nat)
    requires j < |FindAll(line, InlineLink)|
    ensures InlineAt(n, line, baseDir, env)(j + 1) == InlineIssues(n, line, FindAll(line, InlineLink)[j], baseDir, env)
  {
  }

  /** Reference usage j + 1's issues. */
  lemma RefAtIs(n: nat, line: string, defs: map<string, DefEntry>, j: nat)
    requires j < |FindAll(line, ReferenceLink)|
    ensures RefAt(n, line, defs)(j + 1) == RefIssues(n, line, FindAll(line, ReferenceLink)[j], defs)
  {
  }

  /** Each inline link's issues are about its line. */
  lemma InlineAtOnLine(n: nat, line: string, baseDir: string, env: Oracles)
    ensures forall j :: 1 <= j <= |FindAll(line, InlineLink)| ==> AllOnLine(InlineAt(n, line, baseDir, env)(j), n)
  {
    var ms := FindAll(line, InlineLink);
    forall j | 1 <= j <= |ms| ensures AllOnLine(InlineAt(n, line, baseDir, env)(j), n) {
      var m := ms[j - 1];
      InlineIssuesAbout(n, line, m, baseDir, env);
    }
  }

  /** Each reference usage's issues are about its line. */
  lemma RefAtOnLine(n: nat, line: string, defs: map<string, DefEntry>)
    ensures forall j :: 1 <= j <= |FindAll(line, ReferenceLink)| ==> AllOnLine(RefAt(n, line, defs)(j), n)
  {
    var ms := FindAll(line, ReferenceLink);
    forall j | 1 <= j <= |ms| ensures AllOnLine(RefAt(n, line, defs)(j), n) {
      var m := ms[j - 1];
      AtMostOneAbout(RefIssues(n, line, m, defs), n, line[m.start..m.end], UndefinedReference);
    }
  }

  /** What the second pass appends for line n: its inline links, then its reference usages. */
  function LinkChunk(n: nat, line: string, defs: map<string, DefEntry>, baseDir: string, env: Oracles): seq<Issue> {
    Gather(InlineAt(n, line, baseDir, env), |FindAll(line, InlineLink)|)
    + Gather(RefAt(n, line, defs), |FindAll(line, ReferenceLink)|)
  }

  /** Everything the second pass appends for line n is about line n. */
  lemma LinkChunkOnLine(n: nat, line: string, defs: map<string, DefEntry>, baseDir: string, env: Oracles)
    ensures AllOnLine(LinkChunk(n, line, defs, baseDir, env), n)
  {
    var inline, refs := InlineAt(n, line, baseDir, env), RefAt(n, line, defs);
    var a, b := |FindAll(line, InlineLink)|, |FindAll(line, ReferenceLink)|;
    InlineAtOnLine(n, line, baseDir, env);
    RefAtOnLine(n, line, defs);
    GatherAllOnLine(inline, a, n);
    GatherAllOnLine(refs, b, n);
  }

  /** What validate_links appends for line j (1-based), checked against the definitions
      of the whole document. */
  function LineChunk(lines: seq<string>, baseDir: string, env: Oracles, j: int): seq<Issue> {
    if 1 <= j <= |lines| then LinkChunk(j, lines[j - 1], Definitions(lines, |lines|), baseDir, env) else []
  }

  /** LineChunk as a function of the line number. */
  function LineIssues(lines: seq<string>, baseDir: string, env: Oracles): nat -> seq<Issue> {
    j => LineChunk(lines, baseDir, env, j)
  }

  /** Everything the second pass appends for the first k lines. */
  function LinkIssuesUpTo(lines: seq<string>, baseDir: string, env: Oracles, k: nat): seq<Issue> {
    Gather(LineIssues(lines, baseDir, env), k)
  }

  /** Everything validate_links appends. */
  function LinkIssues(lines: seq<string>, baseDir: string, env: Oracles): seq<Issue> {
    LinkIssuesUpTo(lines, baseDir, env, |lines|)
  }

  /** Line i + 1's contribution. */
  lemma LineAt(lines: seq<string>, baseDir: string, env: Oracles, i: nat)
    requires i < |lines|
    ensures LineIssues(lines, baseDir, env)(i + 1) == LinkChunk(i + 1, lines[i], Definitions(lines, |lines|), baseDir, env)
  {
  }

  /** Line j's contribution is about line j. */
  lemma LineOnLine(lines: seq<string>, baseDir: string, env: Oracles, j: nat)
    requires 1 <= j <= |lines|
    ensures AllOnLine(LineIssues(lines, baseDir, env)(j), j)
  {
    LineAt(lines, baseDir, env, j - 1);
    LinkChunkOnLine(j, lines[j - 1], Definitions(lines, |lines|), baseDir, env);
  }

  /** The link issues about line n are exactly those of line n's own links. */
  lemma LinkIssuesOnLine(lines: seq<string>, baseDir: string, env: Oracles, n: nat)
    ensures OnLine(LinkIssues(lines, baseDir, env), n) ==
              if 1 <= n <= |lines| then LinkChunk(n, lines[n - 1], Definitions(lines, |lines|), baseDir, env) else []
  {
    var f := LineIssues(lines, baseDir, env);
    forall j | 1 <= j <= |lines| ensures AllOnLine(f(j), j) {
      LineOnLine(lines, baseDir, env, j);
    }
    OnLineGather(f, |lines|, n);
    if 1 <= n <= |lines| {
      LineAt(lines, baseDir, env, n - 1);
    }
  }

  /** Reference resolution: a usage anywhere in the document is reported exactly when no
      line of the document, before or after it, defines its lower-cased id. */
  lemma ReferenceResolution(lines: seq<string>, n: nat, m: Match)
    requires 1 <= n <= |lines| && m.start <= m.end <= |lines[n - 1]|
    ensures RefIssues(n, lines[n - 1], m, Definitions(lines, |lines|)) != [] <==>
              !exists j :: 0 <= j < |lines| && Defines(lines[j], RefId(m))
  {
    DefinedIff(lines, |lines|, RefId(m));
  }

  /** Matching ignores case: a definition whose id equals the usage's id up to ASCII case
      resolves it, whichever line it is on. */
  lemma CaseInsensitive(lines: seq<string>, n: nat, m: Match, j: nat, id: string)
    requires 1 <= n <= |lines| && m.start <= m.end <= |lines[n - 1]|
    requires j < |lines| && DefinitionAt(lines[j]).Some? && DefinitionAt(lines[j]).value.id == id
    requires Lower(id) == RefId(m)
    ensures RefIssues(n, lines[n - 1], m, Definitions(lines, |lines|)) == []
  {
    DefinedIff(lines, |lines|, RefId(m));
    assert Defines(lines[j], RefId(m));
  }
}
