/** `validate_images`: every `![alt](url)` match is checked for alt text, an empty URL and,
    for local URLs, a missing file. */
module Images {
  import opened Text
  import opened Wrappers
  import opened Issues
  import opened Brackets
  import opened Urls

  /** missing_alt_text: the alt text is empty. */
  function AltPart(n: nat, original: string, alt: string, url: string): (r: seq<Issue>)
    ensures AtMostOne(r, n, original, MissingAltText)
    ensures r != [] <==> alt == []
    ensures |r| <= 1 && (r != [] ==> r[0].severity == Warning)
  {
    if alt == [] then
      [Issue(n, MissingAltText, Warning, "Image missing alt text (accessibility issue)", original,
             "![descriptive alt text](" + url + ")")]
    else []
  }

  /** empty_image_url: the stripped URL is empty. */
  function EmptyImageUrlPart(n: nat, original: string, alt: string, url: string): (r: seq<Issue>)
    ensures AtMostOne(r, n, original, EmptyImageUrl)
    ensures r != [] <==> url == []
    ensures |r| <= 1 && (r != [] ==> r[0].severity == Error)
  {
    if url == [] then
      [Issue(n, EmptyImageUrl, Error, "Empty image URL", original, "![" + alt + "](path/to/image.png)")]
    else []
  }

  /** The prefixes that exempt an image from the file check. */
  predicate IsRemote(url: string) {
    StartsWith(url, "http://") || StartsWith(url, "https://") || StartsWith(url, "data:")
  }

  /** The file an image points at: os.path.join(base_dir, url), with any `#` kept. */
  function ImagePath(baseDir: string, url: string): string {
    JoinPath(baseDir, url)
  }

  /** missing_image: a URL that is not remote names no existing file. */
  function MissingImagePart(n: nat, original: string, url: string, baseDir: string, env: Oracles): (r: seq<Issue>)
    ensures AtMostOne(r, n, original, MissingImage)
    ensures r != [] <==> !IsRemote(url) && !env.pathExists(ImagePath(baseDir, url))
    ensures |r| <= 1 && (r != [] ==> r[0].severity == Error && r[0].suggestedFix == "Add image at: " + ImagePath(baseDir, url))
  {
    if !IsRemote(url) && !env.pathExists(ImagePath(baseDir, url)) then
      [Issue(n, MissingImage, Error, "Image file not found: " + url, original, "Add image at: " + ImagePath(baseDir, url))]
    else []
  }

  /** The issues for one image match m of line n: the alt-text check, then either the
      empty-URL report or the file check of the stripped URL. */
  function ImageIssues(n: nat, line: string, m: Match, baseDir: string, env: Oracles): seq<Issue>
    requires m.start <= m.end <= |line|
  {
    var original := line[m.start..m.end];
    var url := Strip(m.second);
    AltPart(n, original, m.first, url)
    + if url == [] then EmptyImageUrlPart(n, original, m.first, url)
      else MissingImagePart(n, original, url, baseDir, env)
  }

  /** Every issue of one image is about its line and quotes the whole match. */
  lemma ImageIssuesAbout(n: nat, line: string, m: Match, baseDir: string, env: Oracles)
    requires m.start <= m.end <= |line|
    ensures About(ImageIssues(n, line, m, baseDir, env), n, line[m.start..m.end])
  {
    var original := line[m.start..m.end];
    var url := Strip(m.second);
    var alt := AltPart(n, original, m.first, url);
    AtMostOneAbout(alt, n, original, MissingAltText);
    if url == [] {
      AtMostOneAbout(EmptyImageUrlPart(n, original, m.first, url), n, original, EmptyImageUrl);
      AboutConcat(alt, EmptyImageUrlPart(n, original, m.first, url), n, original);
    } else {
      AtMostOneAbout(MissingImagePart(n, original, url, baseDir, env), n, original, MissingImage);
      AboutConcat(alt, MissingImagePart(n, original, url, baseDir, env), n, original);
    }
  }

  /** Missing alt text is reported, and only then. */
  lemma ImageAltReported(n: nat, line: string, m: Match, baseDir: string, env: Oracles)
    requires m.start <= m.end <= |line|
    ensures HasKind(ImageIssues(n, line, m, baseDir, env), MissingAltText) <==> m.first == []
  {
    var original := line[m.start..m.end];
    var url := Strip(m.second);
    var alt := AltPart(n, original, m.first, url);
    var tail := if url == [] then EmptyImageUrlPart(n, original, m.first, url)
                else MissingImagePart(n, original, url, baseDir, env);
    HasKindConcat(alt, tail, MissingAltText);
    HasKindOne(alt, MissingAltText);
    HasKindOne(tail, MissingAltText);
  }

  /** A blank URL is reported as empty_image_url and no file is looked up. */
  lemma ImageBlankUrl(n: nat, line: string, m: Match, baseDir: string, env: Oracles, exists': string -> bool)
    requires m.start <= m.end <= |line| && IsBlank(m.second)
    ensures var r := ImageIssues(n, line, m, baseDir, env);
            && HasKind(r, EmptyImageUrl)
            && !HasKind(r, MissingImage)
            && r == ImageIssues(n, line, m, baseDir, env.(pathExists := exists'))
  {
    var original := line[m.start..m.end];
    var url := Strip(m.second);
    StripEmpty(m.second);
    var alt := AltPart(n, original, m.first, url);
    var tail := EmptyImageUrlPart(n, original, m.first, url);
    HasKindConcat(alt, tail, EmptyImageUrl);
    HasKindConcat(alt, tail, MissingImage);
    HasKindOne(alt, EmptyImageUrl);
    HasKindOne(alt, MissingImage);
    HasKindOne(tail, EmptyImageUrl);
    HasKindOne(tail, MissingImage);
  }

  /** Any other URL is stripped and, unless remote, looked up as a file. */
  lemma ImageChecked(n: nat, line: string, m: Match, baseDir: string, env: Oracles)
    requires m.start <= m.end <= |line| && !IsBlank(m.second)
    ensures var r := ImageIssues(n, line, m, baseDir, env);
            var url := Strip(m.second);
            && !HasKind(r, EmptyImageUrl)
            && (HasKind(r, MissingImage) <==> !IsRemote(url) && !env.pathExists(ImagePath(baseDir, url)))
  {
    var original := line[m.start..m.end];
    var url := Strip(m.second);
    StripEmpty(m.second);
    var alt := AltPart(n, original, m.first, url);
    var tail := MissingImagePart(n, original, url, baseDir, env);
    HasKindConcat(alt, tail, EmptyImageUrl);
    HasKindConcat(alt, tail, MissingImage);
    HasKindOne(alt, EmptyImageUrl);
    HasKindOne(alt, MissingImage);
    HasKindOne(tail, EmptyImageUrl);
    HasKindOne(tail, MissingImage);
  }

  /** The image issues of line n, match by match (match j is the j-th, 1-based). */
  function ImageOf(n: nat, line: string, baseDir: string, env: Oracles, j: int): seq<Issue> {
    var ms := FindAll(line, Image);
    if 1 <= j <= |ms| then ImageIssues(n, line, ms[j - 1], baseDir, env) else []
  }

  /** ImageOf as a function of the match number. */
  function ImageAt(n: nat, line: string, baseDir: string, env: Oracles): nat -> seq<Issue> {
    j => ImageOf(n, line, baseDir, env, j)
  }

  /** Image j + 1's issues. */
  lemma ImageAtIs(n: nat, line: string, baseDir: string, env: Oracles, j: nat)
    requires j < |FindAll(line, Image)|
    ensures ImageAt(n, line, baseDir, env)(j + 1) == ImageIssues(n, line, FindAll(line, Image)[j], baseDir, env)
  {
  }

  /** Each image's issues are about its line. */
  lemma ImageAtOnLine(n: nat, line: string, baseDir: string, env: Oracles)
    ensures forall j :: 1 <= j <= |FindAll(line, Image)| ==> AllOnLine(ImageAt(n, line, baseDir, env)(j), n)
  {
    var ms := FindAll(line, Image);
    forall j | 1 <= j <= |ms| ensures AllOnLine(ImageAt(n, line, baseDir, env)(j), n) {
      var m := ms[j - 1];
      ImageIssuesAbout(n, line, m, baseDir, env);
    }
  }

  /** What validate_images appends for line n. */
  function Chunk(n: nat, line: string, baseDir: string, env: Oracles): seq<Issue> {
    Gather(ImageAt(n, line, baseDir, env), |FindAll(line, Image)|)
  }

  /** Everything validate_images appends for line n is about line n. */
  lemma ChunkOnLine(n: nat, line: string, baseDir: string, env: Oracles)
    ensures AllOnLine(Chunk(n, line, baseDir, env), n)
  {
    ImageAtOnLine(n, line, baseDir, env);
    GatherAllOnLine(ImageAt(n, line, baseDir, env), |FindAll(line, Image)|, n);
  }

  /** What validate_images appends for line j (1-based). */
  function LineChunk(lines: seq<string>, baseDir: string, env: Oracles, j: int): seq<Issue> {
    if 1 <= j <= |lines| then Chunk(j, lines[j - 1], baseDir, env) else []
  }

  /** LineChunk as a function of the line number. */
  function LineIssues(lines: seq<string>, baseDir: string, env: Oracles): nat -> seq<Issue> {
    j => LineChunk(lines, baseDir, env, j)
  }

  /** Everything validate_images appends for the first k lines. */
  function ImageIssuesUpTo(lines: seq<string>, baseDir: string, env: Oracles, k: nat): seq<Issue> {
    Gather(LineIssues(lines, baseDir, env), k)
  }

  /** Everything validate_images appends. */
  function AllImageIssues(lines: seq<string>, baseDir: string, env: Oracles): seq<Issue> {
    ImageIssuesUpTo(lines, baseDir, env, |lines|)
  }

  /** Line i + 1's contribution. */
  lemma LineAt(lines: seq<string>, baseDir: string, env: Oracles, i: nat)
    requires i < |lines|
    ensures LineIssues(lines, baseDir, env)(i + 1) == Chunk(i + 1, lines[i], baseDir, env)
  {
  }

  /** Line j's contribution is about line j. */
  lemma LineOnLine(lines: seq<string>, baseDir: string, env: Oracles, j: nat)
    requires 1 <= j <= |lines|
    ensures AllOnLine(LineIssues(lines, baseDir, env)(j), j)
  {
    LineAt(lines, baseDir, env, j - 1);
    ChunkOnLine(j, lines[j - 1], baseDir, env);
  }

  /** The image issues about line n are exactly those of line n's own images. */
  lemma ImageIssuesOnLine(lines: seq<string>, baseDir: string, env: Oracles, n: nat)
    ensures OnLine(AllImageIssues(lines, baseDir, env), n) ==
              if 1 <= n <= |lines| then Chunk(n, lines[n - 1], baseDir, env) else []
  {
    var f := LineIssues(lines, baseDir, env);
    forall j | 1 <= j <= |lines| ensures AllOnLine(f(j), j) {
      LineOnLine(lines, baseDir, env, j);
    }
    OnLineGather(f, |lines|, n);
    if 1 <= n <= |lines| {
      LineAt(lines, baseDir, env, n - 1);
    }
  }
}
