# A verified model of the Markdown validator

This project models `agent/tools/markdown_validator.py`, the Markdown linter of the
agent. The linter loads a file, splits it into lines and runs seven checkers over the
same lines in a fixed order, each appending `ValidationIssue` records to one shared
list:

- headers;
- links, with `_validate_url`;
- code blocks;
- lists;
- images;
- emphasis;
- tables.

It then sorts the list by line number, and `validate_markdown_file` counts the result
by severity.

The model has one module per concern:

- `Text`: the Python string operations the checkers use (`split`, `strip`, `lower`, `str(n)`).
- `Issues`: the issue record, and selection of the issues about one line or of one kind.
- `Sorting`: the final `list.sort` by line number, a stable sort.
- `Brackets`: the three bracket regexes (inline link, image, reference link) and `re.finditer` over them.
- `Urls`: `_validate_url`, with the outside world as oracles.
- One module per checker: `Headers`, `Links`, `CodeBlocks`, `Lists`, `Images`, `Emphasis`, `Tables`.
  Each is a pure function of the lines (what the checker appends for each line, given its
  state before that line), plus lemmas on what gets reported and when.
- `Report`: the severity counts and the result dictionary of `validate_markdown_file`.
- `Validator`: the class `MarkdownValidator`. Its methods update the `content`, `lines` and
  `issues` fields with loops, as the source does. Each method is proved to append exactly
  what the checker's specification function describes.
  Loading the file is an input, `Validator.LoadOutcome`: the text `f.read()` returned,
  `FileNotFoundError`, or any other exception with its message (source lines 53-77).

Some consequences of the code that the lemmas make explicit:

- Every image `![alt](url)` is also a match of the inline-link regex one position later
  (`Brackets.ImageIsInlineLink`). So unless an earlier link match already covers it, the
  image is link-checked too (`Brackets.FindAllCovers`).
- A `mailto:` or `tel:` target counts as external. When no `//` follows the colon,
  `urlparse` gives it no netloc, so it is always reported as `invalid_url_format`
  (`Urls.SchemeOnlyTargetIsInvalid`).
- In the list check, the test `indent % 2 != 0 and indent % 4 != 0` reduces to "the
  indentation is odd" (`Lists.IndentPart`).
- The emphasis check also runs on lines inside fenced code blocks (`Emphasis.ChunkCount`).
- Reference ids are resolved against definitions anywhere in the document, ignoring ASCII
  case (`Links.ReferenceResolution`, `Links.CaseInsensitive`).

## Model

| member | source | states |
|---|---|---|
| Text.IsSpace | agent/tools/markdown_validator.py:81 | the characters for which Python's `str.isspace()` holds; `\s` and `strip()` use this set, and `Text.StripEmpty` ties it to `strip()` |
| Text.Strip | agent/tools/markdown_validator.py:89 | `str.strip()`: the string with its leading and trailing whitespace removed; `Text.StripEmpty` states when nothing is left |
| Text.CountRun | agent/tools/markdown_validator.py:307-309 | the non-overlapping occurrences of a run of one repeated character, scanning from the left, which is what `str.count` and `re.findall` return for such a pattern |
| Text.Split | agent/tools/markdown_validator.py:56 | `content.split('\n')` gives at least one line and no line holds the separator |
| Text.JoinSplit | agent/tools/markdown_validator.py:56 | joining the lines with `\n` gives back the content: splitting loses nothing |
| Text.SplitJoin | agent/tools/markdown_validator.py:56 | splitting separator-free lines joined by `\n` gives back exactly those lines |
| Text.SplitNoSeparator | agent/tools/markdown_validator.py:56 | a content without a newline is a single line |
| Text.StripEmpty | agent/tools/markdown_validator.py:371 | `line.strip()` is empty exactly when the line is all whitespace |
| Text.LStripBlank | agent/tools/markdown_validator.py:89 | dropping leading whitespace leaves a blank string exactly when the string was blank |
| Text.RStripConcat | agent/tools/markdown_validator.py:129 | trailing whitespace of a concatenation lies in its non-blank tail |
| Text.Lower | agent/tools/markdown_validator.py:154 | `lower()` keeps the length and lowers each character |
| Text.LowerIdempotent | agent/tools/markdown_validator.py:192 | lowering twice is lowering once, so lower-cased ids are case-insensitive keys |
| Text.Repeat | agent/tools/markdown_validator.py:122 | `'#' * n` is n copies of the character |
| Text.RepeatString | agent/tools/markdown_validator.py:354 | `'  ' * k` has length 2k |
| Text.NatToString | agent/tools/markdown_validator.py:543 | `str(n)` is a non-empty run of decimal digits, one digit exactly when n < 10 |
| Issues.OnLine | agent/tools/markdown_validator.py:505 | the issues about one line, in order: all of them are about that line |
| Issues.OnLineConcat | agent/tools/markdown_validator.py:505 | the issues about a line in a concatenation are those of each part, in order |
| Issues.OnLineGather | agent/tools/markdown_validator.py:84 | when each line contributes only issues about itself, the issues about line n in a checker's output are exactly line n's contribution |
| Issues.GatherAllOfKind | agent/tools/markdown_validator.py:84 | a loop whose every line contributes one kind produces only that kind |
| Issues.OnLineSeven | agent/tools/markdown_validator.py:496-502 | the issues about a line after the seven checkers are those each checker reported about it, in checker order |
| Sorting.InsertByLine | agent/tools/markdown_validator.py:505 | inserting an issue grows the list by one |
| Sorting.SortByLine | agent/tools/markdown_validator.py:505 | sorting keeps the number of issues |
| Sorting.InsertPermutes | agent/tools/markdown_validator.py:505 | insertion adds exactly the new issue and loses none |
| Sorting.SortPermutes | agent/tools/markdown_validator.py:505 | the sort is a permutation: the same issues, each as often as before |
| Sorting.InsertSorted | agent/tools/markdown_validator.py:505 | inserting into a list ordered by line keeps it ordered |
| Sorting.SortSorted | agent/tools/markdown_validator.py:505 | the sorted list is ordered by line number |
| Sorting.InsertOnLine | agent/tools/markdown_validator.py:505 | insertion puts the new issue after every issue of its line and changes no other line |
| Sorting.SortStable | agent/tools/markdown_validator.py:505 | stability: on every line the issues keep the order they were appended in |
| Sorting.SortedUnique | agent/tools/markdown_validator.py:505 | two ordered lists that agree line by line are equal, so any stable sort by line (Python's included) gives this result |
| Sorting.SortIdempotent | agent/tools/markdown_validator.py:505 | sorting an ordered list changes nothing |
| Brackets.MatchText | agent/tools/markdown_validator.py:171 | `match.group(0)` is the opener, group 1, `]`, the second opener, group 2 and the closer |
| Brackets.MatchAt | agent/tools/markdown_validator.py:142 | a match attempted at a position starts there and ends inside the line |
| Brackets.MatchAtSound | agent/tools/markdown_validator.py:142 | every match the scanner reports is a word of the regex's language |
| Brackets.MatchAtComplete | agent/tools/markdown_validator.py:142 | every word of the regex's language at a position is found there with the same groups |
| Brackets.FindAll | agent/tools/markdown_validator.py:160 | `finditer` reports matches that lie inside the line |
| Brackets.FindAllFromAt | agent/tools/markdown_validator.py:160 | every match `finditer` reports is the regex's match at its own start |
| Brackets.FindAllOrdered | agent/tools/markdown_validator.py:160 | `finditer` reports matches left to right, none overlapping the next |
| Brackets.FindAllMatches | agent/tools/markdown_validator.py:160 | everything `finditer` reports is a word of the regex's language |
| Brackets.FindAllCovers | agent/tools/markdown_validator.py:160 | `finditer` skips no match: every position where the regex matches starts a reported match or lies inside one |
| Brackets.ImageIsInlineLink | agent/tools/markdown_validator.py:376 | every image `![alt](url)` also holds an inline link `[alt](url)` one position later, so images go through the link checks too |
| Urls.HasLinkScheme | agent/tools/markdown_validator.py:226 | the four prefixes (`http://`, `https://`, `mailto:`, `tel:`) that make a link target external rather than a local path |
| Urls.LocalTarget | agent/tools/markdown_validator.py:228 | the path a local link points at: the base directory joined with the part of the URL before its first `#` |
| Urls.UrlSplitParts | agent/tools/markdown_validator.py:242-243 | the scheme and netloc `urlparse` computes, or None when it raises for unbalanced brackets; `Urls.SchemeSplit` states its result on scheme-prefixed URLs |
| Urls.JoinPath | agent/tools/markdown_validator.py:228 | `os.path.join(base, part)` is the part when it is absolute, otherwise starts with base and ends with part |
| Urls.UrlIssues | agent/tools/markdown_validator.py:203-279 | at most one issue: none for anchors; broken_local_link exactly for a local path whose target does not exist; invalid_url_format exactly for an external URL parsed without scheme or netloc; broken_external_link exactly for a status of 400 or more; link_timeout (a warning) exactly for a timeout; the other failures report nothing |
| Urls.OraclesConsulted | agent/tools/markdown_validator.py:226-256 | the file system is consulted only for local paths, the HEAD probe only for well-formed external URLs |
| Urls.SchemeSplit | agent/tools/markdown_validator.py:242 | `urlparse` of a lower-case scheme, `:` and a rest yields that scheme and the netloc of the rest |
| Urls.SchemeOnlyTargetIsInvalid | agent/tools/markdown_validator.py:226-252 | a `mailto:` or `tel:` target without `//` passes the external-scheme gate and is always reported as invalid_url_format |
| Urls.HostlessHttpIsInvalid | agent/tools/markdown_validator.py:243-251 | `http://` alone has no netloc and is reported as invalid_url_format |
| Headers.IsHeading | agent/tools/markdown_validator.py:81-87 | the heading regex matches a line exactly when it starts with `#`; `Headers.HeadingRegex` gives the groups |
| Headers.HeadingText | agent/tools/markdown_validator.py:89 | `match.group(2).strip()`: the text after the hashes and whitespace, stripped; `Headers.HasTextIff` states when it is empty |
| Headers.PrevLevel | agent/tools/markdown_validator.py:82-125 | `prev_level` before a line: the level of the last heading above it, or 0; `Headers.PrevLevelIsLastHeading` states this |
| Headers.FormatFix | agent/tools/markdown_validator.py:100 | the fix for a missing space: the hashes, one space, the text; `Headers.FormatFixIsClean` proves it fixes the issue |
| Headers.HierarchyFix | agent/tools/markdown_validator.py:122 | the fix for a skipped level: `prev_level + 1` hashes, one space, the text; `Headers.HierarchyFixIsClean` proves it fixes the issue |
| Headers.TrailingFix | agent/tools/markdown_validator.py:129-136 | the fix for closing hashes: the hashes, one space, the text with trailing `#` and then whitespace removed |
| Headers.Level | agent/tools/markdown_validator.py:90 | the heading level is between 1 and 6 |
| Headers.HeadingRegex | agent/tools/markdown_validator.py:81 | a heading line is one to six hashes (all of them when fewer than six), whitespace, then group 2, which does not start with whitespace |
| Headers.HasTextIff | agent/tools/markdown_validator.py:89 | the stripped heading text is non-empty exactly when something other than whitespace follows the hashes |
| Headers.TextEndsIff | agent/tools/markdown_validator.py:128 | the heading text ends with `#` exactly when it has text and the right-stripped line ends with `#` |
| Headers.FormatPart | agent/tools/markdown_validator.py:93-101 | header_format is reported exactly when the heading has text and no space follows the hashes |
| Headers.EmptyPart | agent/tools/markdown_validator.py:104-112 | empty_header is reported exactly when only whitespace follows the hashes |
| Headers.HierarchyPart | agent/tools/markdown_validator.py:115-123 | header_hierarchy is reported exactly when there was an earlier heading and the level skips more than one |
| Headers.TrailingPart | agent/tools/markdown_validator.py:128-137 | at most one trailing_hashes issue about the line, quoting it |
| Headers.TrailingPartIff | agent/tools/markdown_validator.py:128-137 | trailing_hashes is reported exactly when the heading has text and the line, right-stripped, ends with `#` |
| Headers.Chunk | agent/tools/markdown_validator.py:86-137 | a line that is not a heading gets no header issue |
| Headers.ChunkAbout | agent/tools/markdown_validator.py:86-137 | every header issue of a line is about that line and quotes it |
| Headers.PrevLevelIsLastHeading | agent/tools/markdown_validator.py:125 | `prev_level` is 0 exactly when no earlier line is a heading, else the level of the last earlier heading |
| Headers.LineOnLine | agent/tools/markdown_validator.py:95 | each line's header issues are about that line |
| Headers.HeaderIssuesOnLine | agent/tools/markdown_validator.py:84-137 | the header issues about line n are exactly the checks of line n against the last heading before it |
| Headers.FormatFixIsClean | agent/tools/markdown_validator.py:100 | the fix for a missing space is a heading of the same level with no header_format issue |
| Headers.FixLevel | agent/tools/markdown_validator.py:81 | L hashes followed by a space form a heading of level L |
| Headers.HierarchyFixIsClean | agent/tools/markdown_validator.py:122 | the fix for a skipped level is a heading one level below the previous one, with no header_hierarchy issue |
| Headers.HashesThenSpace | agent/tools/markdown_validator.py:81 | L hashes, a space and any text form a heading of level L |
| Links.Table | agent/tools/markdown_validator.py:148-155 | the reference dictionary built from the parsed lines, each definition stored under its lower-cased id over any earlier entry; `Links.TableHas` and `Links.TableLast` characterise it |
| Links.Definitions | agent/tools/markdown_validator.py:152-155 | `reference_definitions` after the first pass over the first k lines; `Links.DefinedIff` and `Links.LastDefinitionWins` characterise it |
| Links.InlineIssues | agent/tools/markdown_validator.py:160-188 | the issues of one inline link: the empty-text check, then either `empty_url` or the URL classification; `Links.InlineTextReported`, `Links.InlineBlankUrl` and `Links.InlineClassified` state each case |
| Links.RefId | agent/tools/markdown_validator.py:192 | the id a reference usage looks up: group 2 lower-cased, or group 1 lower-cased when group 2 is empty |
| Links.LinkChunk | agent/tools/markdown_validator.py:158-201 | what the second pass appends for one line: its inline links' issues, then its reference usages', in match order; `Links.LinkChunkOnLine` states they are about that line |
| Links.DefinitionAt | agent/tools/markdown_validator.py:146 | a definition's id is non-empty without `]` and its target is non-empty |
| Links.DefinitionComplete | agent/tools/markdown_validator.py:146 | every line `[id]:` plus whitespace plus a target is recognised with exactly that id and target |
| Links.DefinitionAtIs | agent/tools/markdown_validator.py:146 | the definition read off the positions of `]:` and of the target's first character |
| Links.Parsed | agent/tools/markdown_validator.py:152-153 | the definition regex applied to each line read so far |
| Links.TableSnoc | agent/tools/markdown_validator.py:155 | a new definition overwrites the entry of its key; other keys keep theirs |
| Links.TableHas | agent/tools/markdown_validator.py:152-155 | a key is in the dictionary exactly when some parsed line defines it |
| Links.TableLast | agent/tools/markdown_validator.py:155 | a key's entry comes from the last line defining it and holds that line's number and target |
| Links.DefinedIff | agent/tools/markdown_validator.py:152-155 | a lower-cased id is defined exactly when some line read so far defines it |
| Links.LastDefinitionWins | agent/tools/markdown_validator.py:155 | the last definition of an id wins: its line and target are the entry |
| Links.LinkTextPart | agent/tools/markdown_validator.py:165-173 | empty_link_text, a warning, exactly when the link text is empty |
| Links.EmptyUrlPart | agent/tools/markdown_validator.py:176-185 | empty_url, an error, exactly when the stripped URL is empty |
| Links.InlineIssuesAbout | agent/tools/markdown_validator.py:160-188 | every issue of an inline link is about its line and quotes the whole match |
| Links.InlineTextReported | agent/tools/markdown_validator.py:165 | an empty link text is reported, and only then |
| Links.InlineBlankUrl | agent/tools/markdown_validator.py:176-185 | a blank URL is reported as empty_url and is not classified further |
| Links.InlineClassified | agent/tools/markdown_validator.py:162-188 | any other URL is stripped and passed to the URL classification, and no empty_url is reported |
| Links.RefIssues | agent/tools/markdown_validator.py:191-201 | undefined_reference, an error, exactly when the usage's id is not a key of the definitions |
| Links.InlineAtOnLine | agent/tools/markdown_validator.py:167 | each inline link's issues are about its line |
| Links.RefAtOnLine | agent/tools/markdown_validator.py:195 | each reference usage's issues are about its line |
| Links.LinkChunkOnLine | agent/tools/markdown_validator.py:158-201 | everything the second pass appends for a line is about that line |
| Links.LineOnLine | agent/tools/markdown_validator.py:158 | each line's link issues are about that line |
| Links.LinkIssuesOnLine | agent/tools/markdown_validator.py:158-201 | the link issues about line n are exactly those of line n's own links and usages |
| Links.ReferenceResolution | agent/tools/markdown_validator.py:191-193 | a usage is reported exactly when no line of the document, before or after it, defines its lower-cased id |
| Links.CaseInsensitive | agent/tools/markdown_validator.py:154 | a definition whose id lower-cases to the usage's id resolves it |
| CodeBlocks.Step | agent/tools/markdown_validator.py:290-303 | the fence update for one line: a fence opens a block when none is open and closes it when it has the same character and at least the opening count; `CodeBlocks.StepCloses` and `CodeBlocks.StepInert` state both cases |
| CodeBlocks.StateAt | agent/tools/markdown_validator.py:283-303 | the code-block state after the first k lines; `CodeBlocks.StateInvariant` states what it records |
| CodeBlocks.FenceOf | agent/tools/markdown_validator.py:290 | a fence is at least three backticks or tildes |
| CodeBlocks.FenceComplete | agent/tools/markdown_validator.py:290 | a run of three or more of one fence character followed by word characters is recognised with that character and count |
| CodeBlocks.StepCloses | agent/tools/markdown_validator.py:296-303 | an open block is closed exactly by a fence of the same character and at least the same count |
| CodeBlocks.StepInert | agent/tools/markdown_validator.py:301-303 | a line that does not close an open block leaves the state as it was |
| CodeBlocks.StateInvariant | agent/tools/markdown_validator.py:288-303 | `fence_char` is set exactly while a block is open, and the open block's start is an earlier fence line with the recorded character and count |
| CodeBlocks.TriplesAreBackticks | agent/tools/markdown_validator.py:307-310 | every triple counted by `count('```')` holds three of the backticks counted by `count('`')` |
| CodeBlocks.SingleBackticksNonNegative | agent/tools/markdown_validator.py:310 | `single_count` is never negative |
| CodeBlocks.BacktickIssues | agent/tools/markdown_validator.py:306-319 | at most one unmatched_backticks issue about the line, quoting it |
| CodeBlocks.BacktickIff | agent/tools/markdown_validator.py:306-319 | unmatched_backticks, a warning, exactly when no block is open after the line's fence update, `single_count` is odd, and the stripped line does not start with three backticks |
| CodeBlocks.LineOnLine | agent/tools/markdown_validator.py:313 | each line's backtick issue is about that line |
| CodeBlocks.LineIssuesKind | agent/tools/markdown_validator.py:314 | the loop reports only unmatched_backticks |
| CodeBlocks.UnclosedIssues | agent/tools/markdown_validator.py:322-330 | the final report holds at most one issue, of kind unclosed_code_block |
| CodeBlocks.UnclosedReport | agent/tools/markdown_validator.py:322-330 | a block open at the end gives exactly one unclosed_code_block error, at its opening line, quoting it and suggesting a fence of the same character and count; otherwise none |
| CodeBlocks.UnclosedFacts | agent/tools/markdown_validator.py:322-330 | the final report is present exactly when a block is open at the end, with that line, text and fix |
| CodeBlocks.UnclosedIsOnlyReport | agent/tools/markdown_validator.py:322-330 | the only unclosed_code_block issues are the final report's |
| CodeBlocks.ClosingFenceCloses | agent/tools/markdown_validator.py:329 | the suggested closing fence does close the open block |
| CodeBlocks.CodeIssuesOnLine | agent/tools/markdown_validator.py:288-330 | the code-block issues about line n are line n's backtick check, then the unclosed report if the block opened on line n |
| Lists.ItemOf | agent/tools/markdown_validator.py:334-344 | `re.match` of the list-item regex, giving indentation, marker and content; `Lists.ItemOfShape` and `Lists.ItemOfIs` characterise it |
| Lists.Step | agent/tools/markdown_validator.py:368-372 | `prev_was_list` after a line: set by an item, cleared by another non-blank line, kept by a blank line; `Lists.StepIs` states this |
| Lists.PrevAt | agent/tools/markdown_validator.py:336-372 | `prev_was_list` before line k + 1; `Lists.PrevAtIff` states when it holds |
| Lists.IndentFix | agent/tools/markdown_validator.py:354 | the fix for odd indentation: the indent rounded down to an even width, the marker, a space, the content; `Lists.IndentFixReparses` and `Lists.IndentFixIsClean` prove it |
| Lists.MarkerEnd | agent/tools/markdown_validator.py:334 | a marker found at a position ends inside the line |
| Lists.MarkerEndShape | agent/tools/markdown_validator.py:334 | what is found as a marker is a bullet, or digits followed by `.` or `)` |
| Lists.MarkerEndIs | agent/tools/markdown_validator.py:334 | a marker followed by a space is found in full |
| Lists.ItemOfShape | agent/tools/markdown_validator.py:334 | a list item's marker is a valid marker and its content does not start with whitespace |
| Lists.BlankIsNotItem | agent/tools/markdown_validator.py:334 | a blank line is never a list item |
| Lists.BlankKeeps | agent/tools/markdown_validator.py:370-372 | a blank line leaves `prev_was_list` unchanged |
| Lists.StepIs | agent/tools/markdown_validator.py:368-372 | after a line, `prev_was_list` holds exactly when the line is an item, or it is blank and held before |
| Lists.CarryIff | agent/tools/markdown_validator.py:336-372 | the continuity flag holds exactly after an item followed only by blank lines |
| Lists.PrevAtIff | agent/tools/markdown_validator.py:336-372 | before line k + 1, `prev_was_list` holds exactly when some earlier line is an item and every line between it and line k + 1 is blank |
| Lists.IndentPart | agent/tools/markdown_validator.py:347-355 | inconsistent_indent exactly when the previous tracked line was an item and the item's indentation is odd (the `% 4` test never decides) |
| Lists.EmptyItemPart | agent/tools/markdown_validator.py:358-366 | empty_list_item exactly when nothing but whitespace follows the marker |
| Lists.ChunkAbout | agent/tools/markdown_validator.py:341-366 | every list issue of a line is about that line and quotes it |
| Lists.LineOnLine | agent/tools/markdown_validator.py:349 | each line's list issues are about that line |
| Lists.LineChunkOnLine | agent/tools/markdown_validator.py:349 | each line's checks report about that line |
| Lists.ChunkOnLine | agent/tools/markdown_validator.py:349 | the checks of a line report about that line |
| Lists.ListIssuesOnLine | agent/tools/markdown_validator.py:338-372 | the list issues about line n are exactly line n's own checks |
| Lists.SpacesAreSpaces | agent/tools/markdown_validator.py:354 | `'  ' * k` is made of spaces |
| Lists.ItemPieces | agent/tools/markdown_validator.py:334 | in spaces, a marker, one space and a content the regex's groups lie where they were written |
| Lists.ItemOfIs | agent/tools/markdown_validator.py:334 | the list-item match read off the positions of its groups |
| Lists.IndentFixReparses | agent/tools/markdown_validator.py:354 | the suggested fix parses as an item with the same marker and content and the indentation rounded down to even |
| Lists.IndentFixIsClean | agent/tools/markdown_validator.py:354 | the suggested fix is not reported as inconsistently indented |
| Images.IsRemote | agent/tools/markdown_validator.py:407 | the three prefixes (`http://`, `https://`, `data:`) that exempt an image from the file check |
| Images.ImagePath | agent/tools/markdown_validator.py:408 | `os.path.join(base_dir, url)`, the path the `missing_image` fix names |
| Images.ImageIssues | agent/tools/markdown_validator.py:380-417 | the issues of one image: the alt-text check, then either `empty_image_url` or the file check; `Images.ImageAltReported`, `Images.ImageBlankUrl` and `Images.ImageChecked` state each case |
| Images.AltPart | agent/tools/markdown_validator.py:384-392 | missing_alt_text, a warning, exactly when the alt text is empty |
| Images.EmptyImageUrlPart | agent/tools/markdown_validator.py:395-404 | empty_image_url, an error, exactly when the stripped URL is empty |
| Images.MissingImagePart | agent/tools/markdown_validator.py:407-417 | missing_image, an error, exactly when the URL is neither http(s) nor data and its path under the base directory does not exist; the fix names that path |
| Images.ImageIssuesAbout | agent/tools/markdown_validator.py:379-417 | every issue of an image is about its line and quotes the whole match |
| Images.ImageAltReported | agent/tools/markdown_validator.py:384 | missing alt text is reported, and only then |
| Images.ImageBlankUrl | agent/tools/markdown_validator.py:395-404 | a blank URL is reported as empty_image_url, no missing_image follows and the file system is not consulted |
| Images.ImageChecked | agent/tools/markdown_validator.py:406-417 | any other URL gives no empty_image_url, and missing_image exactly when it is local and absent |
| Images.ImageAtOnLine | agent/tools/markdown_validator.py:386 | each image's issues are about its line |
| Images.ChunkOnLine | agent/tools/markdown_validator.py:378-417 | everything reported for a line's images is about that line |
| Images.LineOnLine | agent/tools/markdown_validator.py:386 | each line's image issues are about that line |
| Images.ImageIssuesOnLine | agent/tools/markdown_validator.py:378-417 | the image issues about line n are exactly those of line n's own images |
| Emphasis.Skipped | agent/tools/markdown_validator.py:423-424 | a line whose stripped text starts with ```` ``` ```` or `~~~` is skipped |
| Emphasis.Pairs | agent/tools/markdown_validator.py:430-443 | the number of `**` (or `__`) that `re.findall` finds, left to right without overlap |
| Emphasis.Chunk | agent/tools/markdown_validator.py:421-451 | what `validate_emphasis` appends for one line; `Emphasis.ChunkCount` and `Emphasis.ChunkAbout` characterise it |
| Emphasis.RemoveCodeSpans | agent/tools/markdown_validator.py:427 | removing code spans never lengthens the line |
| Emphasis.NoBacktickUnchanged | agent/tools/markdown_validator.py:427 | a line without backticks is left as it is |
| Emphasis.SpanRemoved | agent/tools/markdown_validator.py:427 | a code span is removed whole, so markers inside it are not counted |
| Emphasis.BoldPart | agent/tools/markdown_validator.py:430-451 | one unmatched_bold warning for the marker `**` or `__` exactly when `re.findall` finds an odd number of them, described with that marker; `Emphasis.Chunk` runs it for `**`, then for `__` |
| Emphasis.ChunkAbout | agent/tools/markdown_validator.py:421-451 | every emphasis issue of a line is an unmatched_bold about that line, quoting it |
| Emphasis.ChunkCount | agent/tools/markdown_validator.py:421-451 | a line that, stripped, starts with three backticks or tildes gives nothing; any other line, inside a fenced block or not, gives one issue per marker style with an odd count once code spans are removed |
| Emphasis.LineOnLine | agent/tools/markdown_validator.py:433 | each line's emphasis issues are about that line |
| Emphasis.EmphasisIssuesOnLine | agent/tools/markdown_validator.py:421-451 | the emphasis issues about line n are exactly line n's own checks |
| Tables.Columns | agent/tools/markdown_validator.py:464 | `cols`: the number of pieces of the stripped row split on `\|` that the comprehension keeps; `Tables.KeptIff` gives the keep rule |
| Tables.IsSeparator | agent/tools/markdown_validator.py:472 | `re.match(r'^[\s\|:-]+$', stripped)`: a non-empty row of whitespace, pipes, colons and dashes |
| Tables.Step | agent/tools/markdown_validator.py:459-483 | the table-state update for one line; `Tables.RegionEnds`, `Tables.BlankKeeps` and `Tables.InnerPipeInert` state its cases |
| Tables.StateAt | agent/tools/markdown_validator.py:455-483 | the table state after the first k lines; `Tables.StateInvariant` states what it records |
| Tables.Cells | agent/tools/markdown_validator.py:464 | the comprehension keeps at most all the pieces |
| Tables.KeptIff | agent/tools/markdown_validator.py:464 | a piece is dropped exactly when it is non-empty and all whitespace |
| Tables.TwoCellRow | agent/tools/markdown_validator.py:464 | `\|x\|y\|` counts its two empty outer pieces and each cell unless it is all whitespace |
| Tables.SplitPieces4 | agent/tools/markdown_validator.py:464 | `\|x\|y\|` splits into the empty string, x, y and the empty string |
| Tables.RowIssues | agent/tools/markdown_validator.py:472-480 | at most one table_column_mismatch about the line, quoting it |
| Tables.RowIssuesIff | agent/tools/markdown_validator.py:461-480 | table_column_mismatch, an error, exactly for a row inside a table whose column count differs from the recorded one and which is not a separator row |
| Tables.BlankKeeps | agent/tools/markdown_validator.py:481-483 | a blank line keeps the table state |
| Tables.InnerPipeInert | agent/tools/markdown_validator.py:461-463 | a line with `\|` that neither starts nor ends with it, once stripped, changes nothing and reports nothing |
| Tables.RegionEnds | agent/tools/markdown_validator.py:466-483 | an open table is closed exactly by a non-blank line without `\|` |
| Tables.StateInvariant | agent/tools/markdown_validator.py:459-483 | while a table is open, its first row is an earlier line whose column count is `header_cols`, and no line since has closed it |
| Tables.LineOnLine | agent/tools/markdown_validator.py:474 | each line's table issue is about that line |
| Tables.TableIssuesOnLine | agent/tools/markdown_validator.py:459-483 | the table issues about line n are exactly line n's own check |
| Tables.MismatchAgainstFirstRow | agent/tools/markdown_validator.py:466-480 | a mismatch is reported only inside a table, never on its first row, against that first row's column count |
| Report.CountSeverity | agent/tools/markdown_validator.py:532-534 | a severity count never exceeds the number of issues |
| Report.CountIsFilter | agent/tools/markdown_validator.py:532-534 | the count is the number of positions holding an issue of that severity |
| Report.CountConcat | agent/tools/markdown_validator.py:532-534 | counting two runs of issues adds their counts |
| Report.CountsAddUp | agent/tools/markdown_validator.py:538-541 | errors, warnings and info add up to the total |
| Report.CountByMultiset | agent/tools/markdown_validator.py:529-534 | the counts depend only on which issues there are, not on their order |
| Report.Summarize | agent/tools/markdown_validator.py:536-545 | the dictionary keeps the file path and the issues, total_issues is their number, and the three counts add up to it |
| Report.SummaryIgnoresOrder | agent/tools/markdown_validator.py:505-534 | the counts of the sorted issues are those of the issues before the sort |
| Validator.CheckerIssues | agent/tools/markdown_validator.py:495-502 | everything the seven checkers append, in the order `validate_all` runs them; `Issues.OnLineSeven` and `Validator.AllIssuesOnLine` state it per line |
| Validator.AllIssues | agent/tools/markdown_validator.py:485-507 | the list `validate_all` returns: the file error on a failed load, otherwise the earlier issues and the checkers' issues, sorted by line; `Validator.AllIssuesSorted`, `Validator.AllIssuesOnLine` and `Validator.LoadFailureAlone` state its promises |
| Validator.LoadError | agent/tools/markdown_validator.py:58-77 | the failure issue is a file_error error on line 0 with no original text |
| Validator.AllIssuesSorted | agent/tools/markdown_validator.py:504-505 | a loaded file's issues come out ordered by line |
| Validator.AllIssuesOnLine | agent/tools/markdown_validator.py:495-505 | the issues about each line are the earlier ones, then each checker's in the order validate_all runs them |
| Validator.LoadFailureAlone | agent/tools/markdown_validator.py:492-493 | an unreadable file yields exactly one issue, a file_error error on line 0 |
| Validator.SummaryCounts | agent/tools/markdown_validator.py:528-541 | the result's counts are those of the issues the seven checkers found |
| Validator.SummaryOfLoadFailure | agent/tools/markdown_validator.py:528-541 | an unreadable file is reported as one issue, one error and nothing else |
| Validator.ValidateMarkdownFile | agent/tools/markdown_validator.py:510-545 | the result is the summary of what validate_all returns for a fresh validator |
| Validator.MarkdownValidator.constructor | agent/tools/markdown_validator.py:33-44 | the path and base directory are kept; content, lines and issues start empty |
| Validator.MarkdownValidator.LoadFile | agent/tools/markdown_validator.py:46-77 | success exactly when the file was read; then content and lines are set; otherwise one file_error is appended and nothing else changes |
| Validator.MarkdownValidator.ValidateAll | agent/tools/markdown_validator.py:485-507 | the result and the new issue list are the issues of the load failure, or the earlier issues and the seven checkers' issues stably sorted by line |
| Validator.MarkdownValidator.CheckAndSort | agent/tools/markdown_validator.py:495-505 | the issues become the earlier ones and the checkers' ones, sorted by line |
| Validator.MarkdownValidator.RunCheckers | agent/tools/markdown_validator.py:495-502 | the seven checkers append their issues in order |
| Validator.MarkdownValidator.ValidateHeaders | agent/tools/markdown_validator.py:79-137 | appends exactly the header issues of the lines |
| Validator.MarkdownValidator.CheckHeading | agent/tools/markdown_validator.py:86-125 | appends the four heading checks of the line, in order, and returns the new `prev_level` |
| Validator.MarkdownValidator.CheckHeadingFormat | agent/tools/markdown_validator.py:93-101 | appends the header_format check |
| Validator.MarkdownValidator.CheckHeadingEmpty | agent/tools/markdown_validator.py:104-112 | appends the empty_header check |
| Validator.MarkdownValidator.CheckHeadingHierarchy | agent/tools/markdown_validator.py:115-123 | appends the header_hierarchy check |
| Validator.MarkdownValidator.CheckHeadingTrailing | agent/tools/markdown_validator.py:128-137 | appends the trailing_hashes check |
| Validator.MarkdownValidator.ValidateUrl | agent/tools/markdown_validator.py:203-279 | appends the URL classification's issue, if any |
| Validator.MarkdownValidator.ValidateLinks | agent/tools/markdown_validator.py:139-201 | appends exactly the link issues of the lines |
| Validator.MarkdownValidator.CollectDefinitions | agent/tools/markdown_validator.py:151-155 | returns the definitions dictionary of the whole document |
| Validator.MarkdownValidator.CheckLinkLines | agent/tools/markdown_validator.py:157-201 | the second pass appends every line's link issues |
| Validator.MarkdownValidator.LinkStep | agent/tools/markdown_validator.py:158-201 | one turn of the second pass appends one more line's link issues |
| Validator.MarkdownValidator.CheckLinkLine | agent/tools/markdown_validator.py:159-201 | appends a line's inline-link issues, then its reference issues |
| Validator.MarkdownValidator.CheckInlineLinks | agent/tools/markdown_validator.py:160-188 | appends the issues of every inline link of the line, in order |
| Validator.MarkdownValidator.InlineStep | agent/tools/markdown_validator.py:160-188 | one turn appends one more inline link's issues |
| Validator.MarkdownValidator.CheckReferences | agent/tools/markdown_validator.py:191-201 | appends the issues of every reference usage of the line, in order |
| Validator.MarkdownValidator.ReferenceStep | agent/tools/markdown_validator.py:191-201 | one turn appends one more usage's issue |
| Validator.MarkdownValidator.CheckReference | agent/tools/markdown_validator.py:192-201 | appends the undefined_reference check of one usage |
| Validator.MarkdownValidator.CheckInlineLink | agent/tools/markdown_validator.py:161-188 | appends the checks of one inline link |
| Validator.MarkdownValidator.ValidateCodeBlocks | agent/tools/markdown_validator.py:281-330 | appends exactly the code-block issues of the lines |
| Validator.MarkdownValidator.ScanFences | agent/tools/markdown_validator.py:288-319 | leaves the fence state after the last line and appends every line's backtick issue |
| Validator.MarkdownValidator.ReportUnclosed | agent/tools/markdown_validator.py:322-330 | appends the unclosed-block report |
| Validator.MarkdownValidator.CodeStep | agent/tools/markdown_validator.py:288-319 | one turn performs one more line's fence update and backtick check |
| Validator.MarkdownValidator.UpdateFence | agent/tools/markdown_validator.py:290-303 | returns the fence state after the line |
| Validator.MarkdownValidator.CheckBackticks | agent/tools/markdown_validator.py:306-319 | appends the backtick check of the line |
| Validator.MarkdownValidator.ValidateLists | agent/tools/markdown_validator.py:332-372 | appends exactly the list issues of the lines |
| Validator.MarkdownValidator.ListStep | agent/tools/markdown_validator.py:338-372 | one turn appends one more line's list issues and returns the new `prev_was_list` |
| Validator.MarkdownValidator.CheckListLine | agent/tools/markdown_validator.py:339-372 | appends a line's list checks and returns the new `prev_was_list` |
| Validator.MarkdownValidator.ValidateImages | agent/tools/markdown_validator.py:374-417 | appends exactly the image issues of the lines |
| Validator.MarkdownValidator.ImageLineStep | agent/tools/markdown_validator.py:378-417 | one turn appends one more line's image issues |
| Validator.MarkdownValidator.CheckImageLine | agent/tools/markdown_validator.py:379-417 | appends the issues of every image of the line |
| Validator.MarkdownValidator.ImageStep | agent/tools/markdown_validator.py:379-417 | one turn appends one more image's issues |
| Validator.MarkdownValidator.CheckImage | agent/tools/markdown_validator.py:380-417 | appends the checks of one image |
| Validator.MarkdownValidator.ValidateEmphasis | agent/tools/markdown_validator.py:419-451 | appends exactly the emphasis issues of the lines |
| Validator.MarkdownValidator.EmphasisStep | agent/tools/markdown_validator.py:421-451 | one turn appends one more line's emphasis issues |
| Validator.MarkdownValidator.CheckEmphasisLine | agent/tools/markdown_validator.py:423-451 | appends the emphasis checks of one line |
| Validator.MarkdownValidator.ValidateTables | agent/tools/markdown_validator.py:453-483 | appends exactly the table issues of the lines |
| Validator.MarkdownValidator.TableStep | agent/tools/markdown_validator.py:459-483 | one turn appends one more line's table issue and returns the new table state |
| Validator.MarkdownValidator.CheckTableLine | agent/tools/markdown_validator.py:461-483 | appends the line's table check and returns the state update |

## Left out

- Opening and reading the file (`open`, UTF-8 decoding, newline translation) is a parameter: `Validator.LoadOutcome` says whether the read gave a text, `FileNotFoundError` or another exception with its message.
- `os.path.dirname(os.path.abspath(file_path))` is not computed. The base directory is given to the constructor.
- `os.path.exists`, `urllib.parse.urlparse` and `requests.head` are oracles (`Urls.Oracles`). For the lemmas about `mailto:`, `tel:` and `http://`, a model of `urlsplit`'s scheme and netloc is given. Only the scheme and netloc fields of the parse result are modelled. The `urlsplit` model leaves out the checks newer Python versions make on a bracketed host and on a non-ASCII netloc.
- The probe's failures other than a timeout are all one case, which reports nothing, as the source's `RequestException` and `Exception` handlers do.
- The anchor regex that `_validate_url` compiles and never uses (lines 216-221) is not modelled. Anchors report nothing.
- `str.lower`, `\w` and `\d` are modelled on ASCII only. `\s` and `str.strip()` use Python's full whitespace set.
- `asdict`: the model returns the issue records themselves, not dictionaries with the same fields.
- `prev_indent` in `validate_lists` and `reference_usages` in `validate_links` are assigned but never read, so they are not modelled.
- Report.Summarize: the text of the `summary` string is built as in the source, but its contract does not state that text; the fields and the three counts are stated.
- The `__main__` block (command-line use and JSON printing) is not part of this model, and neither are the web front end and the agent wrapper that call `validate_markdown_file`.
