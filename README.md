# mkdocs-strip-number-prefix, modelled in Dafny

The plugin lets documentation authors order their markdown pages with a
numeric prefix (`010--intro.md`, `guides/020--setup.md`) while the built
site uses clean names (`intro.md`, `guides/setup.md`). This project models
the plugin object `StripNumberPrefixPlugin` of
`src/mkdocs_strip_number_prefix/plugin.py` and proves what it guarantees.

- **Prefix** (`prefix.dfy`): the ordering-prefix matcher, fixed to the
  default pattern `^\d+--`. `IsPrefixed` is `re.match` and `StripPrefix` is
  `re.sub("", name)`.
- **PurePaths** (`paths.dfy`): the part of `pathlib.PurePosixPath` the
  plugin uses. It covers parsing into a root and parts, `.name`, `.parent`,
  `str`, the comparison with `Path(".")` and `parent / name`.
- **PathRewrite** (`rewrite.dfy`): `NewPath`, the last-component rewrite
  that `on_files` and the link callback share. It strips the prefix of the
  name and puts the name back under the parent. When the parent is `.`, the
  result is the bare new name.
- **PyText** (`text.dfy`): Python's `str.replace`. It scans left to right
  and replaces non-overlapping occurrences. An empty pattern inserts the
  replacement everywhere.
- **Links** (`links.dfy`): `on_page_markdown`'s link rewriter.
  - `re.sub` with `\[([^\]]+)\]\(([^)]+\.md(?:#[^)]*)?)\)` walks the body.
    At each position it either matches a link or copies one character.
  - The callback `replace_link` splits off the anchor. It rewrites the path
    when the file name carries a prefix, and otherwise returns the match
    unchanged.
- **Plugin** (`plugin.dfy`): the plugin class and `on_files`.
  - The class has the two tables the plugin keeps between calls:
    `collisions` and `processedFiles`. Neither is ever cleared.
  - `File` objects have `srcPath`, `destPath` and `url` fields that the
    pass updates in place.
  - Each phase of `on_files` is a loop in a method, proved against a
    function on values:
    - first pass: `CollectTransformations`, against `Collect`;
    - `dest_counts`: `CountDestinations`, against `Group`;
    - the report loop: `ReportCollisions`, against `ReportLoop`;
    - the apply loop: `ApplyTransformations`, against `Applied`, `ApplyAll`
      and `Processed`.
  - `OnFiles` is proved to produce exactly `OnFilesSpec`.
- **OnFilesProperties** (`onfiles.dfy`): what one `on_files` call
  guarantees. The lemmas are stated on `OnFilesSpec` and cover:
  - strict mode raises exactly on a collision and is then all-or-nothing;
  - non-strict mode records every collision and skips the pages involved;
  - every other selected page is rewritten;
  - unselected files are never touched;
  - what `processed_files` records.
- **OnFilesExamples** (`onfiles_examples.dfy`): the sites of the plugin's
  own test suite, worked through `OnFilesSpec`.

The plugin's test suite and its code disagree. For `010--intro.md` with
`dest_path` `010--intro/index.html` and `url` `010--intro/`, the tests
(`tests/test_plugin.py:83-102`, `104-119`) expect two things:

- `src_path` stays unchanged;
- `dest_path` becomes `intro/index.html`.

The code (`plugin.py:116` and `plugin.py:123`) does something else:

- It assigns the new path to `src_path`.
- It replaces the old *basename* `010--intro.md` inside `dest_path`. That
  string does not occur in `010--intro/index.html`, so `dest_path` stays as
  it was.
- Only `url` loses its prefix, because the stem `010--intro` does occur in
  it.

The model follows the code. `OnFilesExamples.TopLevelPageOutcome` and
`OnFilesExamples.SubdirectoryPageOutcome` state the resulting fields.

## Model

| member | source | states |
|---|---|---|
| Prefix.DigitRun | src/mkdocs_strip_number_prefix/plugin.py:31 | the greedy `\d+` run: it is all digits and is followed by a non-digit or the end |
| Prefix.IsPrefixed | src/mkdocs_strip_number_prefix/plugin.py:68 | `prefix_pattern.match(name)`: a non-empty greedy digit run at the start, then `--` |
| Prefix.StripPrefix | src/mkdocs_strip_number_prefix/plugin.py:72 | a matching name loses exactly one leading ordering prefix (digits then `--`) and keeps the rest; any other name is returned unchanged |
| Prefix.IsPrefixedIff | src/mkdocs_strip_number_prefix/plugin.py:68 | the match test holds iff some non-empty block of leading digits is followed by `--` |
| Prefix.StripRemovesExactlyThePrefix | src/mkdocs_strip_number_prefix/plugin.py:72 | for an ordering prefix `p`, `p + t` matches and strips to exactly `t` |
| Prefix.StripShrinks | src/mkdocs_strip_number_prefix/plugin.py:72 | stripping never lengthens a name, and shortens it iff the name matches |
| Prefix.DefaultPatternAccepts | tests/test_plugin.py:54-56 | `123--file.md`, `01--intro.md` and `999--appendix.md` match |
| Prefix.DefaultPatternRejects | tests/test_plugin.py:59-61 | `file.md`, `123-file.md` and `abc--file.md` do not match |
| Prefix.StripRemovesOnePrefix | src/mkdocs_strip_number_prefix/plugin.py:31 | the pattern is anchored: `1--2--a.md` becomes `2--a.md`, which still matches, so stripping is not idempotent |
| PurePaths.Split | src/mkdocs_strip_number_prefix/plugin.py:67 | splitting on `/` always yields at least one piece |
| PurePaths.Parse | src/mkdocs_strip_number_prefix/plugin.py:67 | a parsed path has an empty root, `/` or `//` and parts that are non-empty, not `.` and free of `/` |
| PurePaths.Format | src/mkdocs_strip_number_prefix/plugin.py:79 | `str(p)`: the root followed by the parts joined with `/`, and `.` for the empty relative path |
| PurePaths.Name | src/mkdocs_strip_number_prefix/plugin.py:67 | `p.name`: the last part, or the empty string when there are no parts |
| PurePaths.Parent | src/mkdocs_strip_number_prefix/plugin.py:75 | `p.parent`: the path without its last part; a path without parts is its own parent |
| PurePaths.Child | src/mkdocs_strip_number_prefix/plugin.py:79 | `parent / name`: the joined string, parsed again |
| PurePaths.FileName | src/mkdocs_strip_number_prefix/plugin.py:67 | `Path(s).name`: the last part of the parsed string |
| PurePaths.SplitAppend | src/mkdocs_strip_number_prefix/plugin.py:79 | splitting `a/b` gives the pieces of `a` followed by those of `b` |
| PurePaths.JoinSplit | src/mkdocs_strip_number_prefix/plugin.py:79 | joining the pieces of a split gives back the string |
| PurePaths.SplitJoin | src/mkdocs_strip_number_prefix/plugin.py:79 | splitting a join of slash-free parts gives back the parts |
| PurePaths.ParseClean | src/mkdocs_strip_number_prefix/plugin.py:67 | a clean relative path parses to its pieces, and `str` gives it back verbatim |
| PurePaths.CleanAppend | src/mkdocs_strip_number_prefix/plugin.py:79 | a clean directory plus `/` plus a clean name is clean, and its pieces are the directory's plus the name |
| PurePaths.FileNameUnder | src/mkdocs_strip_number_prefix/plugin.py:67 | `Path(dir + "/" + file).name` is `file` |
| PurePaths.ChildAppends | src/mkdocs_strip_number_prefix/plugin.py:79 | `parent / seg` appends `seg` to the parts and keeps the root |
| PathRewrite.NewPathChangesOnlyTheName | src/mkdocs_strip_number_prefix/plugin.py:67-79 | for every path, the rewritten path has the same root and parent parts, and its last part is the stripped name (dropped when stripping leaves the empty name or `.`) |
| PathRewrite.NewPath | src/mkdocs_strip_number_prefix/plugin.py:67-79 | the new source path: the stripped name alone when the parent is `Path(".")`, otherwise `str(parent / new_name)` |
| PathRewrite.NewPathTopLevel | src/mkdocs_strip_number_prefix/plugin.py:76-77 | a top-level file becomes its bare stripped name, with no `./` |
| PathRewrite.NewPathKeepsParent | src/mkdocs_strip_number_prefix/plugin.py:78-79 | `dir/name` becomes `dir/` plus the stripped name, with the directory kept verbatim |
| PathRewrite.NewPathName | src/mkdocs_strip_number_prefix/plugin.py:119-120 | the name of the new path is the stripped old name |
| PathRewrite.NewPathExamples | tests/test_plugin.py:83-119 | `010--intro.md` becomes `intro.md`, `guides/020--setup.md` becomes `guides/setup.md`, and `guides/010--quickstart.md` becomes `guides/quickstart.md` |
| PathRewrite.NewPathSubdirectoryExamples | tests/test_plugin.py:104-119 | the two subdirectory pages keep `guides/` and lose their prefixes |
| PathRewrite.NewPathAfterEmptyPiece | src/mkdocs_strip_number_prefix/plugin.py:75-79 | for `a//b/file` with slash-free, non-empty pieces, the empty piece is dropped: the name is `file`, and the new path is `a/b/` plus the stripped name |
| PathRewrite.NewPathUrlExample | src/mkdocs_strip_number_prefix/plugin.py:158-167 | the rewrite does not tell a URL from a relative path: `https://e.com/010--a.md` becomes `https:/e.com/a.md` |
| PyText.ReplaceAbsent | src/mkdocs_strip_number_prefix/plugin.py:123 | `s.replace(pat, rep)` leaves a string with no occurrence of `pat` unchanged |
| PyText.ReplaceLeftmost | src/mkdocs_strip_number_prefix/plugin.py:128 | the leftmost occurrence is replaced, and the scan resumes after it |
| PyText.Replace | src/mkdocs_strip_number_prefix/plugin.py:123 | `s.replace(pat, rep)`: a left-to-right scan that replaces each non-overlapping occurrence; an empty `pat` puts `rep` before every character and at the end |
| PyText.Stem | src/mkdocs_strip_number_prefix/plugin.py:126-127 | `basename.replace(".md", "")`: the basename with every `.md` removed |
| Links.Find | src/mkdocs_strip_number_prefix/plugin.py:143 | the first occurrence of a character, or none at all |
| Links.IsMdTarget | src/mkdocs_strip_number_prefix/plugin.py:143 | the target group `[^)]+\.md(?:#[^)]*)?`: at least one character, then `.md`, then the end or a `#` |
| Links.IsLink | src/mkdocs_strip_number_prefix/plugin.py:143 | the whole pattern: a non-empty text without `]`, and a markdown target without `)` |
| Links.MatchLink | src/mkdocs_strip_number_prefix/plugin.py:143 | a match at the head of the body is a well-formed link (non-empty text without `]`, a target without `)` that ends in `.md` or `.md#...`) whose `group(0)` is a prefix of the body |
| Links.SplitAnchor | src/mkdocs_strip_number_prefix/plugin.py:150-155 | the target is the path part then the anchor; the path part has no `#`; the anchor is empty or starts with `#` |
| Links.Tokenize | src/mkdocs_strip_number_prefix/plugin.py:177 | every link token is a link the pattern accepts |
| Links.MatchLinkAt | src/mkdocs_strip_number_prefix/plugin.py:143 | `[text](target)` followed by anything matches as exactly that link iff the target ends in `.md` (or `.md#...`) |
| Links.TokenizeCovers | src/mkdocs_strip_number_prefix/plugin.py:177 | the tokens spell out the whole body: nothing is lost or duplicated |
| Links.RewriteIsRender | src/mkdocs_strip_number_prefix/plugin.py:177 | the rewritten body is, token by token, each character copied and each link replaced by the callback's text |
| Links.Rewritten | src/mkdocs_strip_number_prefix/plugin.py:145-174 | `replace_link`: when the file name of the path part is prefixed, the text, the new path and the anchor; otherwise `group(0)` |
| Links.RewriteLinks | src/mkdocs_strip_number_prefix/plugin.py:177 | `link_pattern.sub(replace_link, markdown)`: at each position, a matched link is replaced and the scan resumes after it; otherwise one character is copied |
| Links.UnprefixedLinksUnchanged | src/mkdocs_strip_number_prefix/plugin.py:159-174 | when no matched link's file name carries a prefix, the body comes back unchanged |
| Links.RewriteNoBracket | src/mkdocs_strip_number_prefix/plugin.py:177 | text without `[` is copied through verbatim |
| Links.RewriteLinkHead | src/mkdocs_strip_number_prefix/plugin.py:177 | a link at the head is replaced by the callback's text, and the scan resumes right after it |
| Links.NonMarkdownTargetSkipped | src/mkdocs_strip_number_prefix/plugin.py:143 | a link whose target does not end in `.md` is not matched and is copied through |
| Links.RewrittenKeepsTextAndAnchor | src/mkdocs_strip_number_prefix/plugin.py:158-174 | a rewritten link keeps its text and its anchor, and only the path part changes |
| Links.LinkUnderDirectory | src/mkdocs_strip_number_prefix/plugin.py:162-167 | `[t](dir/NNN--name#a)` becomes `[t](dir/name#a)` |
| Links.TopLevelLinkRewrite | src/mkdocs_strip_number_prefix/plugin.py:164-165 | a link to `NNN--name.md#a` in the body becomes `name.md#a`, and the rest of the body is rewritten in turn |
| Links.DirLinkRewrite | src/mkdocs_strip_number_prefix/plugin.py:166-167 | a link to `dir/NNN--name.md#a` in the body becomes `dir/name.md#a`, and the rest of the body is rewritten in turn |
| Links.ExternalLinkKept | tests/test_plugin.py:198 | a link whose target does not end in `.md` (or `.md#...`), such as a plain URL, is left verbatim |
| Links.RewrittenWithoutAnchor | src/mkdocs_strip_number_prefix/plugin.py:154-172 | a prefixed link without an anchor becomes `[text](new_path)` |
| Links.UrlLinkRewritten | src/mkdocs_strip_number_prefix/plugin.py:158-172 | an absolute link to a prefixed markdown file is rewritten too: `[x](https://e.com/010--a.md)` becomes `[x](https:/e.com/a.md)` |
| Links.LinkScopingExample | src/mkdocs_strip_number_prefix/plugin.py:145-177 | in the body `[A](010--x.md) [B](https://e.com) [C](010--x.md#sec)`, the prefixed link and the prefixed link with an anchor lose the prefix (the anchor stays), and the external link is kept |
| Links.SubdirectoryLinkExample | tests/test_plugin.py:226-238 | `See [Guide](guides/010--quickstart.md) for details.` gets the link `guides/quickstart.md` |
| Plugin.File.constructor | src/mkdocs_strip_number_prefix/plugin.py:62-64 | a file starts with the given paths, URL and page flag |
| Plugin.Collect | src/mkdocs_strip_number_prefix/plugin.py:59-85 | every planned transformation belongs to a selected file: its old path is that file's source path and its new path is `NewPath` of it; plans are in strictly increasing file order |
| Plugin.Selected | src/mkdocs_strip_number_prefix/plugin.py:62-69 | the first pass takes a file iff it is a documentation page whose `.name` matches the pattern |
| Plugin.CollectSelects | src/mkdocs_strip_number_prefix/plugin.py:62-69 | a file gets a plan iff it is a documentation page whose name matches |
| Plugin.Group | src/mkdocs_strip_number_prefix/plugin.py:87-90 | `dest_counts`: its keys are exactly the map's domain, without repeats (their insertion order is `OnFilesProperties.GroupKeyOrder`) |
| Plugin.FirstTo | src/mkdocs_strip_number_prefix/plugin.py:89-90 | the position of the first planned transformation to a new path, or the length of the plan when there is none: no earlier transformation goes there |
| Plugin.ReportLoop | src/mkdocs_strip_number_prefix/plugin.py:92-103 | the report loop: keys with two or more sources set `has_collision` and are written into the table, in key order; strict mode raises at the first one and stops |
| Plugin.CommaJoin | src/mkdocs_strip_number_prefix/plugin.py:98 | `", ".join(sources)` |
| Plugin.Message | src/mkdocs_strip_number_prefix/plugin.py:98-101 | the `PluginError` text: `StripNumberPrefix: Multiple files would map to '<dest>': <sources>` |
| Plugin.Skipped | src/mkdocs_strip_number_prefix/plugin.py:113 | the skip test: there was a collision and the new path is in `self.collisions` |
| Plugin.Applied | src/mkdocs_strip_number_prefix/plugin.py:111-114 | the transformations the apply loop carries out: the plan without the skipped ones, in order |
| Plugin.Rewrite | src/mkdocs_strip_number_prefix/plugin.py:116-128 | one applied rewrite of a file: the new source path, the basename replaced in `dest_path` and the stem replaced in `url` |
| Plugin.ApplyAll | src/mkdocs_strip_number_prefix/plugin.py:111-128 | the files after the applied transformations, carried out one after the other |
| Plugin.Processed | src/mkdocs_strip_number_prefix/plugin.py:131 | `processed_files` after the applied transformations: each maps its old source path to its new one, a later one overwriting |
| Plugin.OnFilesSpec | src/mkdocs_strip_number_prefix/plugin.py:54-133 | the whole of `on_files`, phase after phase: the error raised, the files, the collision table and `processed_files` |
| Plugin.AppliedMembers | src/mkdocs_strip_number_prefix/plugin.py:111-114 | the apply loop carries out exactly the planned transformations that the skip test does not exclude |
| Plugin.RewriteFile | src/mkdocs_strip_number_prefix/plugin.py:116-128 | one file's new state: the new source path, the old basename replaced in `dest_path`, and the old stem replaced in `url` |
| Plugin.ReportStops | src/mkdocs_strip_number_prefix/plugin.py:100-101 | once strict mode has raised, the remaining keys change nothing |
| Plugin.CollectTransformations | src/mkdocs_strip_number_prefix/plugin.py:59-85 | the first-pass loop computes `Collect` of the files' fields |
| Plugin.CountDestinations | src/mkdocs_strip_number_prefix/plugin.py:87-90 | the `dest_counts` loop computes `Group` of the plan |
| Plugin.StripNumberPrefixPlugin.constructor | src/mkdocs_strip_number_prefix/plugin.py:37-41 | no pattern compiled yet, and both tables empty |
| Plugin.StripNumberPrefixPlugin.OnConfig | src/mkdocs_strip_number_prefix/plugin.py:43-52 | the default pattern is compiled, and the tables are kept |
| Plugin.StripNumberPrefixPlugin.OnFiles | src/mkdocs_strip_number_prefix/plugin.py:54-133 | the error raised, the files' new fields and both tables are exactly `OnFilesSpec` of the old state; with no pattern compiled, nothing changes |
| Plugin.StripNumberPrefixPlugin.ApplyUnlessRaised | src/mkdocs_strip_number_prefix/plugin.py:105-131 | the apply loop runs only when strict mode has not raised; otherwise the files and `processed_files` are unchanged |
| Plugin.StripNumberPrefixPlugin.ReportCollisions | src/mkdocs_strip_number_prefix/plugin.py:92-103 | the report loop computes `ReportLoop`: the error, `has_collision` and the new collision table |
| Plugin.StripNumberPrefixPlugin.ApplyTransformations | src/mkdocs_strip_number_prefix/plugin.py:105-131 | the files become `ApplyAll` of the applied transformations, and `processed_files` becomes `Processed` of them |
| Plugin.StripNumberPrefixPlugin.ApplyStep | src/mkdocs_strip_number_prefix/plugin.py:111-131 | one pass of the apply loop: transformation `n` is carried out unless the skip test excludes it |
| Plugin.StripNumberPrefixPlugin.ApplyOne | src/mkdocs_strip_number_prefix/plugin.py:115-131 | one more applied transformation, on the file and on `processed_files` |
| Plugin.StripNumberPrefixPlugin.OnPageMarkdown | src/mkdocs_strip_number_prefix/plugin.py:135-177 | with `strip_links` off or no pattern, the body is returned as is; otherwise every matched link is rewritten and every other character is copied |
| OnFilesProperties.SourcesToCount | src/mkdocs_strip_number_prefix/plugin.py:95 | a new path has sources iff it is planned, and two or more iff two files collide on it |
| OnFilesProperties.GroupSources | src/mkdocs_strip_number_prefix/plugin.py:88-90 | `dest_counts[d]` is the list of old paths planned to `d`, in file order, and unplanned paths are not keys |
| OnFilesProperties.GroupDomain | src/mkdocs_strip_number_prefix/plugin.py:88-90 | a new path is a key of `dest_counts` iff some transformation is planned to it |
| OnFilesProperties.GroupKeyOrder | src/mkdocs_strip_number_prefix/plugin.py:88-90 | the keys of `dest_counts` come in insertion order: an earlier key is first planned by an earlier file |
| OnFilesProperties.SharedKeyIsCollision | src/mkdocs_strip_number_prefix/plugin.py:94-95 | a key with two or more sources is exactly a collision of the plan |
| OnFilesProperties.ReportFlags | src/mkdocs_strip_number_prefix/plugin.py:93-103 | `has_collision` is set iff some key has two or more sources; without one, the table is unchanged; strict mode raises iff there is a collision |
| OnFilesProperties.ReportStrictError | src/mkdocs_strip_number_prefix/plugin.py:97-101 | strict mode raises on the first shared key in insertion order, with all of its sources, and that key is the only one added to the table |
| OnFilesProperties.StrictErrorIsFirst | src/mkdocs_strip_number_prefix/plugin.py:94-101 | strict mode raises for the shared path that is first planned earliest in file order: no other shared path is first planned before it |
| OnFilesProperties.ReportNonStrict | src/mkdocs_strip_number_prefix/plugin.py:97-103 | non-strict mode never raises and writes every shared key with its sources; older entries stay unless overwritten |
| OnFilesProperties.AppliedAre | src/mkdocs_strip_number_prefix/plugin.py:111-114 | a transformation is applied iff it is the plan of a selected file that is not skipped |
| OnFilesProperties.AppliedSource | src/mkdocs_strip_number_prefix/plugin.py:111-116 | an applied transformation starts from the source path of the file it rewrites |
| OnFilesProperties.AppliedIncreasing | src/mkdocs_strip_number_prefix/plugin.py:111 | the apply loop keeps the file order of the first pass |
| OnFilesProperties.ApplyAllUntouched | src/mkdocs_strip_number_prefix/plugin.py:111-128 | a file that no applied transformation refers to keeps its fields |
| OnFilesProperties.ApplyAllRewrites | src/mkdocs_strip_number_prefix/plugin.py:111-128 | the file of each applied transformation ends up as that one rewrite of its original fields |
| OnFilesProperties.FileOutcome | src/mkdocs_strip_number_prefix/plugin.py:105-128 | after a call that raised nothing, each file is its planned rewrite if it was not skipped, and otherwise is unchanged; stale entries of the table count in the skip test |
| OnFilesProperties.HasCollisionIff | src/mkdocs_strip_number_prefix/plugin.py:93-96 | `has_collision` is set iff two selected files are planned to the same new path |
| OnFilesProperties.UnselectedUntouched | src/mkdocs_strip_number_prefix/plugin.py:62-69 | a file that is not a prefixed documentation page keeps all its fields, in every mode |
| OnFilesProperties.StrictOnFiles | src/mkdocs_strip_number_prefix/plugin.py:92-108 | strict mode raises iff there is a collision. Then no file and no `processed_files` entry changes, the error names the shared path whose first planned file comes earliest, with all its sources in file order, and only that path is added to the table. A call that raises nothing leaves the table alone |
| OnFilesProperties.NonStrictOnFiles | src/mkdocs_strip_number_prefix/plugin.py:97-103 | non-strict mode never raises; afterwards the table holds every shared path with its sources, besides the entries of earlier calls |
| OnFilesProperties.CollidingFileKept | src/mkdocs_strip_number_prefix/plugin.py:112-114 | in non-strict mode, a file whose new path is shared keeps all its fields |
| OnFilesProperties.AllRewrittenWithoutCollision | src/mkdocs_strip_number_prefix/plugin.py:105-128 | without a collision, every selected file is rewritten, in either mode |
| OnFilesProperties.ProcessedRecordsRewritten | src/mkdocs_strip_number_prefix/plugin.py:131 | after a call that raised nothing, `processed_files` maps each rewritten file's old source path to its new one |
| OnFilesProperties.ProcessedKeepsOthers | src/mkdocs_strip_number_prefix/plugin.py:131 | entries of `processed_files` for paths no rewritten file started from are unchanged |
| OnFilesProperties.MessageNamesPath | src/mkdocs_strip_number_prefix/plugin.py:98-101 | the raised message contains `Multiple files would map to '<path>'` |
| OnFilesExamples.SingleSelectedFile | src/mkdocs_strip_number_prefix/plugin.py:54-133 | a site with one selected page: it is rewritten and recorded, and no error is raised in either mode |
| OnFilesExamples.TwoSelectedCollide | src/mkdocs_strip_number_prefix/plugin.py:92-114 | two pages with the same new path: strict raises naming both, while non-strict rewrites neither; both modes record the collision |
| OnFilesExamples.TopLevelPageOutcome | tests/test_plugin.py:83-102 | `010--intro.md` becomes `intro.md` with `url` `intro/`, and `dest_path` stays `010--intro/index.html` |
| OnFilesExamples.SubdirectoryPageOutcome | tests/test_plugin.py:104-119 | `guides/020--setup.md` becomes `guides/setup.md` with `url` `guides/setup/`, and `dest_path` stays `guides/020--setup/index.html` |
| OnFilesExamples.IntroDestKept | src/mkdocs_strip_number_prefix/plugin.py:123 | replacing `010--intro.md` in `010--intro/index.html` finds nothing |
| OnFilesExamples.SetupDestKept | src/mkdocs_strip_number_prefix/plugin.py:123 | replacing `020--setup.md` in `guides/020--setup/index.html` finds nothing |
| OnFilesExamples.IntroPagesCollide | tests/test_plugin.py:138-187 | `010--intro.md` and `020--intro.md` collide on `intro.md`. Strict mode raises `Multiple files would map to 'intro.md'`, and non-strict mode changes neither page |
| OnFilesExamples.NonPageIgnored | tests/test_plugin.py:240-254 | a non-documentation file `010--image.png` is left alone |

## Left out

- The `pattern` option is left out. The model fixes the default `^\d+--`.
  A custom pattern, and the `PluginError` that `on_config` raises when the
  pattern does not compile, are not modelled. To model them would mean
  modelling Python regular expressions.
- `\d` is read as the ASCII digits `0`-`9`. Python also accepts other
  Unicode decimal digits.
- The `verbose` option and all logging, including the warning that
  non-strict mode writes for a collision, are output only.
- Paths follow `PurePosixPath` only. Windows separators and drive letters
  are not modelled.
- The MkDocs host types are reduced to the fields the plugin reads and
  writes:
  - `Files` is a sequence of `File` objects;
  - `Page` and the MkDocs config are dropped;
  - `is_documentation_page()` is a constant flag on each file.
- Plugin.StripNumberPrefixPlugin.OnFiles: requires the `File` objects in
  the list to be pairwise distinct. MkDocs never lists one file twice.
- Group: its own contract does not state the order of its keys.
  `OnFilesProperties.GroupKeyOrder` and `GroupDomain` prove that order
  separately, by induction over the plan.
- Plugin.ApplyAll: ignores a transformation whose index is beyond the
  list. The first pass never plans one (`CollectApplicable`).
- Navigation-title stripping (`on_nav`) is exercised by the tests
  (`tests/test_plugin.py:311-509`) but does not exist in `plugin.py`, so it
  is not modelled. `plugin.py`'s `config_scheme` (plugin.py:30-35) has no
  dry-run option.
- `build_docs.py` and `__init__.py` are not part of this model. They are a
  build script and a package marker.
