# pr-to-md in Dafny

This project models the two report generators of pr-to-md. Each one turns
the changes between two git revisions into a Markdown document.

- `pr2md_a.py`, the PR summary generator. It lists the changed paths with
  `git diff --name-status` and filters them by exclude patterns and an
  optional extension allow-list. It reads the totals of `git diff --stat`.
  It then assembles a summary section, a new-files section (whole
  contents), a modified-files section (diffs), an other-changes section
  (deletions and renames) and a technical-summary placeholder.
- `pr2md_b.py`, the branch-change report. It lists the changes with their
  counts and groups them by directory. It writes a header, a summary, a
  directory index and one part per file. Each part is a placeholder, the
  content of a new file, or a diff compacted by `format_diff_for_markdown`.
  A list of binary files closes the report. When no base branch is given,
  it picks the first of `main`, `master` and `develop` that has a merge base.

Every git command, file read and clock read is an input of the model. In
`pr2md_a.py` they are `GitResult` values, either the trimmed output or a
`GitError`, held by a `Repo` record of functions. In `pr2md_b.py` they are
`CommandResult(output, code)` values held by a `Git` record. What the report
writes to its file is a `seq<string>` of the strings passed to `f.write`.

Modules, one per file:

| file | module | models |
|---|---|---|
| strings.dfy | Strings | `str.split`, `str.join`, `str(int)`, ASCII `lower`, slicing, string order, UTF-8 length |
| paths.dfy | Paths | `Path.name`, `Path.parent`, `Path.suffix` for `/`-separated paths |
| sorting.dfy | Sorting | `sorted(..., key=...)` as an insertion sort |
| summary_generator.dfy | PrSummary | settings, `_should_include_file`, `_is_binary_file`, `_get_file_changes`, `_get_file_content`, `_format_file_extension` |
| stat_summary.dfy | StatSummary | `_get_diff_stats` |
| summary_sections.dfy | PrSections | `_generate_summary_section` |
| file_sections.dfy | PrFileSections | `_generate_new_files_section`, `_generate_modified_files_section`, `_generate_other_changes_section` |
| pr_document.dfy | PrDocument | `generate_summary` |
| diff_compactor.dfy | DiffCompactor | `format_diff_for_markdown` |
| branch_changes.dfy | BranchChanges | `get_file_changes`, `is_binary_file`, `should_skip_file`, `group_files_by_directory`, the base-branch auto-detect |
| branch_report.dfy | BranchReport | `generate_markdown_report` |

Where the code appends to a list or a dict in a loop, the model is a method
with a loop. Each such method is proved equal to a function, and the lemmas
are about that function. This holds for `_get_file_changes`,
the section builders, `format_diff_for_markdown`,
`get_file_changes`, `group_files_by_directory` and `generate_markdown_report`.
Dictionary lookups and comprehensions are functions, and so is
`_get_diff_stats`, which has no loop.

Three behaviours of the code are worth naming, because a reader might expect
otherwise. The model does what the code does in each:

- Top-level files are grouped under the key `Root`, with a capital R
  (pr2md_b.py:308-309).
- A long run of unchanged diff lines keeps its first `max_unchanged_lines`
  lines and then gets the marker. The marker does not replace the whole run
  (pr2md_b.py:274-280).
- A rename with no content change is reported "(with modifications)" by
  pr2md_a.py:608, because git's diff for it begins with the `diff --git`
  header, not with the similarity line. The renames list, the other-changes
  section and the whole document use this note as written. The intended
  note is modelled beside it; see "## Findings".

## Model

| member | source | states |
|---|---|---|
| Strings.SplitOn | pr2md_b.py:150 | `str.split` with a non-empty separator: at least one piece, and exactly one when the separator does not occur |
| Strings.JoinSplit | pr2md_b.py:293 | joining the pieces of a split with the same separator gives the text back |
| Strings.SplitJoin | pr2md_b.py:116 | splitting a join of separator-free pieces gives the pieces back |
| Strings.FirstOccurrence | pr2md_b.py:116-117 | the first piece of a split is the text before the first separator |
| Strings.JoinEndsWithLast | pr2md_a.py:671 | a join ends with its last piece |
| Strings.JoinSnoc | pr2md_a.py:516 | joining one more piece adds the separator and the piece at the end |
| Strings.IndexOf | pr2md_a.py:246 | the substring test: the first position where the substring occurs, and none exactly when it does not occur |
| Strings.NatToString | pr2md_a.py:472 | a decimal numeral: digits only, no leading zero |
| Strings.DigitsValueOfNatToString | pr2md_a.py:400 | reading back the numeral of `n` gives `n` (`int(str(n)) == n`) |
| Strings.NatToStringInjective | pr2md_a.py:472 | distinct counts print differently |
| Strings.LexLeqTotal | pr2md_a.py:474 | the string order of `sorted` is total |
| Strings.LexLeqTransitive | pr2md_a.py:474 | the string order of `sorted` is transitive |
| Strings.LexLeqAntisymmetric | pr2md_a.py:474 | the string order of `sorted` is antisymmetric |
| Strings.LowerCases | pr2md_b.py:156 | ASCII lower-casing: same length, no capital letter left, each capital becomes its small letter, every other character kept |
| Strings.LowerIdempotent | pr2md_b.py:156 | lower-casing a lower-cased text changes nothing |
| Strings.LowerAppend | pr2md_b.py:156 | lower-casing distributes over concatenation |
| Strings.Take | pr2md_a.py:304 | `content[:1000]`: a prefix of length `min(len, 1000)` |
| Strings.Utf8Length | pr2md_a.py:344 | the UTF-8 length of a text is between one and four bytes per character |
| Strings.Utf8LengthOfAscii | pr2md_a.py:344 | an ASCII text has one byte per character |
| Strings.ArrowSplit | pr2md_b.py:372 | splitting on ` → ` after an arrow-free head gives the head, then the pieces of the rest |
| Paths.LastIndexOf | pr2md_b.py:307 | the last position of a character, and none exactly when it is absent |
| Paths.Name | pr2md_b.py:156 | `Path.name`: a slash-free ending of the path, the whole path when it has no slash |
| Paths.Parent | pr2md_b.py:307 | `Path.parent`: `.` without a slash, otherwise a proper prefix |
| Paths.ParentSlashName | pr2md_b.py:307 | a path with a slash is its parent, a slash and its name |
| Paths.ParentAndNameOfJoin | pr2md_b.py:307 | `dir/file` has parent `dir` and name `file` |
| Paths.Suffix | pr2md_a.py:251 | `Path.suffix`: empty, or a dot and dot-free text ending the name and shorter than it |
| Paths.SuffixOfName | pr2md_a.py:420 | the suffix depends only on the name |
| Paths.SuffixOfStemAndExtension | pr2md_a.py:420 | `dir/stem.ext` has suffix `.ext` |
| Sorting.SortBy | pr2md_a.py:474 | `sorted(key=...)`: the result is ordered by the key and is a permutation of the input |
| Sorting.Insert | pr2md_a.py:474 | inserting into an ordered sequence keeps it ordered and adds exactly the element |
| PrSummary.NewSettings | pr2md_a.py:174-208 | the constructor: a missing or empty exclude set means the default patterns, a missing allow-list means none |
| PrSummary.ShouldIncludeFile | pr2md_a.py:237-253 | the pattern loop decides inclusion; an excluded path is out whatever the allow-list, and with no allow-list every other path is in |
| PrSummary.IncludedChanges | pr2md_a.py:336 | the filter keeps exactly the changes whose new path is included |
| PrSummary.IncludedAppend | pr2md_a.py:336 | the filter works change by change: filtering a concatenation concatenates the filtered parts, so input order and duplicates are kept |
| PrSummary.IncludedOne | pr2md_a.py:336 | one change is kept exactly when its path is included |
| PrSummary.AllIncluded | pr2md_a.py:336 | when every path is included nothing is dropped or reordered |
| PrSummary.FirstFieldIsDash | pr2md_a.py:297 | the first numstat field is `-` exactly when the output is `-` or starts with `-` and a tab |
| PrSummary.IsBinaryFile | pr2md_a.py:255-309 | binary exactly when the extension is a binary one, or numstat succeeds with a first field of `-`, or numstat and show both succeed and a NUL is among the first 1000 characters; a failing numstat leaves only the extension test |
| PrSummary.ParseNameStatusLine | pr2md_a.py:316-333 | blank lines are skipped; rename and copy codes, and only they, carry the old path |
| PrSummary.ParseNameStatusLineOfFields | pr2md_a.py:320-333 | an `R…`/`C…` line gives status `R`/`C` with new path `parts[2]` and old path `parts[1]`; any other code is kept verbatim; a missing field fails |
| PrSummary.GetFileChanges | pr2md_a.py:311-336 | the method equals parse-then-filter, and every kept change is included |
| PrSummary.ParseLines | pr2md_a.py:315-333 | the loop over the lines equals the parse function |
| PrSummary.FileChangesOfListing | pr2md_a.py:311-336 | the listing git prints for changes whose paths are all included gives back exactly those changes, in order |
| PrSummary.ParseListingLines | pr2md_a.py:316-333 | parsing the lines git prints for a sequence of changes gives the changes back, in order |
| PrSummary.ParseNameStatusOutput | pr2md_a.py:313-336 | parsing the whole listing text gives the changes back, in order |
| PrSummary.FileContent | pr2md_a.py:338-349 | content is returned exactly when `git show` succeeds and the text fits in `max_file_size` bytes |
| PrSummary.AsciiContentKept | pr2md_a.py:344 | an ASCII text is kept exactly when it has at most `max_file_size` characters |
| PrSummary.FileLanguage | pr2md_a.py:418-451 | the tag is non-empty exactly when the lower-cased suffix is in the table |
| PrSummary.LanguagesNonEmpty | pr2md_a.py:422-449 | every tag in the table is non-empty |
| PrSummary.LanguageOfExtension | pr2md_a.py:420-451 | the tag of `dir/stem.ext` is the table entry for `.` + lower-cased `ext`, or empty |
| PrSummary.LowerSuffixOfFile | pr2md_a.py:420 | the lower-cased suffix of `dir/stem.ext` is `.` + lower-cased `ext` |
| StatSummary.DigitRunEnd | pr2md_a.py:398 | `\d+`: the end of the maximal digit run from a position |
| StatSummary.SearchNumberLeftmost | pr2md_a.py:398-410 | `re.search`: the leftmost position where a numeral followed by one of the phrases starts, and none when there is none |
| StatSummary.GetDiffStats | pr2md_a.py:386-416 | the method equals the stats function: all zeros without output, otherwise the totals read from the last line |
| StatSummary.StatLineRoundTrip | pr2md_a.py:391-411 | reading the summary line git prints for `f` files, `i` insertions and `d` deletions gives back `(f, i, d)` |
| StatSummary.FilesTotalOfStatLine | pr2md_a.py:397-400 | the files total is read from the summary line |
| StatSummary.CountTotalsOfStatLine | pr2md_a.py:402-410 | insertions and deletions are read when present, and are 0 when their phrase is absent |
| StatSummary.LastLineRead | pr2md_a.py:392-394 | only the last line of the `--stat` output is read |
| StatSummary.StatOutputTotals | pr2md_a.py:389-412 | whatever lines come before it, a summary line gives its totals |
| StatSummary.StatLineHasNoNewline | pr2md_a.py:394 | git's summary line is a single line |
| PrSections.WithStatus | pr2md_a.py:457-460 | the category comprehension keeps exactly the changes of one status |
| PrSections.Uncategorised | pr2md_a.py:457-460 | the changes of no category are exactly those whose status is not A, M, D or R |
| PrSections.CategoriesPartition | pr2md_a.py:457-460 | the four categories and the uncategorised changes add up to all changes |
| PrSections.ByPath | pr2md_a.py:474 | the listings are sorted by path and list every change once |
| PrSections.Lines | pr2md_a.py:474-475 | one entry line per change, in order |
| PrSections.AddedEntries | pr2md_a.py:471-476 | one list item per added file |
| PrSections.ModifiedEntries | pr2md_a.py:478-483 | one list item per modified file |
| PrSections.DeletedEntries | pr2md_a.py:485-490 | one list item per deleted file |
| PrSections.RenamedEntries | pr2md_a.py:492-497 | one list item per renamed file |
| PrSections.Figures | pr2md_a.py:503-510 | every statistics line is a list item |
| PrSections.FiguresShown | pr2md_a.py:503-510 | the files total comes first and the commit range last; lines added appear exactly when insertions > 0 and lines removed exactly when deletions > 0 |
| PrSections.SectionEndsWithRule | pr2md_a.py:513-516 | the summary section always ends with the `---` rule and a newline |
| PrSections.AppendEntries | pr2md_a.py:474-475 | the loop appends exactly the entry lines |
| PrSections.AppendSubsection | pr2md_a.py:471-497 | a subsection is appended only for a non-empty list |
| PrSections.AppendStats | pr2md_a.py:500-511 | the statistics block is appended as specified |
| PrSections.GenerateSummarySection | pr2md_a.py:453-516 | the builder equals the join of the specified lines |
| PrSections.SummaryHeadings | pr2md_a.py:471-501 | the subsection headings are exactly those of the non-empty categories, each with its count, then the statistics heading exactly when `files > 0` |
| PrSections.SubsectionHeadings | pr2md_a.py:471-476 | a subsection has one heading when its list is non-empty and none otherwise |
| PrSections.StatsHeadings | pr2md_a.py:500-501 | the statistics heading appears exactly when `files > 0` |
| PrSections.TitleHeadings | pr2md_a.py:463-468 | the title lines hold no subsection heading |
| PrFileSections.AppendBlocks | pr2md_a.py:527-549 | the loop appends exactly one block per file |
| PrFileSections.GenerateNewFilesSection | pr2md_a.py:518-551 | the builder equals the join of the specified lines |
| PrFileSections.NewFilesSectionEmpty | pr2md_a.py:520-521 | the new-files section is empty exactly when no file was added |
| PrFileSections.BinaryExtensionWins | pr2md_a.py:528-533 | a file with a binary extension gets the binary placeholder |
| PrFileSections.NewFileShown | pr2md_a.py:535-549 | a readable text file that fits is shown whole in a fence tagged with its language |
| PrFileSections.NewFileWithheld | pr2md_a.py:535-541 | a failing read or a text over the limit gets the too-large placeholder |
| PrFileSections.GenerateModifiedFilesSection | pr2md_a.py:553-585 | the builder equals the join of the specified lines |
| PrFileSections.ModifiedSectionEmpty | pr2md_a.py:555-556 | the modified-files section is empty exactly when no file was modified |
| PrFileSections.ModifiedDiffShown | pr2md_a.py:570-583 | a text file shows its diff when there is one, otherwise the no-diff placeholder |
| PrFileSections.PureRenameCalledModified | pr2md_a.py:608 | for a pure rename's diff, the note as written says "(with modifications)", while the corrected note says "(renamed only)" |
| PrFileSections.HeaderFirst | pr2md_a.py:608 | any diff starting with its `diff --git` header gets "(with modifications)" as written |
| PrFileSections.FullSimilarityLine | pr2md_a.py:603-611 | the corrected note: a diff with the 100% similarity line is "(renamed only)" |
| PrFileSections.RenameLine | pr2md_a.py:603-611 | a renames-list line names the old and the new path, and ends "(renamed only)" exactly when git failed, printed nothing, or printed `similarity index 100%` first |
| PrFileSections.AppendList | pr2md_a.py:596-612 | a listing is appended only for a non-empty list |
| PrFileSections.GenerateOtherChangesSection | pr2md_a.py:587-614 | the builder equals the join of the specified lines |
| PrFileSections.OtherSectionEmpty | pr2md_a.py:589-590 | the other-changes section is empty exactly when nothing was deleted or renamed |
| PrFileSections.DeletedListed | pr2md_a.py:596-601 | each deleted file is listed, and every listed line is a deleted file |
| PrDocument.Assemble | pr2md_a.py:661-669 | the document starts with the summary and ends with the technical summary |
| PrDocument.AssembleSections | pr2md_a.py:661-669 | the appends equal the assembly function |
| PrDocument.GenerateSummary | pr2md_a.py:616-671 | the method equals the document function |
| PrDocument.NoChangesExactly | pr2md_a.py:621-623 | "No Changes Found" is returned exactly when no change survives the filters; a git failure is passed on |
| PrDocument.DocumentTitle | pr2md_a.py:463 | a document with changes starts with the PR title naming the branch |
| PrDocument.ReportIsNotEmptyNotice | pr2md_a.py:622-623 | a document with changes is never the no-changes text |
| PrDocument.DocumentEnd | pr2md_a.py:648-671 | a document with changes ends with the technical summary |
| PrDocument.SectionsPresent | pr2md_a.py:661-669 | the document parts are the summary, then the new-files section exactly when a file was added, the modified-files section exactly when one was modified, the other-changes section exactly when one was deleted or renamed, then the technical summary; their number follows |
| PrDocument.AssembleLength | pr2md_a.py:661-669 | one part per non-empty section plus the first and the last |
| DiffCompactor.Language | pr2md_b.py:231-259 | the tag is non-empty exactly when the lower-cased suffix is in the table |
| DiffCompactor.TagsNonEmpty | pr2md_b.py:232-257 | every tag in the table is non-empty |
| DiffCompactor.HunkHeaderNotContext | pr2md_b.py:267-274 | a hunk header is never a context line |
| DiffCompactor.ContextRunSpec | pr2md_b.py:274-280 | a context run is the maximal prefix of context lines |
| DiffCompactor.FirstHunkFrom | pr2md_b.py:222-225 | the first hunk header from a position, and none when there is none |
| DiffCompactor.FormattedEmptyExactly | pr2md_b.py:215-228 | the result is empty exactly for an empty diff, no hunk header, or a header on the first line; otherwise it opens with a fence tagged with the language |
| DiffCompactor.FormatDiffForMarkdown | pr2md_b.py:213-295 | the method equals the formatting function |
| DiffCompactor.CompactLines | pr2md_b.py:262-291 | the loop with its two counters equals the run-by-run definition of the compaction |
| DiffCompactor.PassIsCompacted | pr2md_b.py:266-291 | the counter-driven pass and the run-by-run definition agree on every input |
| DiffCompactor.SingleRunHunk | pr2md_b.py:274-284 | a run of at most the threshold is kept whole with no marker; a longer one keeps its first lines, then one marker with the full run length |
| DiffCompactor.RunInContext | pr2md_b.py:266-291 | a run between non-context lines is compacted on its own, independent of its surroundings |
| DiffCompactor.ChangedLinesPreserved | pr2md_b.py:267-287 | every hunk header and changed line appears verbatim and in order |
| DiffCompactor.MarkersOnlyForLongRuns | pr2md_b.py:269-291 | a marker only stands for a run longer than the threshold |
| DiffCompactor.MarkerNotContext | pr2md_b.py:270 | a marker line is never a context line |
| DiffCompactor.PassKeepsShortRuns | pr2md_b.py:274-280 | a body whose runs are all short passes through unchanged |
| DiffCompactor.PassMakesShortRuns | pr2md_b.py:266-291 | the output's context runs are at most the threshold long |
| DiffCompactor.CompactionIdempotent | pr2md_b.py:266-291 | compacting a compacted body changes nothing |
| BranchChanges.EntryOf | pr2md_b.py:116-137 | an entry's code is the first field and its status the label of that code |
| BranchChanges.GetFileChanges | pr2md_b.py:102-139 | the loop equals the listing function |
| BranchChanges.TakeLine | pr2md_b.py:112-137 | one line adds its entry, and the counters stay equal to the counts of the entries |
| BranchChanges.ParseLine | pr2md_b.py:116-137 | a non-blank line gives its entry and bumps its code's counter |
| BranchChanges.CountsPartition | pr2md_b.py:120-135 | the four counters plus the unknown entries add up to the number of entries |
| BranchChanges.UnknownLabel | pr2md_b.py:134-135 | any other code is labelled `Unknown (code)` |
| BranchChanges.RenameLinePath | pr2md_b.py:129-133 | a three-field rename line gets the path `old → new` |
| BranchChanges.FailedListing | pr2md_b.py:105-107 | a failing git gives no entries and no counts |
| BranchChanges.IsBinaryNumstat | pr2md_b.py:142-151 | a failing git counts as binary |
| BranchChanges.NumstatBinaryExactly | pr2md_b.py:149-151 | a successful numstat is binary exactly when it is `-\t-` or starts with `-\t-\t` |
| BranchChanges.ShouldSkipFile | pr2md_b.py:154-188 | a lower-cased lockfile name is skipped; a skipped file's name has at least four characters and a dot |
| BranchChanges.LockfileSkipped | pr2md_b.py:159-181 | a lockfile name is skipped in any directory and any letter case |
| BranchChanges.SkipByName | pr2md_b.py:154-188 | a file in a directory is skipped exactly when its lower-cased name is a lockfile name or ends in `.min.js`, `.min.css` or `.map`; every other file is kept |
| BranchChanges.MinifiedSkipped | pr2md_b.py:173-186 | a `.min.js` file is skipped in any directory and any letter case |
| BranchChanges.SkipIgnoresCase | pr2md_b.py:156 | the skip test does not depend on letter case |
| BranchChanges.NameOfLower | pr2md_b.py:156 | lower-casing the path lower-cases its name |
| BranchChanges.GroupOf | pr2md_b.py:311-313 | a group holds exactly the entries with its key |
| BranchChanges.KeysOf | pr2md_b.py:311-312 | the keys in order of first appearance, each once |
| BranchChanges.GroupFilesByDirectory | pr2md_b.py:298-315 | the dict built equals the grouping by key, with the keys in first-seen order |
| BranchChanges.FileUnder | pr2md_b.py:303-313 | filing one more entry keeps the grouping invariant |
| BranchChanges.OneGroupEach | pr2md_b.py:311-313 | every entry lands in exactly one group |
| BranchChanges.GroupSizesSum | pr2md_b.py:298-315 | the group sizes add up to the number of entries |
| BranchChanges.EmptyGroup | pr2md_b.py:311-313 | a key with no entries has no group |
| BranchChanges.TopLevelIsRoot | pr2md_b.py:307-309 | a top-level file is grouped under `Root` |
| BranchChanges.RenameFiledByNewPath | pr2md_b.py:304-307 | a rename is grouped by the directory of its new path |
| BranchChanges.MergeBase | pr2md_b.py:70-75 | a merge base exists exactly when git succeeds with non-empty output |
| BranchChanges.DetectBaseBranch | pr2md_b.py:487-496 | the loop picks the first candidate with a merge base, or none |
| BranchChanges.DetectedIsFirst | pr2md_b.py:488-492 | the pick has a merge base, no earlier candidate has one, and there is no pick exactly when no candidate has one |
| BranchReport.ShortHash | pr2md_b.py:321-322 | the first eight characters, or `unknown` for an empty hash |
| BranchReport.SummaryParts | pr2md_b.py:340-348 | one part per non-zero counter, and none exactly when all are zero |
| BranchReport.BuildSummaryParts | pr2md_b.py:340-348 | the appends equal the parts function |
| BranchReport.SummaryAddsUp | pr2md_b.py:325-350 | without unknown codes the counters add up to the files total |
| BranchReport.IndexInOrder | pr2md_b.py:360 | the index keys are sorted, distinct, and are exactly the group keys |
| BranchReport.GroupCount | pr2md_b.py:358 | the dict has one key per distinct directory |
| BranchReport.WriteIndex | pr2md_b.py:360-361 | the loop writes one index line per key |
| BranchReport.IndexLineSizes | pr2md_b.py:361 | each index line gives its directory and the size of its group |
| BranchReport.SortedKeysGrouped | pr2md_b.py:358-361 | sorting the dict's keys gives the index keys, each with its group |
| BranchReport.WriteDirectoryIndex | pr2md_b.py:358-361 | the index is written, only when there is more than one group |
| BranchReport.FileHeading | pr2md_b.py:370-377 | the heading names the new path as the one used afterwards; it fails only for a path with an arrow that does not split in two |
| BranchReport.RenameHeading | pr2md_b.py:371-374 | a rename's heading shows both paths, and the new path is used afterwards |
| BranchReport.TwoArrowsRaise | pr2md_b.py:372 | a path with two arrows cannot be unpacked and stops the report |
| BranchReport.WriteFile | pr2md_b.py:366-442 | one file's part: its heading then its body, or the stop |
| BranchReport.FileDiff | pr2md_b.py:191-201 | a diff is returned only from a successful diff run, as its output; none when numstat fails or reports a binary file (`-\t-`), and one whenever numstat says text and the diff run succeeds |
| BranchReport.WriteFileBody | pr2md_b.py:379-442 | the decision chain equals the body function |
| BranchReport.WriteContent | pr2md_b.py:396-430 | a new file's part equals the content-part function |
| BranchReport.WriteDiff | pr2md_b.py:432-442 | another file's part equals the diff-part function |
| BranchReport.DeletedAsksNothing | pr2md_b.py:380-382 | a deleted file gets its placeholder whatever git says, and is never listed as binary |
| BranchReport.BinaryLockfile | pr2md_b.py:385-393 | a lockfile with a binary numstat is reported as binary, not as auto-generated |
| BranchReport.BinaryFirst | pr2md_b.py:385-388 | a binary numstat gives the binary placeholder and lists the path |
| BranchReport.AddedFileShown | pr2md_b.py:396-430 | a readable new text file is fenced with its language; an unreadable or empty one gets the placeholder |
| BranchReport.DiffNotes | pr2md_b.py:432-442 | a failing diff gets the could-not-generate placeholder, and a diff with no body the no-diff placeholder |
| BranchReport.WriteFiles | pr2md_b.py:366-442 | the walk writes the parts of the files in order and collects the binary paths |
| BranchReport.WalkStops | pr2md_b.py:372 | after the stop nothing more is written |
| BranchReport.WalkRaisesExactly | pr2md_b.py:366-377 | the walk stops exactly when some path cannot be unpacked |
| BranchReport.BinariesListed | pr2md_b.py:385-386 | the binary list holds exactly the binary files of the walk, at most one entry per file |
| BranchReport.WriteBinaryLines | pr2md_b.py:445-448 | one line per binary path |
| BranchReport.WritePreamble | pr2md_b.py:331-361 | the header, summary and index equal the preamble function |
| BranchReport.GenerateMarkdownReport | pr2md_b.py:318-448 | the whole report equals the report function: preamble, file parts, binary list, or the writes up to the stop |

## Left out

- Running git, reading files and the clock are inputs. `_run_git_command`, `run_git_command`, `_ensure_git_repo`, `_get_commit_info`, `get_merge_base`, `get_commit_hash`, `get_current_branch` and `get_file_content` of pr2md_b.py are not modelled; their results are parameters.
- `save_summary`, the `open` of the report file, `print`, `sys.exit`, argparse and both `main` functions are left out. The auto-detect loop of pr2md_b.py's `main` is modelled.
- The generated-time line of pr2md_b.py:336 takes the time text as a parameter.
- `str.strip` on git output is done by the git oracle. The blank-line test uses ASCII whitespace only.
- `str.splitlines` is modelled as a split on `\n`. Other line separators are not modelled.
- `lower` is ASCII lower-casing. Unicode case mapping is not modelled.
- The regular expressions of `_get_diff_stats` are hand-written leftmost scans over ASCII digits.
- The `ValueError` raised when a path has more than one ` → ` is a `raised` flag. The writes made before it are kept, and nothing after it is written.
- `Path` is modelled for `/`-separated relative paths: `name`, `parent` and `suffix`. Path normalisation, such as `./` and repeated slashes, is not modelled.
- The dict of `group_files_by_directory` is a Dafny `map` plus the sequence of its keys in insertion order. That sequence is what Python's dict order provides.
- `sorted` over dict items is modelled as a sort of the distinct keys. Ties cannot occur, so the order of equal keys does not matter.
- The result of `_get_commit_info` is an input: either the three refs, or the failure. On failure the title shows `None` and the commit range uses the given refs. The `get_current_branch` fallbacks of pr2md_b.py give the branch-name input.
- Sorting.SortBy: the stability of `sorted` (equal keys keep their input order) is not stated. The keys it is used with are file paths and directory keys, which are distinct.
- Asynchronous execution is not modelled; the code has none.
- The corrected rename note is not threaded through the renames list, the other-changes section or the document. Those follow pr2md_a.py:608 as written; the corrected note is proved about on its own.

## Findings

| source | as written | input that shows it | evidently intended | confidence | as-written member | corrected member |
|---|---|---|---|---|---|---|
| pr2md_a.py:608 | `diff.startswith("similarity index 100%")` tests the first line, but a rename diff starts with the `diff --git` header line | a rename `a.txt` → `b.txt` with no content change: git prints `diff --git a/a.txt b/b.txt`, then `similarity index 100%`, so the note says "(with modifications)" | a pure rename, one whose diff has the `similarity index 100%` line, is reported "(renamed only)" | not executed | PrFileSections.RenameNoteAsWritten (used by PrFileSections.RenameLine and the sections; shown by PrFileSections.PureRenameCalledModified) | PrFileSections.RenameNote (proved by PrFileSections.FullSimilarityLine) |
