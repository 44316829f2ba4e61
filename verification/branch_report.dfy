/** `generate_markdown_report` (pr2md_b.py): the header, the summary line
    with its per-kind parts, the directory index, one part per changed file
    chosen by the per-file decision chain, and the list of binary files.

    Writes to the report file are appended to a sequence of strings. The
    git queries and the file reads are given as an oracle (`Git`); the
    generation time is a parameter. */
module BranchReport {
  import opened Strings
  import opened Paths
  import opened Sorting
  import opened DiffCompactor
  import opened BranchChanges

  /** What the report asks of git and of the working tree: the current
      branch, the hash of HEAD, the `--shortstat` run, and by path the
      `--numstat` run, the diff run and the file's content. */
  datatype Git = Git(
    currentBranch: string,
    headHash: Option<string>,
    shortstat: CommandResult,
    numstat: string -> CommandResult,
    diff: string -> CommandResult,
    content: string -> Option<string>)

  /** The report written, and whether writing it raised part-way. */
  datatype Outcome = Outcome(writes: seq<string>, raised: bool)

  // ---------------------------------------------------------------------
  // Header and summary

  /** The first eight characters of a commit hash, or "unknown" for none. */
  function ShortHash(commit: string): (r: string)
    ensures commit == "" ==> r == "unknown"
    ensures commit != "" ==> StartsWith(commit, r) && |r| == if |commit| < 8 then |commit| else 8
  {
    if commit == "" then "unknown" else Take(commit, 8)
  }

  function HeadHash(h: Option<string>): string {
    if h.Some? then h.value else ""
  }

  function HeaderLines(baseRef: string, baseCommit: string, g: Git, generated: string): seq<string> {
    [ "# Branch Changes Analysis\n\n",
      "**Base**: " + baseRef + " (commit " + ShortHash(baseCommit) + ")\n",
      "**Head**: " + g.currentBranch + " (commit " + ShortHash(HeadHash(g.headHash)) + ")\n",
      "**Generated**: " + generated + "\n\n" ]
  }

  function NonZero(n: nat): nat {
    if n > 0 then 1 else 0
  }

  /** The parts of the files-changed line: one per kind whose counter is
      not zero, in the order added, modified, deleted, renamed. */
  function SummaryParts(c: Counts): (r: seq<string>)
    ensures |r| == NonZero(c.added) + NonZero(c.modified) + NonZero(c.deleted) + NonZero(c.renamed)
    ensures r == [] <==> c == Counts(0, 0, 0, 0)
  {
    (if c.added > 0 then [NatToString(c.added) + " added"] else [])
    + (if c.modified > 0 then [NatToString(c.modified) + " modified"] else [])
    + (if c.deleted > 0 then [NatToString(c.deleted) + " deleted"] else [])
    + (if c.renamed > 0 then [NatToString(c.renamed) + " renamed"] else [])
  }

  /** The summary parts, appended one kind at a time. */
  method BuildSummaryParts(stats: Counts) returns (summaryParts: seq<string>)
    ensures summaryParts == SummaryParts(stats)
  {
    summaryParts := [];
    if stats.added > 0 {
      summaryParts := summaryParts + [NatToString(stats.added) + " added"];
    }
    if stats.modified > 0 {
      summaryParts := summaryParts + [NatToString(stats.modified) + " modified"];
    }
    if stats.deleted > 0 {
      summaryParts := summaryParts + [NatToString(stats.deleted) + " deleted"];
    }
    if stats.renamed > 0 {
      summaryParts := summaryParts + [NatToString(stats.renamed) + " renamed"];
    }
  }

  function FilesLine(total: nat, c: Counts): string {
    "- Files changed: " + NatToString(total) + " (" + Join(SummaryParts(c), ", ") + ")\n"
  }

  /** The `--shortstat` line, written only for a successful, non-empty run. */
  function ShortstatLines(r: CommandResult): seq<string> {
    if r.code == 0 && r.output != "" then ["- " + r.output + "\n"] else []
  }

  /** When every entry has one of the four counted codes, the counters of
      the summary add up to the number of files changed. */
  lemma SummaryAddsUp(files: seq<Entry>)
    requires Unknown(files) == 0
    ensures var c := CountsOf(files); c.added + c.modified + c.deleted + c.renamed == |files|
  {
    CountsPartition(files);
  }

  // ---------------------------------------------------------------------
  // The directory index

  function Id(s: string): string {
    s
  }

  /** The directories in the order the index lists them. */
  function IndexKeys(files: seq<Entry>): seq<string> {
    SortBy(KeysOf(files), Id)
  }

  function IndexLine(directory: string, size: nat): string {
    "### `" + directory + "/` (" + NatToString(size) + " files)\n"
  }

  function IndexLines(keys: seq<string>, files: seq<Entry>): seq<string> {
    if keys == [] then []
    else
      var k := keys[|keys| - 1];
      IndexLines(keys[..|keys| - 1], files) + [IndexLine(k, |GroupOf(files, k)|)]
  }

  /** The index, present only when there is more than one directory. */
  function Index(files: seq<Entry>): seq<string> {
    if |KeysOf(files)| > 1 then ["\n## Changes by Directory\n\n"] + IndexLines(IndexKeys(files), files) else []
  }

  /** The index lists every directory of the change list once, in
      ascending order. */
  lemma IndexInOrder(files: seq<Entry>)
    ensures SortedBy(IndexKeys(files), Id)
    ensures forall k :: k in IndexKeys(files) <==> exists e :: e in files && GroupKey(e) == k
    ensures forall i, j :: 0 <= i < j < |IndexKeys(files)| ==> IndexKeys(files)[i] != IndexKeys(files)[j]
  {
    var keys, sorted := KeysOf(files), IndexKeys(files);
    forall k
      ensures k in sorted <==> k in keys
    {
      assert k in sorted <==> k in multiset(sorted);
      assert k in keys <==> k in multiset(keys);
    }
    forall i, j | 0 <= i < j < |sorted|
      ensures sorted[i] != sorted[j]
    {
      if sorted[i] == sorted[j] {
        MultisetTwice(sorted, i, j);
        DistinctOnce(keys, sorted[i]);
        assert false;
      }
    }
  }

  lemma MultisetTwice(s: seq<string>, i: int, j: int)
    requires 0 <= i < j < |s| && s[i] == s[j]
    ensures multiset(s)[s[i]] >= 2
  {
    assert s == s[..i] + [s[i]] + s[i + 1..j] + [s[j]] + s[j + 1..];
  }

  lemma {:induction false} DistinctOnce(s: seq<string>, x: string)
    requires forall i, j :: 0 <= i < j < |s| ==> s[i] != s[j]
    ensures multiset(s)[x] <= 1
  {
    if s != [] {
      var init, last := s[..|s| - 1], s[|s| - 1];
      assert s == init + [last];
      DistinctOnce(init, x);
      if x == last {
        assert forall i :: 0 <= i < |init| ==> init[i] != last by {
          forall i | 0 <= i < |init| ensures init[i] != last {
            assert init[i] == s[i];
          }
        }
        assert multiset(init)[x] == 0;
      }
    }
  }

  /** The dictionary of `group_files_by_directory` has one key per
      directory, so the index test on its size is a test on the number of
      directories. */
  lemma GroupCount(groups: map<string, seq<Entry>>, order: seq<string>, files: seq<Entry>)
    requires Grouped(groups, order, files)
    ensures |groups| == |KeysOf(files)|
  {
    assert groups.Keys == set k | k in order;
    DistinctCard(order);
  }

  lemma {:induction false} DistinctCard(s: seq<string>)
    requires forall i, j :: 0 <= i < j < |s| ==> s[i] != s[j]
    ensures |set k | k in s| == |s|
  {
    if s != [] {
      var init, last := s[..|s| - 1], s[|s| - 1];
      DistinctCard(init);
      assert last !in init by {
        forall i | 0 <= i < |init| ensures init[i] != last {
          assert init[i] == s[i];
        }
      }
      assert (set k | k in s) == (set k | k in init) + {last};
    }
  }

  /** The index lines, one per directory in the given order, each with the
      size of its group. */
  method WriteIndex(writes: seq<string>, groups: map<string, seq<Entry>>, files: seq<Entry>, keys: seq<string>)
    returns (out: seq<string>)
    requires forall k | k in keys :: k in groups && groups[k] == GroupOf(files, k)
    ensures out == writes + IndexLines(keys, files)
  {
    out := writes;
    var j := 0;
    while j < |keys|
      invariant j <= |keys|
      invariant out == writes + IndexLines(keys[..j], files)
    {
      var directory := keys[j];
      assert keys[..j + 1][..j] == keys[..j];
      out := out + [IndexLine(directory, |groups[directory]|)];
      j := j + 1;
    }
    assert keys[..j] == keys;
  }

  // ---------------------------------------------------------------------
  // One file's part

  const DeletedNote := "*File was deleted*\n\n"
  const BinaryNote := "*Binary file (contents not shown)*\n\n"
  const SkippedNote := "*Auto-generated file (skipped for brevity)*\n\n"
  const UnreadableNote := "*Could not read file content*\n\n"
  const NoDiffNote := "*No diff available*\n\n"
  const DiffFailedNote := "*Could not generate diff*\n\n"

  /** A file's heading and the path its content is looked up by: for a
      path with the arrow, the two sides of it; none when the path splits
      into more than two pieces, where unpacking the split raises. */
  function FileHeading(e: Entry): (r: Option<(string, string)>)
    ensures r.Some? ==> r.value.1 == NewPath(e.path)
    ensures r.None? ==> Contains(e.path, Arrow) && |SplitOn(e.path, Arrow)| != 2
  {
    if Contains(e.path, Arrow) then
      var pieces := SplitOn(e.path, Arrow);
      if |pieces| == 2 then Some(("### `" + pieces[0] + "`" + Arrow + "`" + pieces[1] + "` (" + e.status + ")\n\n", pieces[1]))
      else None
    else Some(("### `" + e.path + "` (" + e.status + ")\n\n", e.path))
  }

  /** `get_file_diff`: none for a binary file or a failing diff run. */
  function FileDiff(g: Git, path: string): (r: Option<string>)
    ensures r.Some? ==> g.diff(path).code == 0 && r.value == g.diff(path).output
    ensures g.numstat(path).code != 0 ==> r.None?
    ensures g.numstat(path) == CommandResult("-\t-", 0) ==> r.None?
    ensures g.numstat(path).code == 0 && StartsWith(g.numstat(path).output, "-\t-\t") ==> r.None?
    ensures g.numstat(path).code == 0 && !IsBinaryNumstat(g.numstat(path)) && g.diff(path).code == 0 ==> r.Some?
  {
    NumstatBinaryExactly(g.numstat(path).output);
    if IsBinaryNumstat(g.numstat(path)) || g.diff(path).code != 0 then None
    else Some(g.diff(path).output)
  }

  /** A new file's part: its content fenced with the language of its
      extension, or a note when it could not be read or is empty. */
  function ContentLines(content: Option<string>, path: string): seq<string> {
    if content.Some? && content.value != "" then [Fence(Language(path), content.value) + "\n\n"]
    else [UnreadableNote]
  }

  /** Any other file's part: its compacted diff, or a note. */
  function DiffLines(diff: Option<string>, path: string): seq<string> {
    if diff.Some? && diff.value != "" then
      var formatted := FormattedDiff(diff.value, path, DefaultMaxUnchanged);
      if formatted != "" then [formatted, "\n\n"] else [NoDiffNote]
    else [DiffFailedNote]
  }

  /** The decision chain, in the source's order: deleted, binary,
      auto-generated, added, anything else. */
  function FileBody(g: Git, status: string, actual: string): seq<string> {
    if status == "Deleted" then [DeletedNote]
    else if IsBinaryNumstat(g.numstat(actual)) then [BinaryNote]
    else if ShouldSkipFile(actual) then [SkippedNote]
    else if status == "Added" then ContentLines(g.content(actual), actual)
    else DiffLines(FileDiff(g, actual), actual)
  }

  /** The path added to the binary list for this file, if any. */
  function FileBinary(g: Git, status: string, actual: string): seq<string> {
    if status != "Deleted" && IsBinaryNumstat(g.numstat(actual)) then [actual] else []
  }

  /** The loop body of `generate_markdown_report` for one file: the heading,
      then the first applicable case of the chain. */
  method WriteFile(g: Git, fileInfo: Entry) returns (w: seq<string>, binary: seq<string>, raised: bool)
    ensures raised <==> FileHeading(fileInfo).None?
    ensures !raised ==> w == [FileHeading(fileInfo).value.0] + FileBody(g, fileInfo.status, FileHeading(fileInfo).value.1)
    ensures !raised ==> binary == FileBinary(g, fileInfo.status, FileHeading(fileInfo).value.1)
  {
    var filepath, status := fileInfo.path, fileInfo.status;
    var actualFilepath;
    if Contains(filepath, Arrow) {
      var pieces := SplitOn(filepath, Arrow);
      if |pieces| != 2 {
        return [], [], true;
      }
      w := ["### `" + pieces[0] + "`" + Arrow + "`" + pieces[1] + "` (" + status + ")\n\n"];
      actualFilepath := pieces[1];
    } else {
      w := ["### `" + filepath + "` (" + status + ")\n\n"];
      actualFilepath := filepath;
    }
    var body;
    body, binary := WriteFileBody(g, status, actualFilepath);
    w, raised := w + body, false;
  }

  /** The decision chain for one file, after its heading. */
  method WriteFileBody(g: Git, status: string, actualFilepath: string) returns (w: seq<string>, binary: seq<string>)
    ensures w == FileBody(g, status, actualFilepath)
    ensures binary == FileBinary(g, status, actualFilepath)
  {
    binary := [];
    if status == "Deleted" {
      return [DeletedNote], binary;
    }
    if IsBinaryNumstat(g.numstat(actualFilepath)) {
      binary := [actualFilepath];
      return [BinaryNote], binary;
    }
    if ShouldSkipFile(actualFilepath) {
      return [SkippedNote], binary;
    }
    if status == "Added" {
      w := WriteContent(g.content(actualFilepath), actualFilepath);
    } else {
      var diffOutput := FileDiff(g, actualFilepath);
      w := WriteDiff(diffOutput, actualFilepath);
    }
  }

  /** A new file's part, as `generate_markdown_report` writes it. */
  method WriteContent(fileContent: Option<string>, actualFilepath: string) returns (w: seq<string>)
    ensures w == ContentLines(fileContent, actualFilepath)
  {
    if fileContent.Some? && fileContent.value != "" {
      var language := Language(actualFilepath);
      w := ["```" + language + "\n" + fileContent.value + "\n```" + "\n\n"];
    } else {
      w := [UnreadableNote];
    }
  }

  /** Any other file's part, as `generate_markdown_report` writes it. */
  method WriteDiff(diffOutput: Option<string>, actualFilepath: string) returns (w: seq<string>)
    ensures w == DiffLines(diffOutput, actualFilepath)
  {
    if diffOutput.Some? && diffOutput.value != "" {
      var formattedDiff := FormatDiffForMarkdown(diffOutput.value, actualFilepath, DefaultMaxUnchanged);
      if formattedDiff != "" {
        w := [formattedDiff] + ["\n\n"];
      } else {
        w := [NoDiffNote];
      }
    } else {
      w := [DiffFailedNote];
    }
  }

  // ---------------------------------------------------------------------
  // The walk over the files

  /** The writes and binary paths so far, and whether the walk raised. */
  datatype Walk = Walk(writes: seq<string>, binaries: seq<string>, raised: bool)

  /** One more file: nothing after a raise. */
  function Step(g: Git, w: Walk, e: Entry): Walk {
    if w.raised then w
    else
      match FileHeading(e)
      case None => Walk(w.writes, w.binaries, true)
      case Some((heading, actual)) =>
        Walk(w.writes + [heading] + FileBody(g, e.status, actual), w.binaries + FileBinary(g, e.status, actual), false)
  }

  function WalkFiles(g: Git, files: seq<Entry>): Walk {
    if files == [] then Walk([], [], false)
    else Step(g, WalkFiles(g, files[..|files| - 1]), files[|files| - 1])
  }

  lemma WalkSnoc(g: Git, files: seq<Entry>, j: int)
    requires 0 <= j < |files|
    ensures WalkFiles(g, files[..j + 1]) == Step(g, WalkFiles(g, files[..j]), files[j])
  {
    assert files[..j + 1][..j] == files[..j];
  }

  /** Once a file raises, the walk is over: later files change nothing. */
  lemma {:induction false} WalkStops(g: Git, files: seq<Entry>, j: nat)
    requires j <= |files| && WalkFiles(g, files[..j]).raised
    ensures WalkFiles(g, files) == WalkFiles(g, files[..j])
    decreases |files|
  {
    if |files| > j {
      var init := files[..|files| - 1];
      assert init[..j] == files[..j];
      WalkStops(g, init, j);
    } else {
      assert files[..j] == files;
    }
  }

  /** The loop of `generate_markdown_report` over the files. */
  method WriteFiles(writes: seq<string>, g: Git, files: seq<Entry>)
    returns (out: seq<string>, binaryFiles: seq<string>, raised: bool)
    ensures out == writes + WalkFiles(g, files).writes
    ensures binaryFiles == WalkFiles(g, files).binaries
    ensures raised == WalkFiles(g, files).raised
  {
    out, binaryFiles, raised := writes, [], false;
    ghost var body: seq<string> := [];
    var j := 0;
    while j < |files|
      invariant j <= |files|
      invariant WalkFiles(g, files[..j]) == Walk(body, binaryFiles, false)
      invariant out == writes + body
    {
      WalkSnoc(g, files, j);
      var w, binary, r := WriteFile(g, files[j]);
      if r {
        WalkStops(g, files, j + 1);
        return out, binaryFiles, true;
      }
      AppendAssoc(writes, body, w);
      body := body + w;
      out := out + w;
      binaryFiles := binaryFiles + binary;
      j := j + 1;
    }
    assert files[..j] == files;
  }

  // ---------------------------------------------------------------------
  // The binary list and the whole report

  function BinaryLines(paths: seq<string>): seq<string> {
    if paths == [] then []
    else BinaryLines(paths[..|paths| - 1]) + ["- `" + paths[|paths| - 1] + "`\n"]
  }

  /** The closing list of binary files, written only when there is one. */
  function BinarySummary(paths: seq<string>): seq<string> {
    if paths == [] then [] else ["## Binary Files (Skipped)\n\n"] + BinaryLines(paths)
  }

  method WriteBinaryLines(writes: seq<string>, paths: seq<string>) returns (out: seq<string>)
    ensures out == writes + BinaryLines(paths)
  {
    out := writes;
    var j := 0;
    while j < |paths|
      invariant j <= |paths|
      invariant out == writes + BinaryLines(paths[..j])
    {
      assert paths[..j + 1][..j] == paths[..j];
      out := out + ["- `" + paths[j] + "`\n"];
      j := j + 1;
    }
    assert paths[..j] == paths;
  }

  /** Everything before the file parts. */
  function Preamble(baseRef: string, baseCommit: string, files: seq<Entry>, stats: Counts, g: Git, generated: string): seq<string> {
    HeaderLines(baseRef, baseCommit, g, generated)
    + ["## Summary\n\n", FilesLine(|files|, stats)]
    + ShortstatLines(g.shortstat)
    + Index(files)
    + ["\n## File Changes\n\n"]
  }

  /** What `generate_markdown_report` writes, and whether it raises. */
  function Report(baseRef: string, baseCommit: string, files: seq<Entry>, stats: Counts, g: Git, generated: string): Outcome {
    Finish(Preamble(baseRef, baseCommit, files, stats, g, generated), WalkFiles(g, files))
  }

  /** The preamble and the file parts, then the binary list unless the
      walk raised. */
  function Finish(pre: seq<string>, walk: Walk): Outcome {
    if walk.raised then Outcome(pre + walk.writes, true)
    else Outcome(pre + walk.writes + BinarySummary(walk.binaries), false)
  }

  /** The header, the summary and the index. */
  method WritePreamble(baseRef: string, baseCommit: string, files: seq<Entry>, stats: Counts, g: Git, generated: string)
    returns (writes: seq<string>)
    ensures writes == Preamble(baseRef, baseCommit, files, stats, g, generated)
  {
    ghost var header := HeaderLines(baseRef, baseCommit, g, generated) + ["## Summary\n\n", FilesLine(|files|, stats)];
    writes := HeaderLines(baseRef, baseCommit, g, generated);
    writes := writes + ["## Summary\n\n"];
    var summaryParts := BuildSummaryParts(stats);
    writes := writes + ["- Files changed: " + NatToString(|files|) + " (" + Join(summaryParts, ", ") + ")\n"];
    assert writes == header;
    if g.shortstat.code == 0 && g.shortstat.output != "" {
      writes := writes + ["- " + g.shortstat.output + "\n"];
    }
    assert writes == header + ShortstatLines(g.shortstat);
    writes := WriteDirectoryIndex(writes, files);
    writes := writes + ["\n## File Changes\n\n"];
  }

  /** The index part of `generate_markdown_report`: the directories,
      sorted, each with the size of its group, when there is more than one. */
  method WriteDirectoryIndex(writes: seq<string>, files: seq<Entry>) returns (out: seq<string>)
    ensures out == writes + Index(files)
  {
    var fileGroups, order := GroupFilesByDirectory(files);
    SortedKeysGrouped(fileGroups, order, files);
    out := writes;
    if |fileGroups| > 1 {
      out := out + ["\n## Changes by Directory\n\n"];
      var keys := SortBy(order, Id);
      out := WriteIndex(out, fileGroups, files, keys);
      AppendAssoc(writes, ["\n## Changes by Directory\n\n"], IndexLines(keys, files));
    }
  }

  lemma SortedKeysGrouped(groups: map<string, seq<Entry>>, order: seq<string>, files: seq<Entry>)
    requires Grouped(groups, order, files)
    ensures |groups| == |KeysOf(files)|
    ensures SortBy(order, Id) == IndexKeys(files)
    ensures forall k | k in SortBy(order, Id) :: k in groups && groups[k] == GroupOf(files, k)
  {
    GroupCount(groups, order, files);
    var keys := SortBy(order, Id);
    forall k | k in keys
      ensures k in groups && groups[k] == GroupOf(files, k)
    {
      assert k in multiset(keys);
    }
  }

  /** `generate_markdown_report`. */
  method GenerateMarkdownReport(baseRef: string, baseCommit: string, files: seq<Entry>, stats: Counts, g: Git, generated: string)
    returns (writes: seq<string>, raised: bool)
    ensures Outcome(writes, raised) == Report(baseRef, baseCommit, files, stats, g, generated)
  {
    writes := WritePreamble(baseRef, baseCommit, files, stats, g, generated);
    ghost var pre := writes;
    var binaryFiles;
    writes, binaryFiles, raised := WriteFiles(writes, g, files);
    ghost var walk := WalkFiles(g, files);
    if raised {
      return;
    }
    if binaryFiles != [] {
      writes := writes + ["## Binary Files (Skipped)\n\n"];
      writes := WriteBinaryLines(writes, binaryFiles);
      AppendAssoc(pre + walk.writes, ["## Binary Files (Skipped)\n\n"], BinaryLines(binaryFiles));
    }
  }

  // ---------------------------------------------------------------------
  // What the report promises

  /** The index has one line per directory, in the given order, each with
      the size of that directory's group. */
  lemma {:induction false} IndexLineSizes(keys: seq<string>, files: seq<Entry>)
    ensures |IndexLines(keys, files)| == |keys|
    ensures forall i :: 0 <= i < |keys| ==> IndexLines(keys, files)[i] == IndexLine(keys[i], |GroupOf(files, keys[i])|)
    decreases |keys|
  {
    if keys != [] {
      var init, k := keys[..|keys| - 1], keys[|keys| - 1];
      var before, line := IndexLines(init, files), IndexLine(k, |GroupOf(files, k)|);
      assert IndexLines(keys, files) == before + [line];
      IndexLineSizes(init, files);
      forall i | 0 <= i < |keys|
        ensures IndexLines(keys, files)[i] == IndexLine(keys[i], |GroupOf(files, keys[i])|)
      {
        if i < |init| {
          assert keys[i] == init[i];
          assert (before + [line])[i] == before[i];
        } else {
          assert keys[i] == k && (before + [line])[i] == line;
        }
      }
    }
  }

  /** The heading of a rename shows both paths, and the new one is looked
      up. */
  lemma RenameHeading(oldPath: string, newPath: string, status: string, code: string)
    requires '\U{2192}' !in oldPath && '\U{2192}' !in newPath
    ensures FileHeading(Entry(oldPath + Arrow + newPath, status, code))
         == Some(("### `" + oldPath + "`" + Arrow + "`" + newPath + "` (" + status + ")\n\n", newPath))
  {
    var path := oldPath + Arrow + newPath;
    ArrowSplit(oldPath, newPath);
    NoArrow(newPath);
    assert OccursAt(path, Arrow, |oldPath|) by {
      assert path[|oldPath|..|oldPath| + 3] == Arrow;
    }
  }

  /** A path with the arrow twice cannot be unpacked into two paths: the
      report raises at that file. */
  lemma TwoArrowsRaise(first: string, second: string, rest: string, status: string, code: string)
    requires '\U{2192}' !in first && '\U{2192}' !in second
    ensures FileHeading(Entry(first + Arrow + second + Arrow + rest, status, code)).None?
  {
    var path := first + Arrow + second + Arrow + rest;
    assert path == first + Arrow + (second + Arrow + rest);
    ArrowSplit(first, second + Arrow + rest);
    ArrowSplit(second, rest);
    assert OccursAt(path, Arrow, |first|) by {
      assert path[|first|..|first| + 3] == Arrow;
    }
  }

  /** The walk raises exactly when some file's path cannot be unpacked. */
  lemma {:induction false} WalkRaisesExactly(g: Git, files: seq<Entry>)
    ensures WalkFiles(g, files).raised <==> exists e :: e in files && FileHeading(e).None?
    decreases |files|
  {
    if files != [] {
      var init, last := files[..|files| - 1], files[|files| - 1];
      WalkRaisesExactly(g, init);
      StepRaised(g, WalkFiles(g, init), last);
      MemberSnoc(files, e => FileHeading(e).None?);
    }
  }

  lemma StepRaised(g: Git, w: Walk, e: Entry)
    ensures Step(g, w, e).raised <==> w.raised || FileHeading(e).None?
  {
  }

  /** A non-deleted file is listed as binary when its numstat says so. */
  ghost predicate ListedAsBinary(g: Git, e: Entry, path: string) {
    && e.status != "Deleted"
    && FileHeading(e).Some? && FileHeading(e).value.1 == path
    && IsBinaryNumstat(g.numstat(path))
  }

  /** When the walk completes, the binary list holds exactly the paths of
      the non-deleted files whose numstat is binary, at most one per file. */
  lemma {:induction false} BinariesListed(g: Git, files: seq<Entry>)
    requires !WalkFiles(g, files).raised
    ensures |WalkFiles(g, files).binaries| <= |files|
    ensures forall p :: p in WalkFiles(g, files).binaries <==> exists e :: e in files && ListedAsBinary(g, e, p)
    decreases |files|
  {
    if files != [] {
      var init, last := files[..|files| - 1], files[|files| - 1];
      StepBinaries(g, WalkFiles(g, init), last);
      BinariesListed(g, init);
      forall p
        ensures p in WalkFiles(g, files).binaries <==> exists e :: e in files && ListedAsBinary(g, e, p)
      {
        MemberSnoc(files, e => ListedAsBinary(g, e, p));
      }
    }
  }

  /** A step that does not raise adds this file's binary path, if any. */
  lemma StepBinaries(g: Git, w: Walk, e: Entry)
    requires !Step(g, w, e).raised
    ensures !w.raised && FileHeading(e).Some?
    ensures Step(g, w, e).binaries == w.binaries + FileBinary(g, e.status, FileHeading(e).value.1)
    ensures |FileBinary(g, e.status, FileHeading(e).value.1)| <= 1
    ensures forall p :: p in FileBinary(g, e.status, FileHeading(e).value.1) <==> ListedAsBinary(g, e, p)
  {
  }

  lemma MemberSnoc<T>(s: seq<T>, p: T -> bool)
    requires s != []
    ensures (exists x :: x in s && p(x)) <==> (exists x :: x in s[..|s| - 1] && p(x)) || p(s[|s| - 1])
  {
    var init := s[..|s| - 1];
    assert s == init + [s[|s| - 1]];
  }

  /** A lockfile whose numstat is binary is reported as binary, although it
      is also a lockfile: the binary test comes first. */
  lemma BinaryLockfile(g: Git, status: string, path: string, dir: string, file: string)
    requires path == dir + "/" + file && '/' !in file && Lower(file) in LockfileNames
    requires status != "Deleted" && g.numstat(path) == CommandResult("-\t-\t" + path, 0)
    ensures ShouldSkipFile(path)
    ensures FileBody(g, status, path) == [BinaryNote] && FileBinary(g, status, path) == [path]
  {
    BinaryFirst(g, status, path);
    LockfileSkipped(dir, file);
  }

  lemma BinaryFirst(g: Git, status: string, path: string)
    requires g.numstat(path) == CommandResult("-\t-\t" + path, 0) && status != "Deleted"
    ensures FileBody(g, status, path) == [BinaryNote] && FileBinary(g, status, path) == [path]
  {
    NumstatBinaryExactly("-\t-\t" + path);
  }

  /** A deleted file is answered without asking git or the working tree
      anything, and never listed as binary. */
  lemma DeletedAsksNothing(g: Git, h: Git, path: string)
    ensures FileBody(g, "Deleted", path) == FileBody(h, "Deleted", path) == [DeletedNote]
    ensures FileBinary(g, "Deleted", path) == []
  {
  }

  /** A new file that is not binary, not auto-generated, readable and not
      empty is shown whole, fenced with the language of its extension;
      otherwise the could-not-read note stands in for it. */
  lemma AddedFileShown(g: Git, path: string)
    requires !IsBinaryNumstat(g.numstat(path)) && !ShouldSkipFile(path)
    ensures g.content(path).Some? && g.content(path).value != ""
        ==> FileBody(g, "Added", path) == [Fence(Language(path), g.content(path).value) + "\n\n"]
    ensures g.content(path).None? || g.content(path) == Some("") ==> FileBody(g, "Added", path) == [UnreadableNote]
  {
  }

  /** A diff that fails gives the could-not-generate note, and one without
      a hunk body gives the no-diff note. */
  lemma DiffNotes(g: Git, status: string, path: string)
    requires status != "Deleted" && status != "Added"
    requires !IsBinaryNumstat(g.numstat(path)) && !ShouldSkipFile(path)
    ensures g.diff(path).code != 0 ==> FileBody(g, status, path) == [DiffFailedNote]
    ensures g.diff(path).code == 0 && g.diff(path).output != "" && NoBody(SplitOn(g.diff(path).output, "\n"))
        ==> FileBody(g, status, path) == [NoDiffNote]
  {
    FormattedEmptyExactly(g.diff(path).output, path, DefaultMaxUnchanged);
  }
}
