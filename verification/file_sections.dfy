/** The per-file sections of the PR summary (pr2md_a.py): the full text of
    each new file, the diff of each modified file, and the list of deletions
    and renames. Each builder is a method with the source's loop, proved
    equal to a function that describes its lines; the lemmas say what each
    file's block shows and in which order the cases are tried. */
module PrFileSections {
  import opened Strings
  import opened Paths
  import opened Sorting
  import opened PrSummary
  import opened PrSections

  // ---------------------------------------------------------------------
  // Blocks

  /** The blocks of some changes, one after the other. */
  function Blocks(changes: seq<FileChange>, block: FileChange -> seq<string>): seq<string> {
    if changes == [] then [] else block(changes[0]) + Blocks(changes[1..], block)
  }

  lemma {:induction false} BlocksSnoc(changes: seq<FileChange>, k: nat, block: FileChange -> seq<string>)
    requires k < |changes|
    ensures Blocks(changes[..k + 1], block) == Blocks(changes[..k], block) + block(changes[k])
    decreases k
  {
    var xs := changes[..k + 1];
    if k == 0 {
      assert xs[1..] == [];
      assert block(xs[0]) + [] == [] + block(changes[k]);
    } else {
      assert xs[0] == changes[0];
      assert xs[1..] == changes[1..][..k];
      assert changes[..k][1..] == changes[1..][..k - 1];
      BlocksSnoc(changes[1..], k - 1, block);
      assert changes[1..][k - 1] == changes[k];
    }
  }

  /** Appends the block of each change, in order: the loop of the file
      sections, whose body chooses the lines of one file. */
  method AppendBlocks(lines: seq<string>, changes: seq<FileChange>, block: FileChange -> seq<string>)
    returns (out: seq<string>)
    ensures out == lines + Blocks(changes, block)
  {
    out := lines;
    var k := 0;
    while k < |changes|
      invariant k <= |changes|
      invariant out == lines + Blocks(changes[..k], block)
    {
      BlocksSnoc(changes, k, block);
      AppendAssoc(lines, Blocks(changes[..k], block), block(changes[k]));
      out := out + block(changes[k]);
      k := k + 1;
    }
    assert changes[..k] == changes;
  }

  /** The text of a section: nothing when it has no lines. */
  lemma JoinEmptyExactly(lines: seq<string>, first: string)
    requires first != "" && |lines| > 0 && lines[0] == first
    ensures Join(lines, "\n") != ""
  {
    JoinStartsWithFirst(lines, "\n");
  }

  // ---------------------------------------------------------------------
  // New files

  function BinaryNewFileBlock(path: string): seq<string> {
    ["### " + path + " (Binary File)", "", "*Binary file - content not shown*", ""]
  }

  function TooLargeBlock(path: string, maxFileSize: int): seq<string> {
    ["### " + path + " (File too large)", "", "*File exceeds maximum size limit of " + IntToString(maxFileSize) + " bytes*", ""]
  }

  function ContentBlock(path: string, content: string): seq<string> {
    ["### " + path, "", "```" + FileLanguage(path), content, "```", ""]
  }

  /** The block of one new file: a binary placeholder, else a size-limit
      notice when `_get_file_content` gives nothing, else the fenced text. */
  function NewFileBlock(s: Settings, repo: Repo, c: FileChange): seq<string> {
    if IsBinaryFile(c.path, repo.numstat(c.path), repo.show(c.path)) then BinaryNewFileBlock(c.path)
    else
      match FileContent(s.maxFileSize, repo.show(c.path))
      case None => TooLargeBlock(c.path, s.maxFileSize)
      case Some(content) => ContentBlock(c.path, content)
  }

  function NewFileBlockOf(s: Settings, repo: Repo): FileChange -> seq<string> {
    c => NewFileBlock(s, repo, c)
  }

  /** The lines of `_generate_new_files_section`: none without added files,
      else a title and one block per file in path order. */
  function NewFilesLines(s: Settings, repo: Repo, added: seq<FileChange>): seq<string> {
    if added == [] then [] else ["## New Files", ""] + Blocks(ByPath(added), NewFileBlockOf(s, repo))
  }

  /** `_generate_new_files_section`. */
  method GenerateNewFilesSection(s: Settings, repo: Repo, added: seq<FileChange>) returns (text: string)
    ensures text == Join(NewFilesLines(s, repo, added), "\n")
  {
    if added == [] {
      return "";
    }
    var sections := AppendBlocks(["## New Files", ""], ByPath(added), NewFileBlockOf(s, repo));
    text := Join(sections, "\n");
  }

  /** The section is empty exactly when no file was added. */
  lemma NewFilesSectionEmpty(s: Settings, repo: Repo, added: seq<FileChange>)
    ensures Join(NewFilesLines(s, repo, added), "\n") == "" <==> added == []
  {
    if added != [] {
      JoinEmptyExactly(NewFilesLines(s, repo, added), "## New Files");
    }
  }

  /** A file with a binary extension gets the placeholder whatever git
      says about it, even when its text would also exceed the size limit. */
  lemma BinaryExtensionWins(s: Settings, repo: Repo, c: FileChange)
    requires Lower(Suffix(c.path)) in BinaryExtensions
    ensures NewFileBlock(s, repo, c) == BinaryNewFileBlock(c.path)
  {
  }

  /** A text file within the limit is shown verbatim, fenced with the tag of
      its extension. */
  lemma NewFileShown(s: Settings, repo: Repo, c: FileChange, text: string)
    requires !IsBinaryFile(c.path, repo.numstat(c.path), repo.show(c.path))
    requires repo.show(c.path) == Output(text) && Utf8Length(text) <= s.maxFileSize
    ensures NewFileBlock(s, repo, c) == ContentBlock(c.path, text)
  {
  }

  /** A text file over the limit, and one git cannot show, both get the
      size-limit notice. */
  lemma NewFileWithheld(s: Settings, repo: Repo, c: FileChange)
    requires !IsBinaryFile(c.path, repo.numstat(c.path), repo.show(c.path))
    requires repo.show(c.path).GitError? || Utf8Length(repo.show(c.path).text) > s.maxFileSize
    ensures NewFileBlock(s, repo, c) == TooLargeBlock(c.path, s.maxFileSize)
  {
  }

  // ---------------------------------------------------------------------
  // Modified files

  /** What `_get_file_diff` returns for a git outcome: a failure reads as no
      diff at all. */
  function DiffText(r: GitResult): string {
    match r
    case GitError => ""
    case Output(text) => text
  }

  function BinaryModifiedBlock(path: string): seq<string> {
    ["### " + path + " (Binary File)", "", "*Binary file modified - diff not shown*", ""]
  }

  function NoDiffBlock(path: string): seq<string> {
    ["### " + path, "", "*No diff available*", ""]
  }

  function DiffBlock(path: string, diff: string): seq<string> {
    ["### " + path, "", "```diff", diff, "```", ""]
  }

  /** The block of one modified file: a binary placeholder, else a notice
      for an empty diff, else the fenced diff. */
  function ModifiedBlock(s: Settings, repo: Repo, c: FileChange): seq<string> {
    if IsBinaryFile(c.path, repo.numstat(c.path), repo.show(c.path)) then BinaryModifiedBlock(c.path)
    else
      var diff := DiffText(repo.diff(c.path, None));
      if diff == "" then NoDiffBlock(c.path) else DiffBlock(c.path, diff)
  }

  function ModifiedBlockOf(s: Settings, repo: Repo): FileChange -> seq<string> {
    c => ModifiedBlock(s, repo, c)
  }

  /** The lines of `_generate_modified_files_section`. */
  function ModifiedLines(s: Settings, repo: Repo, modified: seq<FileChange>): seq<string> {
    if modified == [] then [] else ["## Modified Files", ""] + Blocks(ByPath(modified), ModifiedBlockOf(s, repo))
  }

  /** `_generate_modified_files_section`. */
  method GenerateModifiedFilesSection(s: Settings, repo: Repo, modified: seq<FileChange>) returns (text: string)
    ensures text == Join(ModifiedLines(s, repo, modified), "\n")
  {
    if modified == [] {
      return "";
    }
    var sections := AppendBlocks(["## Modified Files", ""], ByPath(modified), ModifiedBlockOf(s, repo));
    text := Join(sections, "\n");
  }

  /** The section is empty exactly when no file was modified. */
  lemma ModifiedSectionEmpty(s: Settings, repo: Repo, modified: seq<FileChange>)
    ensures Join(ModifiedLines(s, repo, modified), "\n") == "" <==> modified == []
  {
    if modified != [] {
      JoinEmptyExactly(ModifiedLines(s, repo, modified), "## Modified Files");
    }
  }

  /** The diff of a text file is shown verbatim exactly when git gives a
      non-empty one; a failing git diff reads as "No diff available". */
  lemma ModifiedDiffShown(s: Settings, repo: Repo, c: FileChange)
    requires !IsBinaryFile(c.path, repo.numstat(c.path), repo.show(c.path))
    ensures var r := repo.diff(c.path, None);
      ModifiedBlock(s, repo, c) == (if r.Output? && r.text != "" then DiffBlock(c.path, r.text) else NoDiffBlock(c.path))
  {
  }

  // ---------------------------------------------------------------------
  // Deletions and renames

  function DeletedLine(c: FileChange): string {
    "- **" + c.path + "** - File removed"
  }

  /** The old path `_get_file_diff` receives: an empty one counts as none. */
  function DiffOldPath(oldPath: Option<string>): Option<string> {
    if oldPath.Some? && oldPath.value != "" then oldPath else None
  }

  /** The line `similarity index 100%` git prints for a rename without
      content changes. */
  const FullSimilarity := "similarity index 100%"

  /** The notes a rename line ends with. */
  const WithModifications := " (with modifications)"
  const RenamedOnly := " (renamed only)"

  /** The rename note as pr2md_a.py:608 writes it: a non-empty diff that
      does not begin with the full-similarity line counts as modified. */
  function RenameNoteAsWritten(diff: string): string {
    if diff != "" && !StartsWith(diff, FullSimilarity) then WithModifications else RenamedOnly
  }

  /** The rename note as intended: a non-empty diff counts as modified
      unless one of its lines is the full-similarity line. */
  function RenameNote(diff: string): string {
    if diff != "" && FullSimilarity !in SplitOn(diff, "\n") then WithModifications else RenamedOnly
  }

  /** What git prints for a rename without content changes: the
      `diff --git` header first, the similarity line second. */
  function PureRenameDiff(oldPath: string, newPath: string): string {
    Join(["diff --git a/" + oldPath + " b/" + newPath, FullSimilarity,
          "rename from " + oldPath, "rename to " + newPath], "\n")
  }

  /** The discrepancy: for a pure rename the diff begins with its header,
      not with the similarity line, so the note as written calls it
      modified, while the intended note calls it a rename only. */
  lemma PureRenameCalledModified(oldPath: string, newPath: string)
    requires '\n' !in oldPath && '\n' !in newPath
    ensures RenameNoteAsWritten(PureRenameDiff(oldPath, newPath)) == WithModifications
    ensures RenameNote(PureRenameDiff(oldPath, newPath)) == RenamedOnly
  {
    var header := "diff --git a/" + oldPath + " b/" + newPath;
    var from, to := "rename from " + oldPath, "rename to " + newPath;
    NoNewline("diff --git a/", oldPath, " b/", newPath);
    NoNewline("rename from ", oldPath, "", "");
    NoNewline("rename to ", newPath, "", "");
    assert from == "rename from " + oldPath + "" + "";
    assert to == "rename to " + newPath + "" + "";
    var parts := [header, FullSimilarity, from, to];
    HeaderFirst(parts);
    FullSimilarityLine(parts);
  }

  /** A diff whose first line is git's header is not taken for a pure
      rename by the note as written. */
  lemma HeaderFirst(parts: seq<string>)
    requires |parts| >= 1 && |parts[0]| > 0 && parts[0][0] == 'd'
    ensures RenameNoteAsWritten(Join(parts, "\n")) == WithModifications
  {
    JoinStartsWithFirst(parts, "\n");
  }

  /** A diff with the full-similarity line among its lines is a pure
      rename for the intended note. */
  lemma FullSimilarityLine(parts: seq<string>)
    requires |parts| >= 2 && parts[1] == FullSimilarity
    requires forall k :: 0 <= k < |parts| ==> '\n' !in parts[k]
    ensures RenameNote(Join(parts, "\n")) == RenamedOnly
  {
    SplitJoin(parts, '\n');
    assert SplitOn(Join(parts, "\n"), "\n")[1] == FullSimilarity;
  }

  lemma NoNewline(a: string, b: string, c: string, e: string)
    requires '\n' !in a && '\n' !in b && '\n' !in c && '\n' !in e
    ensures '\n' !in a + b + c + e
  {
  }

  /** A line of the renames list, with the note as pr2md_a.py:608 writes
      it: "(renamed only)" exactly when git failed, printed nothing, or
      printed the full-similarity line first. */
  function RenameLine(repo: Repo, c: FileChange): (r: string)
    ensures StartsWith(r, "- **" + OptionalText(c.oldPath) + "**" + Arrow + "**" + c.path + "**")
    ensures var d := repo.diff(c.path, DiffOldPath(c.oldPath));
            EndsWith(r, RenamedOnly) <==> d.GitError? || d.text == "" || StartsWith(d.text, FullSimilarity)
  {
    var diff := DiffText(repo.diff(c.path, DiffOldPath(c.oldPath)));
    var head := "- **" + OptionalText(c.oldPath) + "**" + Arrow + "**" + c.path + "**";
    var note := RenameNoteAsWritten(diff);
    NotesDiffer(head);
    assert (head + note)[..|head|] == head;
    head + note
  }

  /** The two notes are told apart by their ending. */
  lemma NotesDiffer(head: string)
    ensures EndsWith(head + RenamedOnly, RenamedOnly)
    ensures !EndsWith(head + WithModifications, RenamedOnly)
  {
    var r := head + WithModifications;
    assert r[|r| - 2] == 's';
  }

  function RenameLineOf(repo: Repo): FileChange -> string {
    c => RenameLine(repo, c)
  }

  /** The deletions list: nothing without deletions. */
  function DeletedBlock(deleted: seq<FileChange>): seq<string> {
    if deleted == [] then [] else ["### Deleted Files", ""] + Lines(ByPath(deleted), DeletedLine) + [""]
  }

  /** The renames list: nothing without renames. */
  function RenamedBlock(repo: Repo, renamed: seq<FileChange>): seq<string> {
    if renamed == [] then [] else ["### Renamed Files", ""] + Lines(ByPath(renamed), RenameLineOf(repo)) + [""]
  }

  /** The lines of `_generate_other_changes_section`. */
  function OtherLines(repo: Repo, deleted: seq<FileChange>, renamed: seq<FileChange>): seq<string> {
    if deleted == [] && renamed == [] then []
    else ["## Other Changes", ""] + DeletedBlock(deleted) + RenamedBlock(repo, renamed)
  }

  /** Appends a titled list when there are changes for it. */
  method AppendList(lines: seq<string>, title: string, changes: seq<FileChange>, line: FileChange -> string)
    returns (out: seq<string>)
    ensures out == lines + (if changes == [] then [] else [title, ""] + Lines(ByPath(changes), line) + [""])
  {
    out := lines;
    if changes != [] {
      out := out + [title, ""];
      out := AppendEntries(out, ByPath(changes), line);
      out := out + [""];
      AppendAssoc(lines, [title, ""] + Lines(ByPath(changes), line), [""]);
      AppendAssoc(lines, [title, ""], Lines(ByPath(changes), line));
    }
  }

  /** `_generate_other_changes_section`. */
  method GenerateOtherChangesSection(repo: Repo, deleted: seq<FileChange>, renamed: seq<FileChange>)
    returns (text: string)
    ensures text == Join(OtherLines(repo, deleted, renamed), "\n")
  {
    if deleted == [] && renamed == [] {
      return "";
    }
    var sections := ["## Other Changes", ""];
    sections := AppendList(sections, "### Deleted Files", deleted, DeletedLine);
    sections := AppendList(sections, "### Renamed Files", renamed, RenameLineOf(repo));
    text := Join(sections, "\n");
  }

  /** The section is empty exactly when nothing was deleted or renamed. */
  lemma OtherSectionEmpty(repo: Repo, deleted: seq<FileChange>, renamed: seq<FileChange>)
    ensures Join(OtherLines(repo, deleted, renamed), "\n") == "" <==> deleted == [] && renamed == []
  {
    if deleted != [] || renamed != [] {
      JoinEmptyExactly(OtherLines(repo, deleted, renamed), "## Other Changes");
    }
  }

  /** The deletions list has a line for every deleted file and no other
      entry. */
  lemma DeletedListed(deleted: seq<FileChange>)
    requires deleted != []
    ensures var b := DeletedBlock(deleted);
      |b| == |deleted| + 3
      && (forall c :: c in deleted ==> DeletedLine(c) in b[2..|b| - 1])
      && (forall k :: 2 <= k < |b| - 1 ==> exists c :: c in deleted && b[k] == DeletedLine(c))
  {
    var sorted := ByPath(deleted);
    var b := DeletedBlock(deleted);
    var lines := Lines(sorted, DeletedLine);
    assert b[2..|b| - 1] == lines;
    forall c | c in deleted ensures DeletedLine(c) in lines {
      assert c in multiset(sorted);
      var k :| 0 <= k < |sorted| && sorted[k] == c;
      assert lines[k] == DeletedLine(c);
    }
    forall k | 2 <= k < |b| - 1 ensures exists c :: c in deleted && b[k] == DeletedLine(c) {
      assert b[k] == lines[k - 2] == DeletedLine(sorted[k - 2]);
      assert sorted[k - 2] in multiset(deleted);
    }
  }
}
