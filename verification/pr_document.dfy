/** `generate_summary` (pr2md_a.py): list the changes, and either report
    that there are none or join the summary section, the non-empty file
    sections and the technical-summary placeholder with newlines. */
module PrDocument {
  import opened Strings
  import opened StatSummary
  import opened PrSummary
  import opened PrSections
  import opened PrFileSections

  /** The text returned when no change survives the filters. */
  const NoChangesText := "# No Changes Found" + "\n\n" + "No differences detected between the specified references."

  /** The technical-summary placeholder that closes every summary: its
      nine lines (a heading, a prompt, three bullet prompts, blank lines
      between and after them) joined with newlines. */
  const TechnicalText := "## Technical Summary\n\n"
    + "*This section should be filled with a high-level technical overview of the changes.*\n\n"
    + "Key technical aspects:\n- *[Add key technical points]*\n- *[Add architectural changes]*\n"
    + "- *[Add performance implications]*\n"

  /** The `--stat` output `_get_diff_stats` parses; a git failure gives none. */
  function StatText(r: GitResult): Option<string> {
    match r
    case GitError => None
    case Output(text) => Some(text)
  }

  function Stats(repo: Repo): DiffStats {
    DiffStatsOf(StatText(repo.stat))
  }

  /** A section, kept only when it is not empty. */
  function NonEmpty(section: string): seq<string> {
    if section != "" then [section] else []
  }

  /** The parts joined into the document: the summary section, the
      sections that are not empty, and the technical summary. */
  function Assemble(summary: string, newFiles: string, modified: string, other: string): (r: seq<string>)
    ensures |r| >= 2 && r[0] == summary && r[|r| - 1] == TechnicalText
  {
    [summary] + NonEmpty(newFiles) + NonEmpty(modified) + NonEmpty(other) + [TechnicalText]
  }

  function DocumentParts(s: Settings, repo: Repo, changes: seq<FileChange>): seq<string> {
    Assemble(Join(SummaryLines(s, changes, repo.commitInfo, Stats(repo)), "\n"),
             Join(NewFilesLines(s, repo, WithStatus(changes, "A")), "\n"),
             Join(ModifiedLines(s, repo, WithStatus(changes, "M")), "\n"),
             Join(OtherLines(repo, WithStatus(changes, "D"), WithStatus(changes, "R")), "\n"))
  }

  /** The end of `generate_summary`: the sections that are not empty, in
      order, between the summary and the technical summary. */
  method AssembleSections(summary: string, newFiles: string, modified: string, other: string)
    returns (result: seq<string>)
    ensures result == Assemble(summary, newFiles, modified, other)
  {
    result := [summary];
    if newFiles != "" {
      result := result + [newFiles];
    }
    if modified != "" {
      result := result + [modified];
    }
    if other != "" {
      result := result + [other];
    }
    result := result + [TechnicalText];
  }

  /** What `generate_summary` returns, or the failure it raises. */
  function Document(s: Settings, repo: Repo): Result<string> {
    match FileChanges(s, repo.nameStatus)
    case Err(e) => Err(e)
    case Ok(changes) =>
      if changes == [] then Ok(NoChangesText) else Ok(Join(DocumentParts(s, repo, changes), "\n"))
  }

  /** `generate_summary`. */
  method GenerateSummary(s: Settings, repo: Repo) returns (r: Result<string>)
    ensures r == Document(s, repo)
  {
    var listed := GetFileChanges(s, repo.nameStatus);
    if listed.Err? {
      return Err(listed.failure);
    }
    var changes := listed.value;
    if changes == [] {
      return Ok(NoChangesText);
    }
    var info := repo.commitInfo;
    var stats := GetDiffStats(StatText(repo.stat));
    var added := WithStatus(changes, "A");
    var modified := WithStatus(changes, "M");
    var deleted := WithStatus(changes, "D");
    var renamed := WithStatus(changes, "R");
    var summarySection := GenerateSummarySection(s, changes, info, stats);
    var newFilesSection := GenerateNewFilesSection(s, repo, added);
    var modifiedSection := GenerateModifiedFilesSection(s, repo, modified);
    var otherSection := GenerateOtherChangesSection(repo, deleted, renamed);
    var result := AssembleSections(summarySection, newFilesSection, modifiedSection, otherSection);
    r := Ok(Join(result, "\n"));
  }

  // ---------------------------------------------------------------------
  // What the document holds

  /** The document with changes starts with the title naming the branch. */
  lemma DocumentTitle(s: Settings, repo: Repo, changes: seq<FileChange>)
    ensures StartsWith(Join(DocumentParts(s, repo, changes), "\n"), "# PR Changes: " + BranchTitle(repo.commitInfo))
  {
    var parts := DocumentParts(s, repo, changes);
    var lines := SummaryLines(s, changes, repo.commitInfo, Stats(repo));
    JoinStartsWithFirst(parts, "\n");
    JoinStartsWithFirst(lines, "\n");
    StartsWithTrans(Join(parts, "\n"), parts[0], lines[0]);
  }

  lemma StartsWithTrans(a: string, b: string, c: string)
    requires StartsWith(a, b) && StartsWith(b, c)
    ensures StartsWith(a, c)
  {
    assert a[..|c|] == b[..|b|][..|c|];
  }

  /** "No changes" is reported exactly when the listing succeeds with no
      change left after filtering; a failing listing is reported as such. */
  lemma NoChangesExactly(s: Settings, repo: Repo)
    ensures Document(s, repo) == Ok(NoChangesText) <==> FileChanges(s, repo.nameStatus) == Ok([])
    ensures Document(s, repo).Err? <==> FileChanges(s, repo.nameStatus).Err?
  {
    var listed := FileChanges(s, repo.nameStatus);
    if listed.Ok? && listed.value != [] {
      ReportIsNotEmptyNotice(s, repo, listed.value);
    }
  }

  /** A document with changes is never the no-changes notice: the two
      titles differ in their third character. */
  lemma ReportIsNotEmptyNotice(s: Settings, repo: Repo, changes: seq<FileChange>)
    ensures Join(DocumentParts(s, repo, changes), "\n") != NoChangesText
  {
    DocumentTitle(s, repo, changes);
    TitlesDiffer(Join(DocumentParts(s, repo, changes), "\n"), BranchTitle(repo.commitInfo));
  }

  lemma TitlesDiffer(doc: string, branch: string)
    requires StartsWith(doc, "# PR Changes: " + branch)
    ensures doc != NoChangesText
  {
    assert doc[2] == ("# PR Changes: " + branch)[2] == 'P';
    assert NoChangesText[2] == 'N';
  }

  /** Every document with changes ends with the technical summary. */
  lemma DocumentEnd(s: Settings, repo: Repo, changes: seq<FileChange>)
    ensures EndsWith(Join(DocumentParts(s, repo, changes), "\n"), TechnicalText)
  {
    var parts := DocumentParts(s, repo, changes);
    JoinEndsWithLast(parts, "\n");
  }

  /** The new-file section appears exactly when a file was added, the
      modified-file section exactly when one was modified, and the other
      section exactly when one was deleted or renamed. */
  lemma SectionsPresent(s: Settings, repo: Repo, changes: seq<FileChange>)
    ensures |DocumentParts(s, repo, changes)|
         == 2 + (if WithStatus(changes, "A") != [] then 1 else 0)
              + (if WithStatus(changes, "M") != [] then 1 else 0)
              + (if WithStatus(changes, "D") != [] || WithStatus(changes, "R") != [] then 1 else 0)
    ensures var a, m, d, r := WithStatus(changes, "A"), WithStatus(changes, "M"),
                              WithStatus(changes, "D"), WithStatus(changes, "R");
            DocumentParts(s, repo, changes)
            == [Join(SummaryLines(s, changes, repo.commitInfo, Stats(repo)), "\n")]
               + (if a != [] then [Join(NewFilesLines(s, repo, a), "\n")] else [])
               + (if m != [] then [Join(ModifiedLines(s, repo, m), "\n")] else [])
               + (if d != [] || r != [] then [Join(OtherLines(repo, d, r), "\n")] else [])
               + [TechnicalText]
  {
    var a, m := WithStatus(changes, "A"), WithStatus(changes, "M");
    var d, r := WithStatus(changes, "D"), WithStatus(changes, "R");
    var summary := Join(SummaryLines(s, changes, repo.commitInfo, Stats(repo)), "\n");
    var newFiles, modified := Join(NewFilesLines(s, repo, a), "\n"), Join(ModifiedLines(s, repo, m), "\n");
    var other := Join(OtherLines(repo, d, r), "\n");
    SectionsEmpty(s, repo, a, m, d, r);
    AssembleLength(summary, newFiles, modified, other);
    AssembleParts(summary, newFiles, modified, other, a != [], m != [], d != [] || r != []);
  }

  /** Each section's text is empty exactly when it has no change to list. */
  lemma SectionsEmpty(s: Settings, repo: Repo, a: seq<FileChange>, m: seq<FileChange>,
                      d: seq<FileChange>, r: seq<FileChange>)
    ensures Join(NewFilesLines(s, repo, a), "\n") == "" <==> a == []
    ensures Join(ModifiedLines(s, repo, m), "\n") == "" <==> m == []
    ensures Join(OtherLines(repo, d, r), "\n") == "" <==> d == [] && r == []
  {
    NewFilesSectionEmpty(s, repo, a);
    ModifiedSectionEmpty(s, repo, m);
    OtherSectionEmpty(repo, d, r);
  }

  /** The assembly keeps a section exactly when it is not empty. */
  lemma AssembleParts(summary: string, newFiles: string, modified: string, other: string,
                      hasNew: bool, hasModified: bool, hasOther: bool)
    requires (newFiles == "" <==> !hasNew) && (modified == "" <==> !hasModified) && (other == "" <==> !hasOther)
    ensures Assemble(summary, newFiles, modified, other)
         == [summary] + (if hasNew then [newFiles] else []) + (if hasModified then [modified] else [])
            + (if hasOther then [other] else []) + [TechnicalText]
  {
  }

  /** One part per non-empty section, plus the first and the last. */
  lemma AssembleLength(summary: string, newFiles: string, modified: string, other: string)
    ensures |Assemble(summary, newFiles, modified, other)|
         == 2 + (if newFiles != "" then 1 else 0) + (if modified != "" then 1 else 0)
              + (if other != "" then 1 else 0)
  {
  }
}
