/** The Markdown that `PRSummaryGenerator` assembles (pr2md_a.py): the
    summary section, the new-file, modified-file and other-changes
    sections, and `generate_summary`, which puts them together. Each
    builder appends lines to a list in loops and joins the list with
    newlines; each is a method here, proved equal to a function that
    describes its lines, and the lemmas state what those lines hold. */
module PrSections {
  import opened Strings
  import opened Paths
  import opened Sorting
  import opened StatSummary
  import opened PrSummary

  // ---------------------------------------------------------------------
  // Categories

  /** The changes with the given status, in their original order (the
      comprehensions `[c for c in changes if c.status == ...]`). */
  function WithStatus(changes: seq<FileChange>, status: string): (r: seq<FileChange>)
    ensures forall c :: c in r <==> c in changes && c.status == status
    ensures |r| <= |changes|
  {
    if changes == [] then []
    else if changes[0].status == status then [changes[0]] + WithStatus(changes[1..], status)
    else WithStatus(changes[1..], status)
  }

  /** The statuses that have a place in the report. */
  predicate Categorised(c: FileChange) {
    c.status == "A" || c.status == "M" || c.status == "D" || c.status == "R"
  }

  /** The changes that no category takes (copies and any other status). */
  function Uncategorised(changes: seq<FileChange>): (r: seq<FileChange>)
    ensures forall c :: c in r <==> c in changes && !Categorised(c)
  {
    if changes == [] then []
    else if !Categorised(changes[0]) then [changes[0]] + Uncategorised(changes[1..])
    else Uncategorised(changes[1..])
  }

  /** Every change falls in exactly one of the four categories or in none:
      the category sizes and the uncategorised ones add up to the whole. */
  lemma {:induction false} CategoriesPartition(changes: seq<FileChange>)
    ensures |WithStatus(changes, "A")| + |WithStatus(changes, "M")| + |WithStatus(changes, "D")|
          + |WithStatus(changes, "R")| + |Uncategorised(changes)| == |changes|
  {
    if changes != [] {
      CategoriesPartition(changes[1..]);
    }
  }

  function PathOf(c: FileChange): string {
    c.path
  }

  /** `sorted(xs, key=lambda x: x.path)`. */
  function ByPath(changes: seq<FileChange>): (r: seq<FileChange>)
    ensures SortedBy(r, PathOf) && multiset(r) == multiset(changes) && |r| == |changes|
  {
    SortBy(changes, PathOf)
  }

  // ---------------------------------------------------------------------
  // Summary section

  /** What an f-string shows for an optional path. */
  function OptionalText(p: Option<string>): string {
    match p
    case None => "None"
    case Some(text) => text
  }

  function EntryLine(c: FileChange): string {
    "- **" + c.path + "**"
  }

  function RenameEntryLine(c: FileChange): string {
    "- **" + OptionalText(c.oldPath) + "**" + Arrow + "**" + c.path + "**"
  }

  /** One line per change, in order. */
  function Lines(changes: seq<FileChange>, line: FileChange -> string): (r: seq<string>)
    ensures |r| == |changes|
    ensures forall k :: 0 <= k < |r| ==> r[k] == line(changes[k])
  {
    if changes == [] then [] else [line(changes[0])] + Lines(changes[1..], line)
  }

  function Heading(title: string, n: nat): string {
    "### " + title + " (" + NatToString(n) + " files):"
  }

  /** A subsection of the summary: a heading with the count, then the
      entries; nothing at all for no entries. */
  function Subsection(title: string, entries: seq<string>): seq<string> {
    if entries == [] then [] else [Heading(title, |entries|), ""] + entries + [""]
  }

  /** `commit_info.get('current_branch', commit_info.get('current_ref'))`:
      the error entry has neither key, which prints as "None". */
  function BranchTitle(info: CommitInfo): string {
    match info
    case Refs(_, _, branch) => branch
    case InfoError => "None"
  }

  /** The commit range, falling back on the configured refs. */
  function CommitRange(s: Settings, info: CommitInfo): string {
    match info
    case Refs(base, current, _) => base + "..." + current
    case InfoError => s.baseRef + "..." + s.currentRef
  }

  function TitleLines(info: CommitInfo): seq<string> {
    ["# PR Changes: " + BranchTitle(info), "", "This PR introduces the following changes:", "",
     "## Summary of Changes", ""]
  }

  /** The statistics block, shown only when the files total is positive. */
  function StatsLines(s: Settings, info: CommitInfo, stats: DiffStats): seq<string> {
    if stats.files > 0 then ["### Statistics:", ""] + Figures(s, info, stats) + [""] else []
  }

  /** The figures of the statistics block: the files total, the added and
      removed line counts when positive, and the commit range. */
  function Figures(s: Settings, info: CommitInfo, stats: DiffStats): (r: seq<string>)
    ensures forall k :: 0 <= k < |r| ==> |r[k]| > 0 && r[k][0] == '-'
  {
    [FilesLabel + NatToString(stats.files)]
    + (if stats.insertions > 0 then [AddedLabel + NatToString(stats.insertions)] else [])
    + (if stats.deletions > 0 then [RemovedLabel + NatToString(stats.deletions)] else [])
    + [RangeLabel + CommitRange(s, info)]
  }

  const FilesLabel := "- **" + "Files Changed" + "**: "
  const AddedLabel := "- **" + "Lines Added" + "**: +"
  const RemovedLabel := "- **" + "Lines Removed" + "**: -"
  const RangeLabel := "- **" + "Commit Range" + "**: "

  /** The statistics list the added lines exactly when some were added,
      and the removed lines exactly when some were removed, between the
      files total and the commit range. */
  lemma FiguresShown(s: Settings, info: CommitInfo, stats: DiffStats)
    ensures var f := Figures(s, info, stats);
      && |f| == 2 + (if stats.insertions > 0 then 1 else 0) + (if stats.deletions > 0 then 1 else 0)
      && StartsWith(f[0], FilesLabel) && StartsWith(f[|f| - 1], RangeLabel)
    ensures (exists k :: 0 <= k < |Figures(s, info, stats)| && StartsWith(Figures(s, info, stats)[k], AddedLabel))
        <==> stats.insertions > 0
    ensures (exists k :: 0 <= k < |Figures(s, info, stats)| && StartsWith(Figures(s, info, stats)[k], RemovedLabel))
        <==> stats.deletions > 0
  {
    var f := Figures(s, info, stats);
    var files, range := FilesLabel + NatToString(stats.files), RangeLabel + CommitRange(s, info);
    assert FilesLabel[4] == 'F' && AddedLabel[4] == 'L' && RemovedLabel[4] == 'L' && RangeLabel[4] == 'C';
    assert AddedLabel[10] == 'A' && RemovedLabel[10] == 'R';
    assert files[4] == 'F' && range[4] == 'C';
    forall k | 0 <= k < |f|
      ensures StartsWith(f[k], AddedLabel) <==> stats.insertions > 0 && k == 1
      ensures StartsWith(f[k], RemovedLabel) <==> stats.deletions > 0 && k == |f| - 2
    {
      if k == 0 {
        NotPrefixAt(f[k], AddedLabel, 4);
        NotPrefixAt(f[k], RemovedLabel, 4);
      } else if k == |f| - 1 {
        NotPrefixAt(f[k], AddedLabel, 4);
        NotPrefixAt(f[k], RemovedLabel, 4);
      } else if k == 1 && stats.insertions > 0 {
        assert f[k] == AddedLabel + NatToString(stats.insertions);
        assert f[k][10] == 'A';
        NotPrefixAt(f[k], RemovedLabel, 10);
      } else {
        assert f[k] == RemovedLabel + NatToString(stats.deletions);
        assert f[k][10] == 'R';
        NotPrefixAt(f[k], AddedLabel, 10);
      }
    }
    if stats.insertions > 0 {
      assert StartsWith(f[1], AddedLabel);
    }
    if stats.deletions > 0 {
      assert StartsWith(f[|f| - 2], RemovedLabel);
    }
  }

  lemma NotPrefixAt(line: string, prefix: string, i: nat)
    requires i < |prefix| && i < |line| && line[i] != prefix[i]
    ensures !StartsWith(line, prefix)
  {
    if |prefix| <= |line| {
      assert line[..|prefix|][i] == line[i];
    }
  }

  /** The summary section always closes with the rule: its text ends with
      a newline, "---" and a newline. */
  lemma SectionEndsWithRule(s: Settings, info: CommitInfo, stats: DiffStats, added: seq<string>,
                            modified: seq<string>, deleted: seq<string>, renamed: seq<string>)
    ensures EndsWith(Join(SectionLines(s, info, stats, added, modified, deleted, renamed), "\n"), "\n---\n")
  {
    var body := TitleLines(info) + Subsection("New Files Created", added) + Subsection("Modified Files", modified)
      + Subsection("Deleted Files", deleted) + Subsection("Renamed Files", renamed) + StatsLines(s, info, stats);
    RuleAtEnd(body, "---", "", "\n");
    assert "\n" + "---" + "\n" + "" == "\n---\n";
  }

  /** A join ending with two more pieces ends with both, each after a
      separator. */
  lemma RuleAtEnd(body: seq<string>, rule: string, blank: string, sep: string)
    requires |body| >= 1
    ensures EndsWith(Join(body + [rule, blank], sep), sep + rule + sep + blank)
  {
    var ruled := body + [rule];
    JoinSnoc(body, rule, sep);
    assert body + [rule, blank] == ruled + [blank];
    JoinSnoc(ruled, blank, sep);
    EndsWithAppended(Join(body, sep), sep, rule, sep, blank);
  }

  lemma EndsWithAppended(j: string, a: string, b: string, c: string, d: string)
    ensures EndsWith(j + a + b + c + d, a + b + c + d)
  {
    assert j + a + b + c + d == j + (a + b + c + d);
  }

  /** Entry lines start with the list marker. */
  predicate ListItems(entries: seq<string>) {
    forall k :: 0 <= k < |entries| ==> |entries[k]| > 0 && entries[k][0] == '-'
  }

  function AddedEntries(changes: seq<FileChange>): (r: seq<string>)
    ensures |r| == |WithStatus(changes, "A")| && ListItems(r)
  {
    Lines(ByPath(WithStatus(changes, "A")), EntryLine)
  }

  function ModifiedEntries(changes: seq<FileChange>): (r: seq<string>)
    ensures |r| == |WithStatus(changes, "M")| && ListItems(r)
  {
    Lines(ByPath(WithStatus(changes, "M")), EntryLine)
  }

  function DeletedEntries(changes: seq<FileChange>): (r: seq<string>)
    ensures |r| == |WithStatus(changes, "D")| && ListItems(r)
  {
    Lines(ByPath(WithStatus(changes, "D")), EntryLine)
  }

  function RenamedEntries(changes: seq<FileChange>): (r: seq<string>)
    ensures |r| == |WithStatus(changes, "R")| && ListItems(r)
  {
    Lines(ByPath(WithStatus(changes, "R")), RenameEntryLine)
  }

  /** The lines of `_generate_summary_section`. */
  function SummaryLines(s: Settings, changes: seq<FileChange>, info: CommitInfo, stats: DiffStats): seq<string> {
    SectionLines(s, info, stats, AddedEntries(changes), ModifiedEntries(changes),
                 DeletedEntries(changes), RenamedEntries(changes))
  }

  /** The summary section for given entry lines of the four categories. */
  function SectionLines(s: Settings, info: CommitInfo, stats: DiffStats, added: seq<string>,
                        modified: seq<string>, deleted: seq<string>, renamed: seq<string>): seq<string> {
    TitleLines(info)
    + Subsection("New Files Created", added)
    + Subsection("Modified Files", modified)
    + Subsection("Deleted Files", deleted)
    + Subsection("Renamed Files", renamed)
    + StatsLines(s, info, stats)
    + ["---", ""]
  }

  /** Appends one line per change, in order. */
  method AppendEntries(lines: seq<string>, changes: seq<FileChange>, line: FileChange -> string)
    returns (out: seq<string>)
    ensures out == lines + Lines(changes, line)
  {
    out := lines;
    var k := 0;
    while k < |changes|
      invariant k <= |changes|
      invariant out == lines + Lines(changes[..k], line)
    {
      LinesSnoc(changes, k, line);
      out := out + [line(changes[k])];
      k := k + 1;
    }
    assert changes[..k] == changes;
  }

  lemma LinesSnoc(changes: seq<FileChange>, k: nat, line: FileChange -> string)
    requires k < |changes|
    ensures Lines(changes[..k + 1], line) == Lines(changes[..k], line) + [line(changes[k])]
  {
  }

  /** Appends a subsection when it has entries. */
  method AppendSubsection(lines: seq<string>, title: string, changes: seq<FileChange>,
                          line: FileChange -> string) returns (out: seq<string>)
    ensures out == lines + Subsection(title, Lines(changes, line))
  {
    out := lines;
    if changes != [] {
      out := out + [Heading(title, |changes|), ""];
      out := AppendEntries(out, changes, line);
      out := out + [""];
      AppendAssoc(lines, [Heading(title, |changes|), ""] + Lines(changes, line), [""]);
      AppendAssoc(lines, [Heading(title, |changes|), ""], Lines(changes, line));
    }
  }

  /** Appends the statistics block when the files total is positive. */
  method AppendStats(lines: seq<string>, s: Settings, info: CommitInfo, stats: DiffStats)
    returns (out: seq<string>)
    ensures out == lines + StatsLines(s, info, stats)
  {
    out := lines;
    if stats.files > 0 {
      out := out + ["### Statistics:", "", FilesLabel + NatToString(stats.files)];
      if stats.insertions > 0 {
        out := out + [AddedLabel + NatToString(stats.insertions)];
      }
      if stats.deletions > 0 {
        out := out + [RemovedLabel + NatToString(stats.deletions)];
      }
      out := out + [RangeLabel + CommitRange(s, info), ""];
    }
  }

  /** `_generate_summary_section`. */
  method GenerateSummarySection(s: Settings, changes: seq<FileChange>, info: CommitInfo, stats: DiffStats)
    returns (text: string)
    ensures text == Join(SummaryLines(s, changes, info, stats), "\n")
  {
    var added := WithStatus(changes, "A");
    var modified := WithStatus(changes, "M");
    var deleted := WithStatus(changes, "D");
    var renamed := WithStatus(changes, "R");
    var summary := TitleLines(info);
    summary := AppendSubsection(summary, "New Files Created", ByPath(added), EntryLine);
    summary := AppendSubsection(summary, "Modified Files", ByPath(modified), EntryLine);
    summary := AppendSubsection(summary, "Deleted Files", ByPath(deleted), EntryLine);
    summary := AppendSubsection(summary, "Renamed Files", ByPath(renamed), RenameEntryLine);
    summary := AppendStats(summary, s, info, stats);
    summary := summary + ["---", ""];
    text := Join(summary, "\n");
  }

  // ---------------------------------------------------------------------
  // What the summary section shows

  /** A level-3 Markdown heading: the line starts with "### ". */
  predicate IsHeading(line: string) {
    |line| >= 4 && line[0] == '#' && line[1] == '#' && line[2] == '#' && line[3] == ' '
  }

  /** The level-3 headings among some lines, in order. */
  function Headings(lines: seq<string>): seq<string> {
    if lines == [] then []
    else (if IsHeading(lines[0]) then [lines[0]] else []) + Headings(lines[1..])
  }

  lemma {:induction false} HeadingsAppend(a: seq<string>, b: seq<string>)
    ensures Headings(a + b) == Headings(a) + Headings(b)
    decreases |a|
  {
    if a != [] {
      var x := if IsHeading(a[0]) then [a[0]] else [];
      assert (a + b)[0] == a[0];
      assert (a + b)[1..] == a[1..] + b;
      assert Headings(a + b) == x + Headings(a[1..] + b);
      HeadingsAppend(a[1..], b);
      assert x + (Headings(a[1..]) + Headings(b)) == (x + Headings(a[1..])) + Headings(b);
    } else {
      assert a + b == b;
    }
  }

  /** Lines none of which is a heading hold no heading. */
  lemma {:induction false} NoHeadings(lines: seq<string>)
    requires forall k :: 0 <= k < |lines| ==> !IsHeading(lines[k])
    ensures Headings(lines) == []
    decreases |lines|
  {
    if lines != [] {
      NoHeadings(lines[1..]);
    }
  }

  /** The heading of a category: present with its count exactly when the
      category has entries. */
  function Shown(title: string, n: nat): seq<string> {
    if n > 0 then [Heading(title, n)] else []
  }

  lemma HeadingIsHeading(title: string, n: nat)
    ensures IsHeading(Heading(title, n))
  {
    assert Heading(title, n) == "### " + (title + " (" + NatToString(n) + " files):");
  }

  /** A line then a blank line. */
  lemma HeadingsPair(h: string)
    ensures Headings([h, ""]) == if IsHeading(h) then [h] else []
  {
    assert [h, ""][1..] == [""];
    BlankHeadings();
  }

  /** A heading, a blank line, lines without headings and a blank line
      hold just that heading. */
  lemma BlockHeadings(h: string, body: seq<string>)
    requires IsHeading(h)
    requires forall k :: 0 <= k < |body| ==> !IsHeading(body[k])
    ensures Headings([h, ""] + body + [""]) == [h]
  {
    var x := [h, ""] + body;
    HeadingsAppend(x, [""]);
    HeadingsAppend([h, ""], body);
    HeadingsPair(h);
    NoHeadings(body);
    BlankHeadings();
    calc {
      Headings(x + [""]);
      Headings(x) + [];
      Headings([h, ""]) + Headings(body) + [];
      [h] + [] + [];
    }
    assert [h] + [] + [] == [h];
  }

  lemma BlankHeadings()
    ensures Headings([""]) == []
  {
    assert [""][1..] == [];
  }

  lemma SubsectionHeadings(title: string, entries: seq<string>)
    requires ListItems(entries)
    ensures Headings(Subsection(title, entries)) == Shown(title, |entries|)
  {
    if entries != [] {
      HeadingIsHeading(title, |entries|);
      BlockHeadings(Heading(title, |entries|), entries);
    }
  }

  lemma StatsHeadings(s: Settings, info: CommitInfo, stats: DiffStats)
    ensures Headings(StatsLines(s, info, stats)) == if stats.files > 0 then ["### Statistics:"] else []
  {
    if stats.files > 0 {
      assert IsHeading("### Statistics:");
      BlockHeadings("### Statistics:", Figures(s, info, stats));
    }
  }

  lemma TitleHeadings(info: CommitInfo)
    ensures Headings(TitleLines(info)) == []
  {
    var t := TitleLines(info);
    forall k | 0 <= k < |t| ensures !IsHeading(t[k]) {
      assert k == 0 ==> t[k][1] == ' ';
      assert k == 4 ==> t[k][2] == ' ';
    }
    NoHeadings(t);
  }
  /** The summary section's headings are, in this order, one per
      non-empty category with that category's size, then "Statistics"
      exactly when the files total is positive. No other heading appears,
      so copies and unknown statuses have no subsection. */
  lemma SummaryHeadings(s: Settings, changes: seq<FileChange>, info: CommitInfo, stats: DiffStats)
    ensures Headings(SummaryLines(s, changes, info, stats))
         == Shown("New Files Created", |WithStatus(changes, "A")|)
          + Shown("Modified Files", |WithStatus(changes, "M")|)
          + Shown("Deleted Files", |WithStatus(changes, "D")|)
          + Shown("Renamed Files", |WithStatus(changes, "R")|)
          + (if stats.files > 0 then ["### Statistics:"] else [])
  {
    SectionHeadings(s, info, stats, AddedEntries(changes), ModifiedEntries(changes),
                    DeletedEntries(changes), RenamedEntries(changes));
  }

  lemma SectionHeadings(s: Settings, info: CommitInfo, stats: DiffStats, a: seq<string>,
                        m: seq<string>, d: seq<string>, r: seq<string>)
    requires ListItems(a) && ListItems(m) && ListItems(d) && ListItems(r)
    ensures Headings(SectionLines(s, info, stats, a, m, d, r))
         == Shown("New Files Created", |a|) + Shown("Modified Files", |m|)
          + Shown("Deleted Files", |d|) + Shown("Renamed Files", |r|)
          + (if stats.files > 0 then ["### Statistics:"] else [])
  {
    var e := ["---", ""];
    TitleHeadings(info);
    NoHeadings(e);
    SubsectionHeadings("New Files Created", a);
    SubsectionHeadings("Modified Files", m);
    SubsectionHeadings("Deleted Files", d);
    SubsectionHeadings("Renamed Files", r);
    StatsHeadings(s, info, stats);
    HeadingsOfParts(TitleLines(info), Subsection("New Files Created", a), Subsection("Modified Files", m),
      Subsection("Deleted Files", d), Subsection("Renamed Files", r), StatsLines(s, info, stats), e,
      Shown("New Files Created", |a|), Shown("Modified Files", |m|),
      Shown("Deleted Files", |d|), Shown("Renamed Files", |r|),
      if stats.files > 0 then ["### Statistics:"] else []);
  }

  lemma HeadingsOfParts(t: seq<string>, a: seq<string>, m: seq<string>, d: seq<string>,
                        r: seq<string>, st: seq<string>, e: seq<string>,
                        ha: seq<string>, hm: seq<string>, hd: seq<string>, hr: seq<string>,
                        hs: seq<string>)
    requires Headings(t) == [] && Headings(e) == []
    requires Headings(a) == ha && Headings(m) == hm && Headings(d) == hd
    requires Headings(r) == hr && Headings(st) == hs
    ensures Headings(t + a + m + d + r + st + e) == ha + hm + hd + hr + hs
  {
    HeadingsAppend(t + a + m + d + r + st, e);
    HeadingsAppend(t + a + m + d + r, st);
    HeadingsAppend(t + a + m + d, r);
    HeadingsAppend(t + a + m, d);
    HeadingsAppend(t + a, m);
    HeadingsAppend(t, a);
    assert [] + ha == ha;
    var x := ha + hm + hd + hr + hs;
    assert x + [] == x;
  }
}
