/** The diff compactor of the branch report (`format_diff_for_markdown`):
    it drops the git preamble of a unified diff, passes hunk headers and
    changed lines through, keeps the first `max` lines of every run of
    context lines, drops the rest of a longer run and closes such a run with
    one marker that gives the run's full length. The result is fenced for
    Markdown with a language tag taken from the file's extension.

    `Compacted` below is the reference definition, by runs; the method
    `FormatDiffForMarkdown` is the source's single-pass state machine and is
    proved to compute it. */
module DiffCompactor {
  import opened Strings
  import opened Paths

  /** The threshold the report uses (the source's default argument). */
  const DefaultMaxUnchanged := 10

  /** Syntax-highlighting tags by lower-cased extension. */
  const LanguageByExtension: map<string, string> := map[
    ".py" := "python", ".js" := "javascript", ".ts" := "typescript",
    ".jsx" := "jsx", ".tsx" := "tsx", ".java" := "java", ".cpp" := "cpp",
    ".c" := "c", ".h" := "c", ".rs" := "rust", ".go" := "go", ".rb" := "ruby",
    ".php" := "php", ".sh" := "bash", ".sql" := "sql", ".md" := "markdown",
    ".yaml" := "yaml", ".yml" := "yaml", ".json" := "json", ".xml" := "xml",
    ".html" := "html", ".css" := "css", ".scss" := "scss", ".tf" := "hcl"]

  /** The fence tag for a path: the table entry for its lower-cased suffix,
      or "" when there is none. */
  function Language(path: string): (r: string)
    ensures r != "" <==> Lower(Suffix(path)) in LanguageByExtension
  {
    var ext := Lower(Suffix(path));
    TagsNonEmpty();
    if ext in LanguageByExtension then LanguageByExtension[ext] else ""
  }

  /** Every tag in the table is a real tag. */
  lemma TagsNonEmpty()
    ensures forall ext | ext in LanguageByExtension :: LanguageByExtension[ext] != ""
  {
  }

  /** `line.startswith('@@')`. */
  predicate IsHunkHeader(line: string) {
    |line| >= 2 && line[0] == '@' && line[1] == '@'
  }

  /** An unchanged line: it starts with a space or a tab. (The source also
      asks that it not start with '+' or '-', which such a line never does.) */
  predicate IsContext(line: string) {
    |line| > 0 && (line[0] == ' ' || line[0] == '\t')
  }

  lemma HunkHeaderNotContext(line: string)
    ensures IsHunkHeader(line) ==> !IsContext(line)
  {
  }

  /** One line of compacted output: an input line shown as it is, or the
      marker standing for a run of `count` unchanged lines. */
  datatype Shown = Kept(line: string) | Elided(count: nat)

  function MarkerText(n: nat): string {
    "... (" + NatToString(n) + " lines unchanged) ..."
  }

  function Text(s: Shown): string {
    match s
    case Kept(line) => line
    case Elided(n) => MarkerText(n)
  }

  /** The output lines of a sequence of shown items. */
  function Render(s: seq<Shown>): (r: seq<string>)
    ensures |r| == |s|
  {
    if s == [] then [] else [Text(s[0])] + Render(s[1..])
  }

  /** Lines shown as they are. */
  function Verbatim(lines: seq<string>): (r: seq<Shown>)
    ensures |r| == |lines|
  {
    if lines == [] then [] else [Kept(lines[0])] + Verbatim(lines[1..])
  }

  /** The number of context lines at the start of `lines`. */
  function ContextRun(lines: seq<string>): (k: nat)
    ensures k <= |lines|
    ensures |lines| > 0 && IsContext(lines[0]) ==> k > 0
  {
    if lines == [] || !IsContext(lines[0]) then 0 else 1 + ContextRun(lines[1..])
  }

  /** The leading run is all context lines and is maximal. */
  lemma {:induction false} ContextRunSpec(lines: seq<string>)
    ensures forall i :: 0 <= i < ContextRun(lines) ==> IsContext(lines[i])
    ensures ContextRun(lines) < |lines| ==> !IsContext(lines[ContextRun(lines)])
  {
    if lines != [] && IsContext(lines[0]) {
      ContextRunSpec(lines[1..]);
    }
  }

  /** How many lines of a run of `k` context lines are shown. */
  function ShownCount(k: nat, max: int): nat {
    if max <= 0 then 0 else if k <= max then k else max
  }

  /** The marker closing a run of `k` context lines: one, exactly when the
      run is longer than the threshold. */
  function Marker(k: nat, max: int): seq<Shown> {
    if k > 0 && k > max then [Elided(k)] else []
  }

  /** The shown part of a run of context lines: its first lines, verbatim. */
  function KeptOfRun(run: seq<string>, max: int): seq<Shown> {
    Verbatim(run[..ShownCount(|run|, max)])
  }

  /** What a whole run of context lines becomes. */
  function RunShown(run: seq<string>, max: int): seq<Shown> {
    KeptOfRun(run, max) + Marker(|run|, max)
  }

  /** Reference definition of the compaction of a diff body, run by run. */
  function Compacted(lines: seq<string>, max: int): seq<Shown>
    decreases |lines|
  {
    if lines == [] then []
    else if !IsContext(lines[0]) then [Kept(lines[0])] + Compacted(lines[1..], max)
    else
      var k := ContextRun(lines);
      RunShown(lines[..k], max) + Compacted(lines[k..], max)
  }

  /** The first hunk header of a diff. */
  function FirstHunkFrom(lines: seq<string>, from: nat): (r: Option<nat>)
    decreases |lines| - from
    ensures r.Some? ==> from <= r.value < |lines| && IsHunkHeader(lines[r.value])
    ensures r.Some? ==> forall i :: from <= i < r.value ==> !IsHunkHeader(lines[i])
    ensures r.None? ==> forall i :: from <= i < |lines| ==> !IsHunkHeader(lines[i])
  {
    if from >= |lines| then None
    else if IsHunkHeader(lines[from]) then Some(from)
    else FirstHunkFrom(lines, from + 1)
  }

  function Fence(lang: string, body: string): string {
    "```" + lang + "\n" + body + "\n```"
  }

  /** What `format_diff_for_markdown` returns. */
  function FormattedDiff(diff: string, path: string, max: int): string {
    if diff == "" then ""
    else
      var lines := SplitOn(diff, "\n");
      match FirstHunkFrom(lines, 0)
      case None => ""
      case Some(start) =>
        if start == 0 then ""
        else Fence(Language(path), Join(Render(Compacted(lines[start..], max)), "\n"))
  }

  /** The formatted diff is empty exactly when the diff is empty, has no
      hunk header, or starts with one; otherwise it is fenced. */
  lemma FormattedEmptyExactly(diff: string, path: string, max: int)
    ensures FormattedDiff(diff, path, max) == "" <==> diff == "" || NoBody(SplitOn(diff, "\n"))
    ensures FormattedDiff(diff, path, max) != "" ==> StartsWith(FormattedDiff(diff, path, max), "```" + Language(path) + "\n")
  {
    if diff != "" {
      var lines := SplitOn(diff, "\n");
      match FirstHunkFrom(lines, 0)
      case None =>
      case Some(start) =>
        if start != 0 {
          FenceStarts(Language(path), Join(Render(Compacted(lines[start..], max)), "\n"));
        }
    }
  }

  /** No line is a hunk header, or the first one is. */
  predicate NoBody(lines: seq<string>)
    requires |lines| > 0
  {
    (forall i :: 0 <= i < |lines| ==> !IsHunkHeader(lines[i])) || IsHunkHeader(lines[0])
  }

  lemma FenceStarts(lang: string, body: string)
    ensures Fence(lang, body) != "" && StartsWith(Fence(lang, body), "```" + lang + "\n")
  {
    assert Fence(lang, body) == ("```" + lang + "\n") + (body + "\n```");
  }

  // ---------------------------------------------------------------------
  // The single-pass implementation

  method FormatDiffForMarkdown(diffOutput: string, filepath: string, maxUnchanged: int)
    returns (r: string)
    ensures r == FormattedDiff(diffOutput, filepath, maxUnchanged)
  {
    if diffOutput == "" {
      return "";
    }
    var lines := SplitOn(diffOutput, "\n");

    // Skip the git preamble: find the first hunk header.
    var i := 0;
    while i < |lines| && !IsHunkHeader(lines[i])
      invariant 0 <= i <= |lines|
      invariant forall t :: 0 <= t < i ==> !IsHunkHeader(lines[t])
    {
      i := i + 1;
    }
    var contentStart := if i < |lines| then i else 0;
    if contentStart == 0 {
      return "";
    }
    assert FirstHunkFrom(lines, 0) == Some(contentStart);

    var language := Language(filepath);
    var resultLines := CompactLines(lines[contentStart..], maxUnchanged);
    var diffContent := Join(resultLines, "\n");
    r := "```" + language + "\n" + diffContent + "\n```";
  }

  /** The loop of `format_diff_for_markdown` over the diff body: two
      counters, `unchangedCount` (the length of the current run of context
      lines) and `inUnchangedSection` (whether that run has passed the
      threshold). */
  method CompactLines(body: seq<string>, maxUnchanged: int) returns (resultLines: seq<string>)
    ensures resultLines == Render(Compacted(body, maxUnchanged))
  {
    resultLines := [];
    var unchangedCount: nat := 0;
    var inUnchangedSection := false;
    var j := 0;
    ghost var target := Pass(body, 0, maxUnchanged);
    while j < |body|
      invariant j <= |body|
      invariant inUnchangedSection == (unchangedCount > 0 && unchangedCount > maxUnchanged)
      invariant resultLines + Pass(body[j..], unchangedCount, maxUnchanged) == target
    {
      var line := body[j];
      ghost var rest := body[j + 1..];
      ghost var before := resultLines;
      ghost var open := unchangedCount;
      assert body[j..] == [line] + rest;
      if IsHunkHeader(line) || !IsContext(line) {
        // A hunk header or a changed line closes the current run.
        HunkHeaderNotContext(line);
        if unchangedCount > maxUnchanged && inUnchangedSection {
          resultLines := resultLines + [MarkerText(unchangedCount)];
        }
        unchangedCount := 0;
        inUnchangedSection := false;
        resultLines := resultLines + [line];
        assert resultLines == before + MarkerLines(open, maxUnchanged) + [line];
        StepChanged(before, line, rest, open, maxUnchanged, target);
      } else {
        unchangedCount := unchangedCount + 1;
        if unchangedCount <= maxUnchanged {
          resultLines := resultLines + [line];
        } else {
          inUnchangedSection := true;
        }
        assert resultLines == before + (if open + 1 <= maxUnchanged then [line] else []);
        StepContext(before, line, rest, open, maxUnchanged, target);
      }
      j := j + 1;
    }
    // A run still open at the end of the diff is closed here.
    assert body[j..] == [];
    if unchangedCount > maxUnchanged && inUnchangedSection {
      resultLines := resultLines + [MarkerText(unchangedCount)];
    }
    PassIsCompacted(body, maxUnchanged);
  }

  /** One changed line of the loop in `CompactLines`. */
  lemma StepChanged(before: seq<string>, line: string, rest: seq<string>, open: nat, max: int, target: seq<string>)
    requires !IsContext(line)
    requires before + Pass([line] + rest, open, max) == target
    ensures before + MarkerLines(open, max) + [line] + Pass(rest, 0, max) == target
  {
    PassChanged(line, rest, open, max);
    AppendAssoc(before, MarkerLines(open, max) + [line], Pass(rest, 0, max));
    AppendAssoc(before, MarkerLines(open, max), [line]);
  }

  /** One context line of the loop in `CompactLines`. */
  lemma StepContext(before: seq<string>, line: string, rest: seq<string>, open: nat, max: int, target: seq<string>)
    requires IsContext(line)
    requires before + Pass([line] + rest, open, max) == target
    ensures before + (if open + 1 <= max then [line] else []) + Pass(rest, open + 1, max) == target
  {
    PassContext(line, rest, open, max);
    AppendAssoc(before, if open + 1 <= max then [line] else [], Pass(rest, open + 1, max));
  }

  /** The output lines of a marker. */
  function MarkerLines(k: nat, max: int): seq<string> {
    if k > 0 && k > max then [MarkerText(k)] else []
  }

  /** What the single pass emits for the lines `rest` when `open` context
      lines are pending before them: a changed line closes the pending run
      (with a marker when it was long) and is shown; a context line is shown
      while its run is within the threshold; the end closes the run. */
  function Pass(rest: seq<string>, open: nat, max: int): seq<string>
    decreases |rest|
  {
    if rest == [] then MarkerLines(open, max)
    else if !IsContext(rest[0]) then MarkerLines(open, max) + [rest[0]] + Pass(rest[1..], 0, max)
    else (if open + 1 <= max then [rest[0]] else []) + Pass(rest[1..], open + 1, max)
  }

  lemma PassChanged(line: string, rest: seq<string>, open: nat, max: int)
    requires !IsContext(line)
    ensures Pass([line] + rest, open, max) == MarkerLines(open, max) + [line] + Pass(rest, 0, max)
  {
    assert ([line] + rest)[1..] == rest;
  }

  lemma PassContext(line: string, rest: seq<string>, open: nat, max: int)
    requires IsContext(line)
    ensures Pass([line] + rest, open, max)
         == (if open + 1 <= max then [line] else []) + Pass(rest, open + 1, max)
  {
    assert ([line] + rest)[1..] == rest;
  }

  /** Over a run of context lines the pass shows the lines that fit under
      the threshold and carries the run's length forward. */
  lemma {:induction false} PassOverRun(run: seq<string>, after: seq<string>, open: nat, max: int)
    requires forall i :: 0 <= i < |run| ==> IsContext(run[i])
    ensures Pass(run + after, open, max)
         == run[..ShownCount(|run|, max - open)] + Pass(after, open + |run|, max)
    decreases |run|
  {
    if run == [] {
      assert run + after == after;
    } else {
      var line, tail := run[0], run[1..];
      var shown := if open + 1 <= max then [line] else [];
      assert run + after == [line] + (tail + after);
      PassContext(line, tail + after, open, max);
      PassOverRun(tail, after, open + 1, max);
      AppendAssoc(shown, tail[..ShownCount(|tail|, max - (open + 1))], Pass(after, open + |run|, max));
      assert shown + tail[..ShownCount(|tail|, max - (open + 1))] == run[..ShownCount(|run|, max - open)];
    }
  }

  /** A pending run is closed before a changed line or at the end. */
  lemma PassAfterRun(after: seq<string>, open: nat, max: int)
    requires after == [] || !IsContext(after[0])
    ensures Pass(after, open, max) == MarkerLines(open, max) + Pass(after, 0, max)
  {
    if after == [] {
      assert MarkerLines(0, max) == [];
      assert MarkerLines(open, max) + [] == MarkerLines(open, max);
    } else {
      var line, rest := after[0], after[1..];
      assert after == [line] + rest;
      PassChanged(line, rest, open, max);
      PassChanged(line, rest, 0, max);
      assert MarkerLines(0, max) == [];
      assert [] + [line] == [line];
      AppendAssoc(MarkerLines(open, max), [line], Pass(rest, 0, max));
    }
  }

  /** The single pass computes the run-by-run compaction. */
  lemma {:induction false} PassIsCompacted(lines: seq<string>, max: int)
    ensures Pass(lines, 0, max) == Render(Compacted(lines, max))
    decreases |lines|
  {
    if lines == [] {
    } else if !IsContext(lines[0]) {
      var line, rest := lines[0], lines[1..];
      assert lines == [line] + rest;
      PassChanged(line, rest, 0, max);
      CompactedCons(line, rest, max);
      RenderAppend([Kept(line)], Compacted(rest, max));
      RenderKept(line);
      PassIsCompacted(rest, max);
    } else {
      var k := ContextRun(lines);
      ContextRunSpec(lines);
      var run, after := lines[..k], lines[k..];
      var shownRun := run[..ShownCount(k, max)];
      assert lines == run + after;
      assert after == [] || !IsContext(after[0]);
      PassOverRun(run, after, 0, max);
      PassAfterRun(after, k, max);
      PassIsCompacted(after, max);
      CompactedLeadingRun(run, after, max);
      RenderAppend(Verbatim(shownRun) + Marker(k, max), Compacted(after, max));
      RenderAppend(Verbatim(shownRun), Marker(k, max));
      RenderVerbatim(shownRun);
      RenderMarker(k, max);
      AppendAssoc(shownRun, MarkerLines(k, max), Render(Compacted(after, max)));
    }
  }

  lemma CompactedSingle(line: string, max: int)
    requires !IsContext(line)
    ensures Compacted([line], max) == [Kept(line)]
  {
    assert [line][1..] == [];
  }

  lemma RenderKept(line: string)
    ensures Render([Kept(line)]) == [line]
  {
    assert [Kept(line)][1..] == [];
  }

  lemma RenderMarker(k: nat, max: int)
    ensures Render(Marker(k, max)) == MarkerLines(k, max)
  {
    if k > 0 && k > max {
      assert [Elided(k)][1..] == [];
    }
  }

  lemma {:induction false} RenderAppend(a: seq<Shown>, b: seq<Shown>)
    ensures Render(a + b) == Render(a) + Render(b)
  {
    if a == [] {
      assert a + b == b;
    } else {
      assert a + b == [a[0]] + (a[1..] + b);
      RenderAppend(a[1..], b);
      AppendAssoc([Text(a[0])], Render(a[1..]), Render(b));
    }
  }

  lemma {:induction false} VerbatimAppend(a: seq<string>, b: seq<string>)
    ensures Verbatim(a + b) == Verbatim(a) + Verbatim(b)
  {
    if a == [] {
      assert a + b == b;
    } else {
      assert a + b == [a[0]] + (a[1..] + b);
      VerbatimAppend(a[1..], b);
      AppendAssoc([Kept(a[0])], Verbatim(a[1..]), Verbatim(b));
    }
  }

  lemma {:induction false} VerbatimIndex(lines: seq<string>, i: nat)
    requires i < |lines|
    ensures Verbatim(lines)[i] == Kept(lines[i])
  {
    if i > 0 {
      VerbatimIndex(lines[1..], i - 1);
    }
  }

  // ---------------------------------------------------------------------
  // Structure of the reference definition

  /** The leading run is the only length with the characterising properties. */
  lemma {:induction false} ContextRunUnique(lines: seq<string>, k: nat)
    requires k <= |lines|
    requires forall i :: 0 <= i < k ==> IsContext(lines[i])
    requires k < |lines| ==> !IsContext(lines[k])
    ensures ContextRun(lines) == k
  {
    if k > 0 {
      ContextRunUnique(lines[1..], k - 1);
    }
  }

  /** Concatenation regrouped (the shapes the proofs below need). */
  /** Compaction splits at any point that follows a non-context line. */
  lemma {:induction false} CompactedAppend(a: seq<string>, b: seq<string>, max: int)
    requires a == [] || !IsContext(a[|a| - 1])
    ensures Compacted(a + b, max) == Compacted(a, max) + Compacted(b, max)
    decreases |a|
  {
    if a == [] {
      assert a + b == b;
    } else if !IsContext(a[0]) {
      var line, rest := a[0], a[1..];
      assert a == [line] + rest;
      assert a + b == [line] + (rest + b);
      assert rest == [] || rest[|rest| - 1] == a[|a| - 1];
      CompactedCons(line, rest, max);
      CompactedCons(line, rest + b, max);
      CompactedAppend(rest, b, max);
      AppendAssoc([Kept(line)], Compacted(rest, max), Compacted(b, max));
    } else {
      var k := ContextRun(a);
      ContextRunSpec(a);
      var run, rest := a[..k], a[k..];
      assert a == run + rest;
      assert a + b == run + (rest + b);
      assert rest[0] == a[k] && rest[|rest| - 1] == a[|a| - 1];
      CompactedLeadingRun(run, rest, max);
      CompactedLeadingRun(run, rest + b, max);
      CompactedAppend(rest, b, max);
      AppendAssoc(RunShown(run, max), Compacted(rest, max), Compacted(b, max));
    }
  }

  /** A changed line is shown and the rest compacted after it. */
  lemma CompactedCons(line: string, rest: seq<string>, max: int)
    requires !IsContext(line)
    ensures Compacted([line] + rest, max) == [Kept(line)] + Compacted(rest, max)
  {
    assert ([line] + rest)[1..] == rest;
  }

  /** A leading run of context lines is compacted on its own. */
  lemma CompactedLeadingRun(run: seq<string>, after: seq<string>, max: int)
    requires forall i :: 0 <= i < |run| ==> IsContext(run[i])
    requires after == [] || !IsContext(after[0])
    ensures Compacted(run + after, max) == RunShown(run, max) + Compacted(after, max)
  {
    var lines := run + after;
    if run == [] {
      assert lines == after;
      assert RunShown(run, max) == [];
    } else {
      ContextRunUnique(lines, |run|);
      assert lines[..|run|] == run;
      assert lines[|run|..] == after;
    }
  }

  /** Every maximal run of context lines, wherever it sits in the diff body,
      becomes its first `max` lines followed by one marker when it is longer
      than `max`; what comes before and after it is compacted independently. */
  lemma RunInContext(before: seq<string>, run: seq<string>, after: seq<string>, max: int)
    requires before == [] || !IsContext(before[|before| - 1])
    requires forall i :: 0 <= i < |run| ==> IsContext(run[i])
    requires after == [] || !IsContext(after[0])
    ensures Compacted(before + run + after, max)
         == Compacted(before, max) + KeptOfRun(run, max) + Marker(|run|, max) + Compacted(after, max)
  {
    var tail := run + after;
    assert before + run + after == before + tail;
    CompactedAppend(before, tail, max);
    CompactedLeadingRun(run, after, max);
    AppendAssoc(Compacted(before, max), KeptOfRun(run, max) + Marker(|run|, max), Compacted(after, max));
    AppendAssoc(Compacted(before, max), KeptOfRun(run, max), Marker(|run|, max));
  }

  /** A hunk made of a header, one run of context lines and a changed line:
      a run of at most `max` lines is shown whole and unmarked; a longer run
      shows its first `max` lines and then one marker with its full length. */
  lemma SingleRunHunk(header: string, run: seq<string>, changed: string, max: nat)
    requires IsHunkHeader(header) && !IsContext(changed)
    requires forall i :: 0 <= i < |run| ==> IsContext(run[i])
    ensures |run| <= max ==>
      Render(Compacted([header] + run + [changed], max)) == [header] + run + [changed]
    ensures |run| > max ==>
      Render(Compacted([header] + run + [changed], max))
        == [header] + run[..max] + [MarkerText(|run|)] + [changed]
  {
    var kept := KeptOfRun(run, max);
    var marker := Marker(|run|, max);
    var shownRun := run[..ShownCount(|run|, max)];
    var out := Render(Compacted([header] + run + [changed], max));
    assert Compacted([header] + run + [changed], max) == [Kept(header)] + kept + marker + [Kept(changed)] by {
      HunkHeaderNotContext(header);
      RunInContext([header], run, [changed], max);
      CompactedSingle(header, max);
      CompactedSingle(changed, max);
    }
    assert out == [header] + shownRun + MarkerLines(|run|, max) + [changed] by {
      RenderAppend([Kept(header)] + kept + marker, [Kept(changed)]);
      RenderAppend([Kept(header)] + kept, marker);
      RenderAppend([Kept(header)], kept);
      RenderVerbatim(shownRun);
      RenderKept(header);
      RenderKept(changed);
      RenderMarker(|run|, max);
    }
    if |run| <= max {
      assert shownRun == run;
      assert MarkerLines(|run|, max) == [];
      assert [header] + run + [] == [header] + run;
    } else {
      assert shownRun == run[..max];
    }
  }

  // ---------------------------------------------------------------------
  // What compaction preserves

  /** The lines of a diff body that are not context lines: hunk headers,
      added and removed lines, and anything else git prints there. */
  function Changed(lines: seq<string>): seq<string> {
    if lines == [] then [] else ChangedLine(lines[0]) + Changed(lines[1..])
  }

  function ChangedLine(line: string): seq<string> {
    if IsContext(line) then [] else [line]
  }

  /** The shown input lines that are not context lines (markers excluded). */
  function KeptChanged(shown: seq<Shown>): seq<string> {
    if shown == [] then [] else KeptChangedItem(shown[0]) + KeptChanged(shown[1..])
  }

  function KeptChangedItem(item: Shown): seq<string> {
    if item.Kept? && !IsContext(item.line) then [item.line] else []
  }

  lemma {:induction false} ChangedAppend(a: seq<string>, b: seq<string>)
    ensures Changed(a + b) == Changed(a) + Changed(b)
  {
    if a != [] {
      assert a + b == [a[0]] + (a[1..] + b);
      ChangedAppend(a[1..], b);
      AppendAssoc(ChangedLine(a[0]), Changed(a[1..]), Changed(b));
    } else {
      assert a + b == b;
    }
  }

  lemma {:induction false} KeptChangedAppend(a: seq<Shown>, b: seq<Shown>)
    ensures KeptChanged(a + b) == KeptChanged(a) + KeptChanged(b)
  {
    if a != [] {
      assert a + b == [a[0]] + (a[1..] + b);
      KeptChangedAppend(a[1..], b);
      AppendAssoc(KeptChangedItem(a[0]), KeptChanged(a[1..]), KeptChanged(b));
    } else {
      assert a + b == b;
    }
  }

  lemma {:induction false} NoChangedInRun(run: seq<string>, max: int)
    requires forall i :: 0 <= i < |run| ==> IsContext(run[i])
    ensures Changed(run) == []
    ensures KeptChanged(Verbatim(run)) == []
  {
    if run != [] {
      NoChangedInRun(run[1..], max);
      assert Verbatim(run)[1..] == Verbatim(run[1..]);
    }
  }

  /** Every hunk header and every changed line of the body appears in the
      compacted output, unaltered and in the original order, and no other
      input line that is not a context line does. */
  lemma {:induction false} ChangedLinesPreserved(lines: seq<string>, max: int)
    ensures KeptChanged(Compacted(lines, max)) == Changed(lines)
    decreases |lines|
  {
    if lines == [] {
    } else if !IsContext(lines[0]) {
      var line, rest := lines[0], lines[1..];
      assert lines == [line] + rest;
      CompactedCons(line, rest, max);
      KeptChangedAppend([Kept(line)], Compacted(rest, max));
      assert KeptChanged([Kept(line)]) == [line] by {
        assert [Kept(line)][1..] == [];
      }
      ChangedLinesPreserved(rest, max);
    } else {
      var k := ContextRun(lines);
      ContextRunSpec(lines);
      var run, rest := lines[..k], lines[k..];
      var shownRun := run[..ShownCount(k, max)];
      assert lines == run + rest;
      assert rest == [] || !IsContext(rest[0]);
      CompactedLeadingRun(run, rest, max);
      NoChangedInRun(shownRun, max);
      NoChangedInRun(run, max);
      assert KeptChanged(Marker(k, max)) == [] by {
        assert [Elided(k)][1..] == [];
      }
      KeptChangedAppend(Verbatim(shownRun), Marker(k, max));
      KeptChangedAppend(RunShown(run, max), Compacted(rest, max));
      ChangedAppend(run, rest);
      ChangedLinesPreserved(rest, max);
    }
  }

  /** A marker is only ever emitted for a run longer than the threshold. */
  lemma {:induction false} MarkersOnlyForLongRuns(lines: seq<string>, max: int, i: nat)
    requires i < |Compacted(lines, max)| && Compacted(lines, max)[i].Elided?
    ensures Compacted(lines, max)[i].count > 0 && Compacted(lines, max)[i].count > max
    decreases |lines|
  {
    if !IsContext(lines[0]) {
      MarkersOnlyForLongRuns(lines[1..], max, i - 1);
    } else {
      var k := ContextRun(lines);
      var shownRun := lines[..k][..ShownCount(k, max)];
      var head := RunShown(lines[..k], max);
      if i >= |head| {
        MarkersOnlyForLongRuns(lines[k..], max, i - |head|);
      } else if i < |shownRun| {
        VerbatimIndex(shownRun, i);
      }
    }
  }

  // ---------------------------------------------------------------------
  // Compacting a compacted body changes nothing

  lemma {:induction false} RenderVerbatim(lines: seq<string>)
    ensures Render(Verbatim(lines)) == lines
  {
    if lines != [] {
      RenderVerbatim(lines[1..]);
    }
  }

  /** The marker line starts with '.', so it is never a context line. */
  lemma MarkerNotContext(k: nat)
    ensures !IsContext(MarkerText(k))
  {
    assert MarkerText(k)[0] == '.';
  }

  /** No run of context lines in `lines` reaches past the threshold, when
      `open` context lines are pending before them. */
  predicate ShortRuns(lines: seq<string>, open: nat, max: int)
    decreases |lines|
  {
    lines == []
    || (if !IsContext(lines[0]) then ShortRuns(lines[1..], 0, max)
        else open + 1 <= max && ShortRuns(lines[1..], open + 1, max))
  }

  /** The pass leaves lines without long runs as they are. */
  lemma {:induction false} PassKeepsShortRuns(lines: seq<string>, open: nat, max: int)
    requires ShortRuns(lines, open, max) && (open == 0 || open <= max)
    ensures Pass(lines, open, max) == lines
    decreases |lines|
  {
    if lines != [] {
      var line, rest := lines[0], lines[1..];
      assert lines == [line] + rest;
      if !IsContext(line) {
        PassChanged(line, rest, open, max);
        PassKeepsShortRuns(rest, 0, max);
        assert MarkerLines(open, max) == [];
      } else {
        PassContext(line, rest, open, max);
        PassKeepsShortRuns(rest, open + 1, max);
      }
    }
  }

  lemma ShortRunsChanged(line: string, rest: seq<string>, open: nat, max: int)
    requires !IsContext(line)
    ensures ShortRuns([line] + rest, open, max) == ShortRuns(rest, 0, max)
  {
    assert ([line] + rest)[1..] == rest;
  }

  lemma ShortRunsContext(line: string, rest: seq<string>, open: nat, max: int)
    requires IsContext(line)
    ensures ShortRuns([line] + rest, open, max) == (open + 1 <= max && ShortRuns(rest, open + 1, max))
  {
    assert ([line] + rest)[1..] == rest;
  }

  /** The pass emits no run longer than the threshold: of a pending run it
      has shown `ShownCount(open, max)` lines. */
  lemma {:induction false} PassMakesShortRuns(lines: seq<string>, open: nat, max: int)
    ensures ShortRuns(Pass(lines, open, max), ShownCount(open, max), max)
    decreases |lines|
  {
    if lines == [] {
      if open > 0 && open > max {
        MarkerNotContext(open);
        ShortRunsChanged(MarkerText(open), [], ShownCount(open, max), max);
        assert [MarkerText(open)] + [] == [MarkerText(open)];
      }
    } else {
      var line, rest := lines[0], lines[1..];
      assert lines == [line] + rest;
      if !IsContext(line) {
        PassChanged(line, rest, open, max);
        PassMakesShortRuns(rest, 0, max);
        ShortAfterChangedLine(line, Pass(rest, 0, max), open, max);
      } else {
        PassContext(line, rest, open, max);
        PassMakesShortRuns(rest, open + 1, max);
        ShortAfterContextLine(line, Pass(rest, open + 1, max), open, max);
      }
    }
  }

  lemma ShortAfterChangedLine(line: string, out: seq<string>, open: nat, max: int)
    requires !IsContext(line) && ShortRuns(out, 0, max)
    ensures ShortRuns(MarkerLines(open, max) + [line] + out, ShownCount(open, max), max)
  {
    var e := ShownCount(open, max);
    ShortRunsChanged(line, out, 0, max);
    ShortRunsChanged(line, out, e, max);
    if open > 0 && open > max {
      var m := MarkerText(open);
      MarkerNotContext(open);
      assert [m] + [line] + out == [m] + ([line] + out);
      ShortRunsChanged(m, [line] + out, e, max);
    } else {
      assert MarkerLines(open, max) + [line] + out == [line] + out;
    }
  }

  lemma ShortAfterContextLine(line: string, out: seq<string>, open: nat, max: int)
    requires IsContext(line) && ShortRuns(out, ShownCount(open + 1, max), max)
    ensures ShortRuns((if open + 1 <= max then [line] else []) + out, ShownCount(open, max), max)
  {
    if open + 1 <= max {
      ShortRunsContext(line, out, open, max);
    } else {
      assert [] + out == out;
    }
  }

  /** Formatting a compacted body a second time changes nothing: the
      compacted body has no run longer than the threshold, and its markers
      are not context lines. */
  lemma CompactionIdempotent(lines: seq<string>, max: int)
    ensures Render(Compacted(Render(Compacted(lines, max)), max)) == Render(Compacted(lines, max))
  {
    var out := Render(Compacted(lines, max));
    PassIsCompacted(lines, max);
    PassIsCompacted(out, max);
    PassMakesShortRuns(lines, 0, max);
    PassKeepsShortRuns(out, 0, max);
  }
}
