/** The PR summary generator (`PRSummaryGenerator` in pr2md_a.py): it lists
    the changes between two revisions with `git diff --name-status`, filters
    them by exclude patterns and an optional extension allow-list, and
    assembles a Markdown summary: a summary section (files by kind and the
    `--stat` totals), the full content of new files, the diffs of modified
    files, the deletions and renames, and a technical-summary placeholder.

    Every git command is represented by its outcome (`GitResult`), supplied
    by the caller in a `Repo` value. */
module PrSummary {
  import opened Strings
  import opened Paths
  import opened Sorting

  // ---------------------------------------------------------------------
  // Data

  /** One changed path (the source's `FileChange`); `oldPath` is set for
      renames and copies. */
  datatype FileChange = FileChange(status: string, path: string, oldPath: Option<string>)

  /** The outcome of one git command: its trimmed standard output, or the
      `GitError` raised for a failing exit status. */
  datatype GitResult = Output(text: string) | GitError

  /** Why `generate_summary` stops without a document: a `GitError` from the
      change listing, or an `IndexError` from a name-status line with too few
      fields. */
  datatype Failure = GitFailed | MissingField

  datatype Result<T> = Ok(value: T) | Err(failure: Failure)

  /** What `_get_commit_info` returns: the abbreviated commits and the
      current branch, or the error entry when a `git rev-parse` failed. */
  datatype CommitInfo = Refs(baseCommit: string, currentCommit: string, currentBranch: string) | InfoError

  /** The outcomes of the git commands the generator runs for one pair of
      revisions. The per-path commands are functions of the path. */
  datatype Repo = Repo(
    nameStatus: GitResult,                        // git diff --name-status base...current
    stat: GitResult,                              // git diff --stat base...current
    commitInfo: CommitInfo,
    numstat: string -> GitResult,                 // git diff --numstat current^ current -- path
    show: string -> GitResult,                    // git show current:path
    diff: (string, Option<string>) -> GitResult)  // git diff --unified=N base...current -- [old] path

  /** The generator's configuration, as its constructor stores it. */
  datatype Settings = Settings(
    baseRef: string,
    currentRef: string,
    maxFileSize: int,
    contextLines: int,
    includeExtensions: set<string>,
    excludePatterns: set<string>)

  /** The exclude patterns used when none are given. */
  const DefaultExcludePatterns: set<string> := {
    "__pycache__", "*.pyc", "*.pyo", ".git", "node_modules", "*.min.js",
    "*.bundle.js", ".env", ".env.*", "uv.lock", "*.lock", "*.jpg", "*.jpeg",
    "*.png", "*.gif", "*.ico", "*.svg", "*.woff", "*.woff2", "*.ttf", "*.eot",
    "*.pdf", "*.zip", "*.tar.gz", "*.exe", "*.dll", "*.so"}

  /** The constructor: a missing or empty allow-list means "no allow-list",
      and a missing or empty set of exclude patterns means the defaults. */
  function NewSettings(baseRef: string, currentRef: string, maxFileSize: int, contextLines: int,
                       allowList: Option<set<string>>, exclude: Option<set<string>>): (s: Settings)
    ensures s.excludePatterns != {}
    ensures (exclude.None? || exclude.value == {}) ==> s.excludePatterns == DefaultExcludePatterns
    ensures exclude.Some? && exclude.value != {} ==> s.excludePatterns == exclude.value
    ensures allowList.Some? ==> s.includeExtensions == allowList.value
    ensures allowList.None? ==> s.includeExtensions == {}
  {
    var patterns := if exclude.Some? && exclude.value != {} then exclude.value else DefaultExcludePatterns;
    assert "__pycache__" in DefaultExcludePatterns;
    Settings(baseRef, currentRef, maxFileSize, contextLines,
             if allowList.Some? then allowList.value else {}, patterns)
  }

  // ---------------------------------------------------------------------
  // Filtering

  /** One exclude pattern against a path: a pattern starting with '*'
      matches a path ending with the rest of the pattern; any other pattern
      matches a path that contains it. */
  predicate PatternMatches(pattern: string, path: string) {
    if StartsWith(pattern, "*") then EndsWith(path, pattern[1..]) else Contains(path, pattern)
  }

  predicate Excluded(patterns: set<string>, path: string) {
    exists p | p in patterns :: PatternMatches(p, path)
  }

  /** Whether a path is reported: no exclude pattern matches it and, when
      an allow-list is configured, its (case-sensitive) suffix is on it. */
  predicate Included(s: Settings, path: string) {
    !Excluded(s.excludePatterns, path)
    && (s.includeExtensions == {} || Suffix(path) in s.includeExtensions)
  }

  /** `_should_include_file`: the loop over the exclude patterns returns
      early at the first match. */
  method ShouldIncludeFile(s: Settings, filePath: string) returns (r: bool)
    ensures r == Included(s, filePath)
    ensures Excluded(s.excludePatterns, filePath) ==> !r
    ensures !Excluded(s.excludePatterns, filePath) && s.includeExtensions == {} ==> r
  {
    var remaining := s.excludePatterns;
    while remaining != {}
      invariant remaining <= s.excludePatterns
      invariant forall p | p in s.excludePatterns && p !in remaining :: !PatternMatches(p, filePath)
      decreases |remaining|
    {
      var pattern :| pattern in remaining;
      if StartsWith(pattern, "*") {
        if EndsWith(filePath, pattern[1..]) {
          return false;
        }
      } else if Contains(filePath, pattern) {
        return false;
      }
      remaining := remaining - {pattern};
    }
    if s.includeExtensions != {} {
      return Suffix(filePath) in s.includeExtensions;
    }
    return true;
  }

  /** The changes whose new path is included, in their original order. */
  function IncludedChanges(s: Settings, changes: seq<FileChange>): (r: seq<FileChange>)
    ensures forall c :: c in r <==> c in changes && Included(s, c.path)
    ensures |r| <= |changes|
  {
    if changes == [] then []
    else if Included(s, changes[0].path) then [changes[0]] + IncludedChanges(s, changes[1..])
    else IncludedChanges(s, changes[1..])
  }

  // ---------------------------------------------------------------------
  // Binary detection

  /** Extensions treated as binary without asking git. */
  const BinaryExtensions: set<string> := {
    ".jpg", ".jpeg", ".png", ".gif", ".ico", ".svg", ".bmp", ".woff", ".woff2",
    ".ttf", ".eot", ".otf", ".pdf", ".zip", ".tar", ".gz", ".rar", ".7z", ".exe",
    ".dll", ".so", ".dylib", ".a", ".lib", ".mp3", ".mp4", ".avi", ".mov", ".wav",
    ".lock"}

  /** The text before the first tab (`line.split("\t")[0]`). */
  function FirstField(line: string): string {
    SplitOn(line, "\t")[0]
  }

  /** The first field is "-" exactly when the line is "-" or begins with "-"
      and a tab, which is how numstat reports a binary file. */
  lemma FirstFieldIsDash(line: string)
    ensures FirstField(line) == "-" <==> line == "-" || StartsWith(line, "-\t")
  {
    match IndexOf(line, "\t")
    case None =>
      assert FirstField(line) == line;
      if StartsWith(line, "-\t") {
        assert OccursAt(line, "\t", 1);
      }
    case Some(i) =>
      assert FirstField(line) == line[..i];
      assert line[i] == '\t';
      if StartsWith(line, "-\t") {
        assert OccursAt(line, "\t", 1);
        assert !OccursAt(line, "\t", 0);
        assert i == 1;
      }
      if line[..i] == "-" {
        assert line[..2] == "-\t";
      }
  }

  /** `_is_binary_file` at the current revision, given the outcomes of the
      numstat and show commands for the path: the extension, then the
      numstat sentinel, then a NUL among the first 1000 characters; a git
      error on the way means "not binary". */
  function IsBinaryFile(path: string, numstat: GitResult, content: GitResult): (r: bool)
    ensures r <==> Lower(Suffix(path)) in BinaryExtensions
                   || (numstat.Output? && (numstat.text == "-" || StartsWith(numstat.text, "-\t")))
                   || (numstat.Output? && content.Output? && '\0' in Take(content.text, 1000))
  {
    if Lower(Suffix(path)) in BinaryExtensions then true
    else
      match numstat
      case GitError => false
      case Output(result) =>
        FirstFieldIsDash(result);
        if result != "" && FirstField(result) == "-" then true
        else
          match content
          case GitError => false
          case Output(text) => text != "" && '\0' in Take(text, 1000)
  }

  // ---------------------------------------------------------------------
  // Name-status parsing

  /** What one line of `git diff --name-status` becomes. */
  datatype LineParse = Blank | Parsed(change: FileChange) | ShortLine

  /** One line of the loop in `_get_file_changes`: blank lines are skipped;
      a status starting with 'R' or 'C' takes the old and new path from the
      next two fields and is normalised to "R" or "C"; any other status is
      kept as it is with the path from the next field. A line without the
      fields it needs raises `IndexError`. */
  function ParseNameStatusLine(line: string): (r: LineParse)
    ensures r.Blank? <==> IsBlank(line)
    ensures r.Parsed? ==> (r.change.oldPath.Some? <==> r.change.status == "R" || r.change.status == "C")
  {
    if IsBlank(line) then Blank
    else
      var parts := SplitOn(line, "\t");
      var status := parts[0];
      if StartsWith(status, "R") || StartsWith(status, "C") then
        if |parts| < 3 then ShortLine
        else Parsed(FileChange(if StartsWith(status, "R") then "R" else "C", parts[2], Some(parts[1])))
      else if |parts| < 2 then ShortLine
      else
        assert status != "R" && status != "C";
        Parsed(FileChange(status, parts[1], None))
  }

  /** The changes of all lines, in order, or the first failure. */
  function ParseNameStatusLines(lines: seq<string>): (r: Result<seq<FileChange>>)
    ensures r.Ok? ==> |r.value| <= |lines|
  {
    if lines == [] then Ok([])
    else
      match ParseNameStatusLine(lines[0])
      case Blank => ParseNameStatusLines(lines[1..])
      case ShortLine => Err(MissingField)
      case Parsed(c) => Prepend([c], ParseNameStatusLines(lines[1..]))
  }

  function Prepend(prefix: seq<FileChange>, r: Result<seq<FileChange>>): Result<seq<FileChange>> {
    match r
    case Ok(rest) => Ok(prefix + rest)
    case Err(e) => Err(e)
  }

  lemma PrependPrepend(a: seq<FileChange>, b: seq<FileChange>, r: Result<seq<FileChange>>)
    ensures Prepend(a, Prepend(b, r)) == Prepend(a + b, r)
  {
    if r.Ok? {
      AppendAssoc(a, b, r.value);
    }
  }

  lemma PrependNothing(r: Result<seq<FileChange>>)
    ensures Prepend([], r) == r
  {
    if r.Ok? {
      assert [] + r.value == r.value;
    }
  }

  /** What `_get_file_changes` returns. */
  function FileChanges(s: Settings, nameStatus: GitResult): Result<seq<FileChange>> {
    match nameStatus
    case GitError => Err(GitFailed)
    case Output(text) =>
      match ParseNameStatusLines(SplitOn(text, "\n"))
      case Err(e) => Err(e)
      case Ok(changes) => Ok(IncludedChanges(s, changes))
  }

  /** `_get_file_changes`: parse every line, then keep the included ones. */
  method GetFileChanges(s: Settings, nameStatus: GitResult) returns (r: Result<seq<FileChange>>)
    ensures r == FileChanges(s, nameStatus)
    ensures r.Ok? ==> forall c :: c in r.value ==> Included(s, c.path)
  {
    if nameStatus.GitError? {
      return Err(GitFailed);
    }
    var parsed := ParseLines(SplitOn(nameStatus.text, "\n"));
    if parsed.Err? {
      return Err(parsed.failure);
    }
    r := Ok(IncludedChanges(s, parsed.value));
  }

  /** The loop of `_get_file_changes` over the lines of the listing. */
  method ParseLines(lines: seq<string>) returns (r: Result<seq<FileChange>>)
    ensures r == ParseNameStatusLines(lines)
  {
    var changes: seq<FileChange> := [];
    var j := 0;
    assert lines[j..] == lines;
    PrependNothing(ParseNameStatusLines(lines));
    while j < |lines|
      invariant j <= |lines|
      invariant Prepend(changes, ParseNameStatusLines(lines[j..])) == ParseNameStatusLines(lines)
    {
      ParseStep(lines, j);
      match ParseNameStatusLine(lines[j]) {
        case Blank =>
        case ShortLine =>
          return Err(MissingField);
        case Parsed(c) =>
          PrependPrepend(changes, [c], ParseNameStatusLines(lines[j + 1..]));
          changes := changes + [c];
      }
      j := j + 1;
    }
    assert lines[j..] == [];
    assert changes + [] == changes;
    r := Ok(changes);
  }

  /** One line of the parse. */
  lemma ParseStep(lines: seq<string>, j: nat)
    requires j < |lines|
    ensures ParseNameStatusLines(lines[j..])
         == match ParseNameStatusLine(lines[j])
            case Blank => ParseNameStatusLines(lines[j + 1..])
            case ShortLine => Err(MissingField)
            case Parsed(c) => Prepend([c], ParseNameStatusLines(lines[j + 1..]))
  {
    assert lines[j..][0] == lines[j];
    assert lines[j..][1..] == lines[j + 1..];
  }

  /** The line git prints for a change code and its paths. */
  function NameStatusLine(code: string, paths: seq<string>): string {
    Join([code] + paths, "\t")
  }

  /** Parsing the line git prints gives back the change: a rename or copy
      code (with its similarity score) with its old and new path, any other
      code with its path; a line short of fields is refused. */
  lemma ParseNameStatusLineOfFields(code: string, paths: seq<string>)
    requires |code| > 0 && !IsSpace(code[0]) && '\t' !in code
    requires forall k :: 0 <= k < |paths| ==> '\t' !in paths[k]
    ensures (code[0] == 'R' || code[0] == 'C') && |paths| == 2 ==>
      ParseNameStatusLine(NameStatusLine(code, paths))
        == Parsed(FileChange(if code[0] == 'R' then "R" else "C", paths[1], Some(paths[0])))
    ensures code[0] != 'R' && code[0] != 'C' && |paths| == 1 ==>
      ParseNameStatusLine(NameStatusLine(code, paths)) == Parsed(FileChange(code, paths[0], None))
    ensures |paths| == 0 || ((code[0] == 'R' || code[0] == 'C') && |paths| == 1) ==>
      ParseNameStatusLine(NameStatusLine(code, paths)) == ShortLine
  {
    FieldsOfLine(code, paths);
    assert StartsWith(code, "R") <==> code[0] == 'R' by {
      assert |code| >= 1 ==> code[..1] == [code[0]];
    }
    assert StartsWith(code, "C") <==> code[0] == 'C' by {
      assert |code| >= 1 ==> code[..1] == [code[0]];
    }
  }

  /** A line built from tab-free fields is not blank and splits back into
      those fields. */
  lemma FieldsOfLine(code: string, paths: seq<string>)
    requires |code| > 0 && !IsSpace(code[0]) && '\t' !in code
    requires forall k :: 0 <= k < |paths| ==> '\t' !in paths[k]
    ensures !IsBlank(NameStatusLine(code, paths))
    ensures SplitOn(NameStatusLine(code, paths), "\t") == [code] + paths
  {
    var fields := [code] + paths;
    assert forall k :: 0 <= k < |fields| ==> '\t' !in fields[k] by {
      forall k | 0 <= k < |fields| ensures '\t' !in fields[k] {
        if k > 0 { assert fields[k] == paths[k - 1]; }
      }
    }
    SplitJoin(fields, '\t');
    JoinStartsWithFirst(fields, "\t");
    assert NameStatusLine(code, paths)[0] == code[0];
  }

  /** A join begins with its first part. */
  lemma JoinStartsWithFirst(parts: seq<string>, sep: string)
    requires |parts| > 0
    ensures StartsWith(Join(parts, sep), parts[0])
  {
    if |parts| > 1 {
      assert Join(parts, sep) == parts[0] + (sep + Join(parts[1..], sep));
    }
  }

  /** A change git can print and this parser reads back unchanged: fields
      without tabs or newlines, a status that is not blank, and an old path
      exactly for the normalised rename and copy statuses. */
  predicate Printable(c: FileChange) {
    |c.status| > 0 && !IsSpace(c.status[0])
    && PlainField(c.status) && PlainField(c.path)
    && (c.oldPath.Some? ==> PlainField(c.oldPath.value) && (c.status == "R" || c.status == "C"))
    && (c.oldPath.None? ==> c.status[0] != 'R' && c.status[0] != 'C')
  }

  predicate PlainField(f: string) {
    '\t' !in f && '\n' !in f
  }

  /** The fields after the status of a printed change. */
  function PathFields(c: FileChange): seq<string> {
    match c.oldPath
    case None => [c.path]
    case Some(from) => [from, c.path]
  }

  /** The name-status listing of a sequence of changes. */
  function Listing(changes: seq<FileChange>): (r: seq<string>)
    ensures |r| == |changes|
  {
    if changes == [] then []
    else [NameStatusLine(changes[0].status, PathFields(changes[0]))] + Listing(changes[1..])
  }

  /** Each printed change parses back to itself. */
  lemma ParsePrintedChange(c: FileChange)
    requires Printable(c)
    ensures ParseNameStatusLine(NameStatusLine(c.status, PathFields(c))) == Parsed(c)
  {
    ParseNameStatusLineOfFields(c.status, PathFields(c));
    if c.oldPath.Some? {
      assert c.status == "R" || c.status == "C";
      assert c.status[0] == 'R' <==> c.status == "R";
    }
  }

  /** Parsing a listing line by line gives the changes back, in order. */
  lemma {:induction false} ParseListingLines(changes: seq<FileChange>)
    requires forall i :: 0 <= i < |changes| ==> Printable(changes[i])
    ensures ParseNameStatusLines(Listing(changes)) == Ok(changes)
  {
    if changes != [] {
      var c, lines := changes[0], Listing(changes);
      assert lines[0] == NameStatusLine(c.status, PathFields(c));
      ParsePrintedChange(c);
      assert lines[1..] == Listing(changes[1..]);
      ParseListingLines(changes[1..]);
      assert ParseNameStatusLines(lines) == Prepend([c], Ok(changes[1..]));
      assert [c] + changes[1..] == changes;
    }
  }

  /** The whole `git diff --name-status` output of a non-empty sequence of
      changes parses back to that sequence, in order. */
  lemma ParseNameStatusOutput(changes: seq<FileChange>)
    requires |changes| > 0
    requires forall i :: 0 <= i < |changes| ==> Printable(changes[i])
    ensures ParseNameStatusLines(SplitOn(Join(Listing(changes), "\n"), "\n")) == Ok(changes)
  {
    var lines := Listing(changes);
    forall k | 0 <= k < |lines| ensures '\n' !in lines[k] {
      ListingLinePlain(changes, k);
    }
    SplitJoin(lines, '\n');
    ParseListingLines(changes);
  }

  /** Filtering keeps order and multiplicity: it works change by change. */
  lemma {:induction false} IncludedAppend(s: Settings, a: seq<FileChange>, b: seq<FileChange>)
    ensures IncludedChanges(s, a + b) == IncludedChanges(s, a) + IncludedChanges(s, b)
    decreases |a|
  {
    if a != [] {
      assert (a + b)[0] == a[0] && (a + b)[1..] == a[1..] + b;
      IncludedAppend(s, a[1..], b);
    } else {
      assert a + b == b;
    }
  }

  /** One change is kept exactly when its path is included. */
  lemma IncludedOne(s: Settings, c: FileChange)
    ensures IncludedChanges(s, [c]) == if Included(s, c.path) then [c] else []
  {
    assert [c][1..] == [];
  }

  /** Nothing is dropped when every path is included. */
  lemma {:induction false} AllIncluded(s: Settings, changes: seq<FileChange>)
    requires forall i :: 0 <= i < |changes| ==> Included(s, changes[i].path)
    ensures IncludedChanges(s, changes) == changes
    decreases |changes|
  {
    if changes != [] {
      AllIncluded(s, changes[1..]);
    }
  }

  /** `_get_file_changes` end to end: the name-status listing of changes
      whose paths are all included gives back those changes, in order. */
  lemma FileChangesOfListing(s: Settings, changes: seq<FileChange>)
    requires forall i :: 0 <= i < |changes| ==> Printable(changes[i]) && Included(s, changes[i].path)
    ensures FileChanges(s, Output(Join(Listing(changes), "\n"))) == Ok(changes)
  {
    AllIncluded(s, changes);
    if changes == [] {
      assert Join(Listing(changes), "\n") == "";
      assert IsBlank("");
      assert SplitOn("", "\n") == [""];
      assert ParseNameStatusLines([""]) == ParseNameStatusLines([""][1..]);
    } else {
      ParseNameStatusOutput(changes);
    }
  }

  lemma {:induction false} ListingLinePlain(changes: seq<FileChange>, k: nat)
    requires k < |changes| && Printable(changes[k])
    ensures '\n' !in Listing(changes)[k]
  {
    if k == 0 {
      var c := changes[0];
      var fields := [c.status] + PathFields(c);
      forall m | 0 <= m < |fields| ensures '\n' !in fields[m] {
      }
      JoinAvoids(fields, "\t", '\n');
    } else {
      ListingLinePlain(changes[1..], k - 1);
    }
  }

  /** A join of parts and a separator without `x` has no `x`. */
  lemma {:induction false} JoinAvoids(parts: seq<string>, sep: string, x: char)
    requires x !in sep
    requires forall m :: 0 <= m < |parts| ==> x !in parts[m]
    ensures x !in Join(parts, sep)
  {
    if |parts| > 1 {
      JoinAvoids(parts[1..], sep, x);
      assert Join(parts, sep) == parts[0] + sep + Join(parts[1..], sep);
    }
  }

  // ---------------------------------------------------------------------
  // File contents and fence tags

  /** `_get_file_content` at the current revision, given the outcome of
      `git show`: the text, unless git failed or the text's UTF-8 encoding
      is longer than the size limit. */
  function FileContent(maxFileSize: int, show: GitResult): (r: Option<string>)
    ensures r.Some? <==> show.Output? && Utf8Length(show.text) <= maxFileSize
    ensures r.Some? ==> r.value == show.text
  {
    match show
    case GitError => None
    case Output(content) => if Utf8Length(content) > maxFileSize then None else Some(content)
  }

  /** ASCII text is kept exactly when it has at most `maxFileSize`
      characters. */
  lemma AsciiContentKept(maxFileSize: int, content: string)
    requires forall i :: 0 <= i < |content| ==> (content[i] as int) < 0x80
    ensures FileContent(maxFileSize, Output(content)).Some? <==> |content| <= maxFileSize
  {
    Utf8LengthOfAscii(content);
  }

  /** Syntax-highlighting tags by lower-cased extension. */
  const ExtensionLanguages: map<string, string> := map[
    ".py" := "python", ".js" := "javascript", ".ts" := "typescript",
    ".tsx" := "tsx", ".jsx" := "jsx", ".java" := "java", ".cpp" := "cpp",
    ".c" := "c", ".h" := "c", ".hpp" := "cpp", ".rs" := "rust", ".go" := "go",
    ".rb" := "ruby", ".php" := "php", ".sql" := "sql", ".html" := "html",
    ".css" := "css", ".scss" := "scss", ".json" := "json", ".xml" := "xml",
    ".yaml" := "yaml", ".yml" := "yaml", ".toml" := "toml", ".md" := "markdown",
    ".sh" := "bash", ".dockerfile" := "dockerfile"]

  /** Every tag in the table is a real tag. */
  lemma LanguagesNonEmpty()
    ensures forall ext | ext in ExtensionLanguages :: ExtensionLanguages[ext] != ""
  {
  }

  /** `_format_file_extension`: the tag for the lower-cased suffix, or "". */
  function FileLanguage(path: string): (r: string)
    ensures r != "" <==> Lower(Suffix(path)) in ExtensionLanguages
  {
    var ext := Lower(Suffix(path));
    LanguagesNonEmpty();
    if ext in ExtensionLanguages then ExtensionLanguages[ext] else ""
  }

  /** The tag of a file depends only on its extension, in any case and in
      any directory. */
  lemma LanguageOfExtension(dir: string, stem: string, ext: string)
    requires |stem| > 0 && |ext| > 0
    requires '/' !in stem && '/' !in ext && '.' !in ext
    ensures var key := "." + Lower(ext);
      FileLanguage(dir + "/" + stem + "." + ext)
        == if key in ExtensionLanguages then ExtensionLanguages[key] else ""
  {
    LowerSuffixOfFile(dir, stem, ext);
  }

  lemma LowerSuffixOfFile(dir: string, stem: string, ext: string)
    requires |stem| > 0 && |ext| > 0
    requires '/' !in stem && '/' !in ext && '.' !in ext
    ensures Lower(Suffix(dir + "/" + stem + "." + ext)) == "." + Lower(ext)
  {
    SuffixOfStemAndExtension(dir, stem, ext);
    LowerAppend(".", ext);
    assert Lower(".") == ".";
  }
}
