/** The change listing of the branch report (pr2md_b.py): the name-status
    parser with its per-kind counters, the numstat binary test, the
    lockfile and generated-file filter, the grouping of files by directory
    and the choice of a base branch.

    Every git command is represented by its outcome (`CommandResult`): the
    stripped standard output and the exit status, which is how
    `run_git_command` reports it. */
module BranchChanges {
  import opened Strings
  import opened Paths

  /** What `run_git_command` returns. */
  datatype CommandResult = CommandResult(output: string, code: int)

  /** One changed file as the report keeps it: the displayed path (`old → new`
      for a rename with both paths), the status label and the raw status
      code. */
  datatype Entry = Entry(path: string, status: string, code: string)

  /** The per-kind counters of `get_file_changes`. */
  datatype Counts = Counts(added: nat, modified: nat, deleted: nat, renamed: nat)

  // ---------------------------------------------------------------------
  // Name-status parsing

  /** The label of a status code, by its first letter. */
  function Label(code: string): string {
    if StartsWith(code, "A") then "Added"
    else if StartsWith(code, "M") then "Modified"
    else if StartsWith(code, "D") then "Deleted"
    else if StartsWith(code, "R") then "Renamed"
    else "Unknown (" + code + ")"
  }

  /** The entry of one non-blank line: the code is the first tab-separated
      field and the path the second (or "" when there is none); a rename
      with a third field shows both paths around the arrow. */
  function EntryOf(line: string): (e: Entry)
    ensures e.code == SplitOn(line, "\t")[0]
    ensures e.status == Label(e.code)
  {
    var parts := SplitOn(line, "\t");
    var code := parts[0];
    var path := if |parts| > 1 then parts[1] else "";
    if StartsWith(code, "R") && |parts| > 2 then Entry(parts[1] + Arrow + parts[2], "Renamed", code)
    else Entry(path, Label(code), code)
  }

  /** The entries of the non-blank lines, in order. */
  function Entries(lines: seq<string>): seq<Entry> {
    if lines == [] then []
    else Entries(lines[..|lines| - 1]) + LineEntry(lines[|lines| - 1])
  }

  function LineEntry(line: string): seq<Entry> {
    if IsBlank(line) then [] else [EntryOf(line)]
  }

  /** The number of entries whose code starts with `letter`. */
  function CountCode(files: seq<Entry>, letter: char): nat {
    if files == [] then 0
    else CountCode(files[..|files| - 1], letter) + (if StartsWith(files[|files| - 1].code, [letter]) then 1 else 0)
  }

  function CountsOf(files: seq<Entry>): Counts {
    Counts(CountCode(files, 'A'), CountCode(files, 'M'), CountCode(files, 'D'), CountCode(files, 'R'))
  }

  /** What `get_file_changes` returns: nothing when git fails, else the
      entries of the output's lines and the counters. */
  function FileChanges(r: CommandResult): (seq<Entry>, Option<Counts>) {
    if r.code != 0 then ([], None)
    else
      var files := Entries(SplitOn(r.output, "\n"));
      (files, Some(CountsOf(files)))
  }

  /** The counters after one more entry with the given code. */
  function Bump(counts: Counts, code: string): Counts {
    if StartsWith(code, "A") then counts.(added := counts.added + 1)
    else if StartsWith(code, "M") then counts.(modified := counts.modified + 1)
    else if StartsWith(code, "D") then counts.(deleted := counts.deleted + 1)
    else if StartsWith(code, "R") then counts.(renamed := counts.renamed + 1)
    else counts
  }

  /** `get_file_changes`. */
  method GetFileChanges(r: CommandResult) returns (files: seq<Entry>, stats: Option<Counts>)
    ensures (files, stats) == FileChanges(r)
  {
    if r.code != 0 {
      return [], None;
    }
    var lines := SplitOn(r.output, "\n");
    files := [];
    var counts := Counts(0, 0, 0, 0);
    var j := 0;
    while j < |lines|
      invariant j <= |lines|
      invariant files == Entries(lines[..j])
      invariant counts == CountsOf(files)
    {
      EntriesSnoc(lines, j);
      files, counts := TakeLine(files, counts, lines[j]);
      j := j + 1;
    }
    assert lines[..j] == lines;
    stats := Some(counts);
  }

  /** The body of the loop of `get_file_changes`: a blank line is skipped,
      any other adds its entry and bumps the counter of its kind. */
  method TakeLine(files: seq<Entry>, counts: Counts, line: string) returns (files': seq<Entry>, counts': Counts)
    requires counts == CountsOf(files)
    ensures files' == files + LineEntry(line)
    ensures counts' == CountsOf(files')
  {
    if IsBlank(line) {
      return files, counts;
    }
    var e, next := ParseLine(line, counts);
    BumpCounts(files, e);
    files', counts' := files + [e], next;
  }

  /** The loop body of `get_file_changes` for a non-blank line: the
      entry, and the counter of its kind incremented. */
  method ParseLine(line: string, counts: Counts) returns (e: Entry, next: Counts)
    requires !IsBlank(line)
    ensures [e] == LineEntry(line)
    ensures next == Bump(counts, e.code)
  {
    var parts := SplitOn(line, "\t");
    var status := parts[0];
    var filepath := if |parts| > 1 then parts[1] else "";
    var fileStatus;
    next := counts;
    if StartsWith(status, "A") {
      fileStatus := "Added";
      next := next.(added := next.added + 1);
    } else if StartsWith(status, "M") {
      fileStatus := "Modified";
      next := next.(modified := next.modified + 1);
    } else if StartsWith(status, "D") {
      fileStatus := "Deleted";
      next := next.(deleted := next.deleted + 1);
    } else if StartsWith(status, "R") {
      fileStatus := "Renamed";
      next := next.(renamed := next.renamed + 1);
      if |parts| > 2 {
        filepath := parts[1] + Arrow + parts[2];
      }
    } else {
      fileStatus := "Unknown (" + status + ")";
    }
    e := Entry(filepath, fileStatus, status);
  }

  lemma BumpCounts(files: seq<Entry>, e: Entry)
    ensures Bump(CountsOf(files), e.code) == CountsOf(files + [e])
  {
    CountSnoc(files, e, 'A');
    CountSnoc(files, e, 'M');
    CountSnoc(files, e, 'D');
    CountSnoc(files, e, 'R');
  }

  lemma CountSnoc(files: seq<Entry>, e: Entry, c: char)
    ensures CountCode(files + [e], c) == CountCode(files, c) + (if StartsWith(e.code, [c]) then 1 else 0)
  {
    assert (files + [e])[..|files|] == files;
  }

  lemma EntriesSnoc(lines: seq<string>, j: nat)
    requires j < |lines|
    ensures Entries(lines[..j + 1]) == Entries(lines[..j]) + LineEntry(lines[j])
  {
    assert lines[..j + 1][..j] == lines[..j];
  }

  /** The entries whose code starts with none of A, M, D and R. */
  function Unknown(files: seq<Entry>): nat {
    if files == [] then 0
    else Unknown(files[..|files| - 1]) + (if Uncounted(files[|files| - 1].code) then 1 else 0)
  }

  predicate Uncounted(code: string) {
    !StartsWith(code, "A") && !StartsWith(code, "M") && !StartsWith(code, "D") && !StartsWith(code, "R")
  }

  /** Each entry is counted under at most one kind, and those under none
      are exactly the unknown ones: the four counters and the unknown
      entries add up to the number of entries. */
  lemma {:induction false} CountsPartition(files: seq<Entry>)
    ensures CountCode(files, 'A') + CountCode(files, 'M') + CountCode(files, 'D') + CountCode(files, 'R')
            + Unknown(files) == |files|
    decreases |files|
  {
    if files != [] {
      CountsPartition(files[..|files| - 1]);
    }
  }

  /** An uncounted code is shown as unknown, with the code in the label. */
  lemma UnknownLabel(line: string)
    requires Uncounted(EntryOf(line).code)
    ensures EntryOf(line).status == "Unknown (" + EntryOf(line).code + ")"
  {
  }

  /** A rename line with both paths gets the path `old → new`. */
  lemma RenameLinePath(code: string, oldPath: string, newPath: string)
    requires StartsWith(code, "R")
    requires '\t' !in code && '\t' !in oldPath && '\t' !in newPath
    ensures EntryOf(code + "\t" + oldPath + "\t" + newPath) == Entry(oldPath + Arrow + newPath, "Renamed", code)
  {
    var parts := [code, oldPath, newPath];
    JoinCons(oldPath, [newPath], "\t");
    JoinCons(code, [oldPath, newPath], "\t");
    assert [code] + [oldPath, newPath] == parts;
    assert Join(parts, "\t") == code + "\t" + oldPath + "\t" + newPath;
    SplitJoin(parts, '\t');
  }

  /** A failing listing gives no files and no counters. */
  lemma FailedListing(r: CommandResult)
    requires r.code != 0
    ensures FileChanges(r).0 == [] && FileChanges(r).1.None?
  {
  }

  // ---------------------------------------------------------------------
  // The numstat binary test

  /** `is_binary_file` given the outcome of `git diff --numstat`: binary
      when git fails, or when the first two tab-separated fields are both
      "-". */
  function IsBinaryNumstat(r: CommandResult): (b: bool)
    ensures r.code != 0 ==> b
  {
    r.code != 0 ||
      var parts := SplitOn(r.output, "\t");
      |parts| >= 2 && parts[0] == "-" && parts[1] == "-"
  }

  /** For a successful run the test reads the output's first characters:
      binary exactly when it is "-", tab, "-" and then a tab or nothing. */
  lemma NumstatBinaryExactly(output: string)
    ensures IsBinaryNumstat(CommandResult(output, 0)) <==> output == "-\t-" || StartsWith(output, "-\t-\t")
  {
    if output == "-\t-" || StartsWith(output, "-\t-\t") {
      DashFieldsRead(output);
    }
    var parts := SplitOn(output, "\t");
    if |parts| >= 2 && parts[0] == "-" && parts[1] == "-" {
      DashFieldsOnly(output);
    }
  }

  lemma DashFieldsRead(output: string)
    requires output == "-\t-" || StartsWith(output, "-\t-\t")
    ensures var parts := SplitOn(output, "\t"); |parts| >= 2 && parts[0] == "-" && parts[1] == "-"
  {
    if output == "-\t-" {
      assert Join(["-", "-"], "\t") == output;
      SplitJoin(["-", "-"], '\t');
    } else {
      var rest := output[4..];
      assert output == "-" + "\t" + ("-" + "\t" + rest);
      TwoFields("-", "-", rest, '\t');
    }
  }

  /** Two fields without the separator, then anything. */
  lemma TwoFields(a: string, b: string, rest: string, c: char)
    requires c !in a && c !in b
    ensures var parts := SplitOn(a + [c] + (b + [c] + rest), [c]); |parts| >= 2 && parts[0] == a && parts[1] == b
  {
    FirstOccurrence(a, c, b + [c] + rest);
    FirstOccurrence(b, c, rest);
  }

  lemma DashFieldsOnly(output: string)
    requires var parts := SplitOn(output, "\t"); |parts| >= 2 && parts[0] == "-" && parts[1] == "-"
    ensures output == "-\t-" || StartsWith(output, "-\t-\t")
  {
    FirstPieceDash(output);
    assert output != "-" by {
      NoOccurrence("-", '\t');
    }
    var tail := output[2..];
    assert output == "-" + "\t" + tail;
    FirstOccurrence("-", '\t', tail);
    assert SplitOn(tail, "\t")[0] == "-";
    FirstPieceDash(tail);
    DashThenTail(output, tail);
  }

  lemma DashThenTail(output: string, tail: string)
    requires StartsWith(output, "-\t") && tail == output[2..]
    requires tail == "-" || StartsWith(tail, "-\t")
    ensures output == "-\t-" || StartsWith(output, "-\t-\t")
  {
    assert output == output[..2] + tail;
    if tail != "-" {
      assert output[..4] == "-\t" + tail[..2];
    }
  }

  /** A text whose first tab-separated field is "-" is "-" or starts with
      "-" and a tab. */
  lemma FirstPieceDash(s: string)
    requires SplitOn(s, "\t")[0] == "-"
    ensures s == "-" || StartsWith(s, "-\t")
  {
    if '\t' in s {
      var i := IndexOf(s, "\t").value;
      forall k | 0 <= k < i ensures s[..i][k] != '\t' {
        assert !OccursAt(s, "\t", k);
        assert s[k..k + 1] == [s[k]];
      }
      assert s[i..i + 1] == "\t";
      assert s == s[..i] + "\t" + s[i + 1..];
      FirstOccurrence(s[..i], '\t', s[i + 1..]);
      assert s[..i] == "-";
    } else {
      NoOccurrence(s, '\t');
    }
  }

  // ---------------------------------------------------------------------
  // Lockfiles and generated files

  /** The lockfile names the report skips. */
  const LockfileNames: set<string> := {
    "uv.lock", "package-lock.json", "yarn.lock", "pipfile.lock", "poetry.lock",
    "pnpm-lock.yaml", "cargo.lock", "gemfile.lock", "composer.lock", "go.sum"}

  /** `should_skip_file`: the lower-cased file name is a lockfile name or
      ends like a minified file or a source map. */
  function ShouldSkipFile(path: string): (r: bool)
    ensures Lower(Name(path)) in LockfileNames ==> r
    ensures r ==> '.' in Name(path) && |Name(path)| >= 4
  {
    var name := Lower(Name(path));
    SkippedNameHasDot(Name(path));
    name in LockfileNames || EndsWith(name, ".min.js") || EndsWith(name, ".min.css") || EndsWith(name, ".map")
  }

  /** Every skipped name has an extension: lower-casing keeps the dot, and
      each lockfile name and skipped ending has one. */
  lemma SkippedNameHasDot(name: string)
    ensures var low := Lower(name);
            (low in LockfileNames || EndsWith(low, ".min.js") || EndsWith(low, ".min.css") || EndsWith(low, ".map"))
            ==> '.' in name && |name| >= 4
  {
    var low := Lower(name);
    if low in LockfileNames || EndsWith(low, ".min.js") || EndsWith(low, ".min.css") || EndsWith(low, ".map") {
      var k := |low| - 4;
      if low in LockfileNames {
        k := if low == "go.sum" then 2 else |low| - 5;
        assert low[k] == '.';
      } else if EndsWith(low, ".min.js") {
        k := |low| - 7;
        assert low[|low| - 7..][0] == '.';
      } else if EndsWith(low, ".min.css") {
        k := |low| - 8;
        assert low[|low| - 8..][0] == '.';
      } else {
        assert low[|low| - 4..][0] == '.';
      }
      assert low[k] == '.' && LowerChar(name[k]) == '.';
      assert name[k] == '.';
    }
  }

  /** The skip test on a file in a directory, in terms of its basename:
      skipped exactly when the lower-cased name is a lockfile name or ends
      like a minified script, a minified stylesheet or a source map; any
      other file is kept. */
  lemma SkipByName(dir: string, file: string)
    requires '/' !in file
    ensures ShouldSkipFile(dir + "/" + file)
        <==> Lower(file) in LockfileNames || EndsWith(Lower(file), ".min.js")
             || EndsWith(Lower(file), ".min.css") || EndsWith(Lower(file), ".map")
  {
    ParentAndNameOfJoin(dir, file);
  }

  /** A lockfile is skipped in any directory and in any letter case. */
  lemma LockfileSkipped(dir: string, file: string)
    requires '/' !in file && Lower(file) in LockfileNames
    ensures ShouldSkipFile(dir + "/" + file)
  {
    ParentAndNameOfJoin(dir, file);
  }

  /** A minified script is skipped in any directory and in any letter
      case. */
  lemma MinifiedSkipped(dir: string, stem: string, ext: string)
    requires '/' !in stem && '/' !in ext && Lower(ext) == ".min.js"
    ensures ShouldSkipFile(dir + "/" + (stem + ext))
  {
    assert '/' !in stem + ext;
    ParentAndNameOfJoin(dir, stem + ext);
    LowerAppend(stem, ext);
  }

  /** Letter case does not matter: a path and its lower-cased form are
      skipped alike. */
  lemma SkipIgnoresCase(path: string)
    ensures ShouldSkipFile(path) == ShouldSkipFile(Lower(path))
  {
    NameOfLower(path);
    LowerIdempotent(Name(path));
  }

  lemma NameOfLower(path: string)
    ensures Name(Lower(path)) == Lower(Name(path))
  {
    LastSlashOfLower(path);
    if LastIndexOf(path, '/').Some? {
      LowerFrom(path, LastIndexOf(path, '/').value + 1);
    }
  }

  /** Lower-casing commutes with dropping a prefix. */
  lemma LowerFrom(s: string, i: nat)
    requires i <= |s|
    ensures Lower(s)[i..] == Lower(s[i..])
  {
    assert forall k :: 0 <= k < |s| - i ==> Lower(s)[i..][k] == LowerChar(s[i + k]) == Lower(s[i..])[k];
  }

  lemma {:induction false} LastSlashOfLower(s: string)
    ensures LastIndexOf(Lower(s), '/') == LastIndexOf(s, '/')
    decreases |s|
  {
    if |s| > 0 {
      assert Lower(s)[..|s| - 1] == Lower(s[..|s| - 1]);
      LastSlashOfLower(s[..|s| - 1]);
    }
  }

  // ---------------------------------------------------------------------
  // Grouping by directory

  /** The path a file is filed under: the new path of a rename. */
  function NewPath(path: string): string {
    if Contains(path, Arrow) then SplitOn(path, Arrow)[1] else path
  }

  /** The directory key of an entry: the parent of its new path, with the
      top level called "Root". */
  function GroupKey(e: Entry): string {
    var dir := Parent(NewPath(e.path));
    if dir == "." then "Root" else dir
  }

  /** The entries filed under `key`, in input order. */
  function GroupOf(files: seq<Entry>, key: string): (r: seq<Entry>)
    ensures forall e :: e in r <==> e in files && GroupKey(e) == key
    ensures |r| <= |files|
  {
    if files == [] then []
    else
      var last := files[|files| - 1];
      GroupOf(files[..|files| - 1], key) + (if GroupKey(last) == key then [last] else [])
  }

  /** The keys in order of first appearance (the dictionary's key order). */
  function KeysOf(files: seq<Entry>): (r: seq<string>)
    ensures forall k :: k in r <==> exists e :: e in files && GroupKey(e) == k
    ensures forall i, j :: 0 <= i < j < |r| ==> r[i] != r[j]
  {
    if files == [] then []
    else
      var keys := KeysOf(files[..|files| - 1]);
      var last := files[|files| - 1];
      assert forall e :: e in files <==> e in files[..|files| - 1] || e == last;
      if GroupKey(last) in keys then keys else keys + [GroupKey(last)]
  }

  /** `group_files_by_directory`: a dictionary from key to entries and,
      since Python dictionaries keep insertion order, the order of its
      keys. */
  method GroupFilesByDirectory(files: seq<Entry>) returns (groups: map<string, seq<Entry>>, order: seq<string>)
    ensures Grouped(groups, order, files)
  {
    groups := map[];
    order := [];
    var j := 0;
    while j < |files|
      invariant j <= |files|
      invariant Grouped(groups, order, files[..j])
    {
      assert files[..j + 1] == files[..j] + [files[j]];
      groups, order := FileUnder(groups, order, files[..j], files[j]);
      j := j + 1;
    }
    assert files[..j] == files;
  }

  /** The dictionary and its key order hold the groups of `files`. */
  ghost predicate Grouped(groups: map<string, seq<Entry>>, order: seq<string>, files: seq<Entry>) {
    && order == KeysOf(files)
    && (forall k :: k in groups <==> k in order)
    && (forall k | k in groups :: groups[k] == GroupOf(files, k))
  }

  /** The loop body of `group_files_by_directory`: a new key is added with
      an empty list, then the entry is appended to the list of its key. */
  method FileUnder(groups: map<string, seq<Entry>>, order: seq<string>, files: seq<Entry>, fileInfo: Entry)
    returns (groups': map<string, seq<Entry>>, order': seq<string>)
    requires Grouped(groups, order, files)
    ensures Grouped(groups', order', files + [fileInfo])
  {
    var directory := GroupKey(fileInfo);
    var all := files + [fileInfo];
    assert all[..|files|] == files;
    groups', order' := groups, order;
    if directory !in groups' {
      EmptyGroup(files, directory);
      groups' := groups'[directory := []];
      order' := order' + [directory];
    }
    groups' := groups'[directory := groups'[directory] + [fileInfo]];
    forall k | k in groups'
      ensures groups'[k] == GroupOf(all, k)
    {
      assert GroupOf(all, k) == GroupOf(files, k) + (if directory == k then [fileInfo] else []);
    }
  }

  lemma KeysOfSnoc(files: seq<Entry>, j: int)
    requires 0 <= j < |files|
    ensures KeysOf(files[..j + 1])
         == if GroupKey(files[j]) in KeysOf(files[..j]) then KeysOf(files[..j]) else KeysOf(files[..j]) + [GroupKey(files[j])]
  {
    var f := files[..j + 1];
    assert f[..|f| - 1] == files[..j];
    assert f[|f| - 1] == files[j];
  }

  lemma GroupOfSnoc(files: seq<Entry>, j: int, k: string)
    requires 0 <= j < |files|
    ensures GroupOf(files[..j + 1], k) == GroupOf(files[..j], k) + (if GroupKey(files[j]) == k then [files[j]] else [])
  {
    assert files[..j + 1][..j] == files[..j];
  }

  lemma EmptyGroup(files: seq<Entry>, key: string)
    requires key !in KeysOf(files)
    ensures GroupOf(files, key) == []
  {
    if GroupOf(files, key) != [] {
      assert GroupOf(files, key)[0] in GroupOf(files, key);
    }
  }

  /** Every entry is in the group of its own key and in no other. */
  lemma OneGroupEach(files: seq<Entry>, e: Entry, key: string)
    requires e in files
    ensures GroupKey(e) in KeysOf(files)
    ensures e in GroupOf(files, key) <==> key == GroupKey(e)
  {
  }

  /** The sizes of the groups, over some keys. */
  function SizeSum(files: seq<Entry>, keys: seq<string>): nat {
    if keys == [] then 0 else SizeSum(files, keys[..|keys| - 1]) + |GroupOf(files, keys[|keys| - 1])|
  }

  /** The group sizes add up to the number of entries. */
  lemma {:induction false} GroupSizesSum(files: seq<Entry>)
    ensures SizeSum(files, KeysOf(files)) == |files|
    decreases |files|
  {
    if files != [] {
      var n := |files| - 1;
      var keys, key := KeysOf(files[..n]), GroupKey(files[n]);
      assert files[..n + 1] == files;
      GroupSizesSum(files[..n]);
      SizeSumGrows(files, n, keys);
      KeysOfSnoc(files, n);
      if key !in keys {
        NewKeyCounted(files, n, keys, key);
      }
    }
  }

  /** A key first met at entry `n` has that entry alone as its group. */
  lemma NewKeyCounted(files: seq<Entry>, n: int, keys: seq<string>, key: string)
    requires 0 <= n < |files| && keys == KeysOf(files[..n]) && key == GroupKey(files[n]) && key !in keys
    ensures SizeSum(files[..n + 1], keys + [key]) == SizeSum(files[..n + 1], keys) + 1
  {
    EmptyGroup(files[..n], key);
    GroupOfSnoc(files, n, key);
    assert (keys + [key])[..|keys|] == keys;
  }

  /** Adding an entry grows the sum over distinct keys by one exactly when
      its key is among them. */
  lemma {:induction false} SizeSumGrows(files: seq<Entry>, j: int, keys: seq<string>)
    requires 0 <= j < |files|
    requires forall a, b :: 0 <= a < b < |keys| ==> keys[a] != keys[b]
    ensures SizeSum(files[..j + 1], keys) == SizeSum(files[..j], keys) + (if GroupKey(files[j]) in keys then 1 else 0)
    decreases |keys|
  {
    if keys != [] {
      var init, k := keys[..|keys| - 1], keys[|keys| - 1];
      SizeSumGrows(files, j, init);
      GroupOfSnoc(files, j, k);
      forall x
        ensures x in keys <==> x in init || x == k
      {
        if x in keys {
          var i :| 0 <= i < |keys| && keys[i] == x;
          if i < |keys| - 1 {
            assert init[i] == x;
          }
        }
      }
      assert k !in init;
    }
  }

  /** A file at the top level is filed under "Root". */
  lemma TopLevelIsRoot(file: string, status: string, code: string)
    requires '/' !in file && '\U{2192}' !in file
    ensures GroupKey(Entry(file, status, code)) == "Root"
  {
    NoArrow(file);
  }

  /** A renamed file is filed under the directory of its new path. */
  lemma RenameFiledByNewPath(oldPath: string, dir: string, file: string, status: string, code: string)
    requires '\U{2192}' !in oldPath && '\U{2192}' !in dir && '\U{2192}' !in file
    requires '/' !in file && dir != "."
    ensures GroupKey(Entry(oldPath + Arrow + (dir + "/" + file), status, code)) == dir
  {
    var newPath := dir + "/" + file;
    assert '\U{2192}' !in newPath;
    ArrowSplit(oldPath, newPath);
    NoArrow(newPath);
    ParentAndNameOfJoin(dir, file);
  }

  // ---------------------------------------------------------------------
  // Choosing the base branch

  /** The branches tried, in order, when no base is given. */
  const Candidates: seq<string> := ["main", "master", "develop"]

  /** `get_merge_base`: the output of a successful, non-empty run. */
  function MergeBase(r: CommandResult): (base: Option<string>)
    ensures base.Some? <==> r.code == 0 && r.output != ""
  {
    if r.code == 0 && r.output != "" then Some(r.output) else None
  }

  /** The first candidate from index `from` on with a merge base, and that
      base. */
  function FirstWithBase(mergeBase: string -> CommandResult, from: nat): Option<(string, string)>
    decreases |Candidates| - from
  {
    if from >= |Candidates| then None
    else
      match MergeBase(mergeBase(Candidates[from]))
      case Some(commit) => Some((Candidates[from], commit))
      case None => FirstWithBase(mergeBase, from + 1)
  }

  /** The auto-detect loop of `main`: the branch and merge base found, or
      none. */
  method DetectBaseBranch(mergeBase: string -> CommandResult) returns (baseRef: Option<string>, baseCommit: Option<string>)
    ensures baseRef.Some? <==> baseCommit.Some?
    ensures FirstWithBase(mergeBase, 0) == if baseRef.Some? then Some((baseRef.value, baseCommit.value)) else None
  {
    baseRef, baseCommit := None, None;
    var k := 0;
    while k < |Candidates|
      invariant k <= |Candidates|
      invariant baseRef.None? && baseCommit.None?
      invariant FirstWithBase(mergeBase, 0) == FirstWithBase(mergeBase, k)
    {
      var branch := Candidates[k];
      baseCommit := MergeBase(mergeBase(branch));
      if baseCommit.Some? {
        baseRef := Some(branch);
        return;
      }
      k := k + 1;
    }
  }

  /** The branch chosen is the first candidate with a merge base: every
      earlier one has none; and nothing is chosen exactly when no
      candidate has one. */
  lemma {:induction false} DetectedIsFirst(mergeBase: string -> CommandResult, from: nat)
    requires from <= |Candidates|
    ensures FirstWithBase(mergeBase, from).Some? ==>
      exists i :: from <= i < |Candidates| && FirstWithBase(mergeBase, from).value.0 == Candidates[i]
        && MergeBase(mergeBase(Candidates[i])) == Some(FirstWithBase(mergeBase, from).value.1)
        && forall j :: from <= j < i ==> MergeBase(mergeBase(Candidates[j])).None?
    ensures FirstWithBase(mergeBase, from).None? <==>
      forall j :: from <= j < |Candidates| ==> MergeBase(mergeBase(Candidates[j])).None?
    decreases |Candidates| - from
  {
    if from < |Candidates| {
      DetectedIsFirst(mergeBase, from + 1);
    }
  }
}
