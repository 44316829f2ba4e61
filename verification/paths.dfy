/** The three parts of a forward-slash path the reports look at, as
    `pathlib.Path` gives them for the relative paths git prints: the final
    component (`name`), everything before it (`parent`) and the extension of
    the final component (`suffix`). */
module Paths {
  import opened Strings

  /** The index of the last occurrence of `c` in `s`. */
  function LastIndexOf(s: string, c: char): (r: Option<nat>)
    ensures r.Some? ==> r.value < |s| && s[r.value] == c
    ensures r.Some? ==> forall i :: r.value < i < |s| ==> s[i] != c
    ensures r.None? <==> c !in s
  {
    if |s| == 0 then None
    else if s[|s| - 1] == c then Some(|s| - 1)
    else LastIndexOf(s[..|s| - 1], c)
  }

  /** `Path(path).name`: the text after the last '/'. */
  function Name(path: string): (r: string)
    ensures '/' !in r && EndsWith(path, r)
    ensures '/' !in path ==> r == path
  {
    match LastIndexOf(path, '/')
    case None => path
    case Some(i) => path[i + 1..]
  }

  /** `str(Path(path).parent)`: the text before the last '/', or "." for a
      bare file name. */
  function Parent(path: string): (r: string)
    ensures '/' !in path ==> r == "."
    ensures '/' in path ==> |r| < |path| && StartsWith(path, r)
  {
    match LastIndexOf(path, '/')
    case None => "."
    case Some(i) => path[..i]
  }

  /** A path with a directory is its parent, a slash and its name. */
  lemma ParentSlashName(path: string)
    requires '/' in path
    ensures path == Parent(path) + "/" + Name(path)
  {
    var i := LastIndexOf(path, '/').value;
    assert path == path[..i] + [path[i]] + path[i + 1..];
  }

  /** Parent and name of a path built from a directory and a file name. */
  lemma ParentAndNameOfJoin(dir: string, file: string)
    requires '/' !in file
    ensures Parent(dir + "/" + file) == dir && Name(dir + "/" + file) == file
  {
    var path := dir + "/" + file;
    assert path[|dir|] == '/';
    var i := LastIndexOf(path, '/').value;
    assert path[..|dir|] == dir;
    assert path[|dir| + 1..] == file;
  }

  /** `Path(path).suffix`: from the last '.' of the name, provided that dot is
      neither the first nor the last character of the name; else "". */
  function Suffix(path: string): (r: string)
    ensures r != "" ==> |r| >= 2 && r[0] == '.' && '.' !in r[1..]
    ensures r != "" ==> EndsWith(Name(path), r) && |r| < |Name(path)|
  {
    var name := Name(path);
    match LastIndexOf(name, '.')
    case None => ""
    case Some(i) => if 0 < i < |name| - 1 then name[i..] else ""
  }

  /** The suffix of a path is the suffix of its final component. */
  lemma SuffixOfName(path: string)
    ensures Suffix(path) == Suffix(Name(path))
  {
    assert Name(Name(path)) == Name(path);
  }

  /** The last `c` of `s + [c] + t` is the one after `s` when `t` has none. */
  lemma {:induction false} LastIndexOfBeforeTail(s: string, c: char, t: string)
    requires c !in t
    ensures LastIndexOf(s + [c] + t, c) == Some(|s|)
    decreases |t|
  {
    var w := s + [c] + t;
    if |t| > 0 {
      var u := t[..|t| - 1];
      assert w[|w| - 1] == t[|t| - 1];
      assert w[..|w| - 1] == s + [c] + u;
      assert c !in u by {
        forall k | 0 <= k < |u| ensures u[k] != c {
          assert u[k] == t[k];
        }
      }
      LastIndexOfBeforeTail(s, c, u);
    }
  }

  /** A stem, a dot and a non-empty dot-free extension has that extension
      as its suffix. */
  lemma SuffixOfFile(stem: string, ext: string)
    requires |stem| > 0 && |ext| > 0
    requires '/' !in stem && '/' !in ext && '.' !in ext
    ensures '/' !in stem + "." + ext
    ensures Suffix(stem + "." + ext) == "." + ext
  {
    var file := stem + "." + ext;
    assert '/' !in file by {
      forall j | 0 <= j < |file| ensures file[j] != '/' {
        if j < |stem| { assert file[j] == stem[j]; }
        else if j > |stem| { assert file[j] == ext[j - |stem| - 1]; }
      }
    }
    assert Name(file) == file;
    LastIndexOfBeforeTail(stem, '.', ext);
    assert file[|stem|..] == "." + ext;
  }

  /** A file name made of a non-empty stem, a dot and a non-empty extension
      without dots has that extension as its suffix, wherever it sits. */
  lemma SuffixOfStemAndExtension(dir: string, stem: string, ext: string)
    requires |stem| > 0 && |ext| > 0
    requires '/' !in stem && '/' !in ext && '.' !in ext
    ensures Suffix(dir + "/" + stem + "." + ext) == "." + ext
  {
    var file := stem + "." + ext;
    SuffixOfFile(stem, ext);
    assert dir + "/" + stem + "." + ext == dir + "/" + file;
    ParentAndNameOfJoin(dir, file);
    SuffixOfName(dir + "/" + file);
  }
}
