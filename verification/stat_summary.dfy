/** Reading the totals from the last line of `git diff --stat`
    (`_get_diff_stats` in pr2md_a.py). Each total is found the way
    `re.search(r"(\d+) files? changed", line)` and its two siblings find it:
    at the leftmost position where a run of digits is followed by one of the
    phrase's spellings. */
module StatSummary {
  import opened Strings

  datatype DiffStats = DiffStats(files: nat, insertions: nat, deletions: nat)

  const NoStats := DiffStats(0, 0, 0)

  /** The spellings `files? changed`, `insertions?\(\+\)` and
      `deletions?\(\-\)` allow after the number. */
  const FilesTails: seq<string> := [" file changed", " files changed"]
  const InsertionsTails: seq<string> := [" insertion(+)", " insertions(+)"]
  const DeletionsTails: seq<string> := [" deletion(-)", " deletions(-)"]

  /** The end of the run of ASCII digits that starts at `i`. */
  function DigitRunEnd(s: string, i: nat): (j: nat)
    requires i <= |s|
    ensures i <= j <= |s|
    ensures forall k :: i <= k < j ==> IsDigit(s[k])
    ensures j == |s| || !IsDigit(s[j])
    decreases |s| - i
  {
    if i < |s| && IsDigit(s[i]) then DigitRunEnd(s, i + 1) else i
  }

  /** Digits start at `i` and are followed by one of `tails`. Since every
      tail starts with a space, the digits a match captures are the whole
      run. */
  predicate NumberAt(s: string, i: nat, tails: seq<string>)
    requires i <= |s|
  {
    var j := DigitRunEnd(s, i);
    i < j && exists t | t in tails :: OccursAt(s, t, j)
  }

  /** The leftmost position at or after `from` where a number is followed
      by one of `tails`. */
  function SearchNumber(s: string, tails: seq<string>, from: nat): (r: Option<nat>)
    requires from <= |s|
    decreases |s| - from
    ensures r.Some? ==> from <= r.value <= |s|
  {
    if NumberAt(s, from, tails) then Some(from)
    else if from == |s| then None
    else SearchNumber(s, tails, from + 1)
  }

  /** The search finds the leftmost match at or after `from`, and finds
      nothing only when there is no match there at all. */
  lemma {:induction false} SearchNumberLeftmost(s: string, tails: seq<string>, from: nat)
    requires from <= |s|
    ensures SearchNumber(s, tails, from).Some? ==>
      NumberAt(s, SearchNumber(s, tails, from).value, tails)
    ensures SearchNumber(s, tails, from).Some? ==>
      forall i :: from <= i < SearchNumber(s, tails, from).value ==> !NumberAt(s, i, tails)
    ensures SearchNumber(s, tails, from).None? ==>
      forall i :: from <= i <= |s| ==> !NumberAt(s, i, tails)
    decreases |s| - from
  {
    if !NumberAt(s, from, tails) && from < |s| {
      SearchNumberLeftmost(s, tails, from + 1);
    }
  }

  /** The value of the captured digits, or 0 when there is no match. */
  function NumberBefore(s: string, tails: seq<string>): nat {
    match SearchNumber(s, tails, 0)
    case None => 0
    case Some(i) =>
      var j := DigitRunEnd(s, i);
      assert AllDigits(s[i..j]) by {
        forall k | 0 <= k < j - i ensures IsDigit(s[i..j][k]) {
          assert s[i..j][k] == s[i + k];
        }
      }
      DigitsValue(s[i..j])
  }

  /** The totals read from one summary line; each one is looked for only
      when its keyword occurs in the line. */
  function SummaryLineStats(summary: string): DiffStats {
    DiffStats(
      if Contains(summary, "file") then NumberBefore(summary, FilesTails) else 0,
      if Contains(summary, "insertion") then NumberBefore(summary, InsertionsTails) else 0,
      if Contains(summary, "deletion") then NumberBefore(summary, DeletionsTails) else 0)
  }

  /** What `_get_diff_stats` returns for the outcome of `git diff --stat`
      (its trimmed output, or `None` for a git error): the totals of the last
      line, or zeros for an error or an empty output. */
  function DiffStatsOf(stat: Option<string>): DiffStats {
    match stat
    case None => NoStats
    case Some(text) =>
      if text == "" then NoStats
      else
        var lines := SplitOn(text, "\n");
        SummaryLineStats(lines[|lines| - 1])
  }

  /** `_get_diff_stats`: three guarded searches that overwrite zeros. */
  method GetDiffStats(stat: Option<string>) returns (r: DiffStats)
    ensures r == DiffStatsOf(stat)
  {
    if stat.None? || stat.value == "" {
      return NoStats;
    }
    var lines := SplitOn(stat.value, "\n");
    var summary := lines[|lines| - 1];
    var files, insertions, deletions := 0, 0, 0;
    if Contains(summary, "file") {
      files := NumberBefore(summary, FilesTails);
    }
    if Contains(summary, "insertion") {
      insertions := NumberBefore(summary, InsertionsTails);
    }
    if Contains(summary, "deletion") {
      deletions := NumberBefore(summary, DeletionsTails);
    }
    r := DiffStats(files, insertions, deletions);
  }

  // ---------------------------------------------------------------------
  // Reading back the line git prints

  /** A summary line as git prints it: the files total, then the
      insertions and the deletions when shown, each in the singular or the
      plural. */
  function StatLine(files: nat, insertions: nat, deletions: nat,
                    showInsertions: bool, showDeletions: bool): string {
    Line(files, insertions, deletions, showInsertions, showDeletions,
         FilesTail(files), InsertionsTail(insertions), DeletionsTail(deletions))
  }

  /** The shape of a summary line with its three phrases left open. */
  function Line(f: nat, i: nat, d: nat, si: bool, sd: bool,
                ft: string, it: string, dt: string): string {
    Part(" ", f, ft, true) + Part(", ", i, it, si) + Part(", ", d, dt, sd)
  }

  function Part(sep: string, n: nat, tail: string, show: bool): string {
    if show then sep + NatToString(n) + tail else ""
  }

  function FilesTail(n: nat): string {
    if n == 1 then " file changed" else " files changed"
  }

  function InsertionsTail(n: nat): string {
    if n == 1 then " insertion(+)" else " insertions(+)"
  }

  function DeletionsTail(n: nat): string {
    if n == 1 then " deletion(-)" else " deletions(-)"
  }

  predicate NoDigits(t: string) {
    forall k :: 0 <= k < |t| ==> !IsDigit(t[k])
  }

  /** No position in `[lo, hi)` starts a number followed by one of `tails`. */
  predicate NoMatchIn(s: string, lo: nat, hi: nat, tails: seq<string>)
    requires lo <= hi <= |s|
  {
    forall i :: lo <= i < hi ==> !NumberAt(s, i, tails)
  }

  /** The search passes over a stretch without a match. */
  lemma {:induction false} SearchSkips(s: string, tails: seq<string>, lo: nat, hi: nat)
    requires lo <= hi <= |s| && NoMatchIn(s, lo, hi, tails)
    ensures SearchNumber(s, tails, lo) == SearchNumber(s, tails, hi)
    decreases hi - lo
  {
    if lo < hi {
      NoMatchSplit(s, tails, lo, hi);
      SearchStep(s, tails, lo);
      SearchSkips(s, tails, lo + 1, hi);
    }
  }

  lemma NoMatchSplit(s: string, tails: seq<string>, lo: nat, hi: nat)
    requires lo < hi <= |s| && NoMatchIn(s, lo, hi, tails)
    ensures !NumberAt(s, lo, tails) && NoMatchIn(s, lo + 1, hi, tails)
  {
  }

  /** The search moves one place on when there is no match here. */
  lemma SearchStep(s: string, tails: seq<string>, lo: nat)
    requires lo < |s| && !NumberAt(s, lo, tails)
    ensures SearchNumber(s, tails, lo) == SearchNumber(s, tails, lo + 1)
  {
  }

  lemma NoMatchJoin(s: string, tails: seq<string>, lo: nat, mid: nat, hi: nat)
    requires lo <= mid <= hi <= |s|
    requires NoMatchIn(s, lo, mid, tails) && NoMatchIn(s, mid, hi, tails)
    ensures NoMatchIn(s, lo, hi, tails)
  {
  }

  /** Text without digits starts no number. */
  lemma TextNoMatch(s: string, lo: nat, t: string, tails: seq<string>)
    requires OccursAt(s, t, lo) && NoDigits(t)
    ensures NoMatchIn(s, lo, lo + |t|, tails)
  {
    forall i | lo <= i < lo + |t| ensures !NumberAt(s, i, tails) {
      assert s[i] == t[i - lo];
    }
  }

  /** A run of digits ends where the digits stop. */
  lemma {:induction false} RunEndAt(s: string, i: nat, j: nat)
    requires i <= j <= |s|
    requires forall k :: i <= k < j ==> IsDigit(s[k])
    requires j == |s| || !IsDigit(s[j])
    ensures DigitRunEnd(s, i) == j
    decreases j - i
  {
    if i < j {
      RunEndAt(s, i + 1, j);
    }
  }

  /** The digits of `n` at `lo`, followed by a space. */
  predicate NumberThenSpace(s: string, lo: nat, n: nat) {
    OccursAt(s, NatToString(n), lo)
    && lo + |NatToString(n)| < |s| && s[lo + |NatToString(n)|] == ' '
  }

  lemma NumberRun(s: string, lo: nat, n: nat)
    requires NumberThenSpace(s, lo, n)
    ensures forall i :: lo <= i < lo + |NatToString(n)| ==> DigitRunEnd(s, i) == lo + |NatToString(n)|
  {
    var ds := NatToString(n);
    forall i | lo <= i < lo + |ds| ensures DigitRunEnd(s, i) == lo + |ds| {
      forall k | i <= k < lo + |ds| ensures IsDigit(s[k]) {
        assert s[k] == ds[k - lo];
      }
      RunEndAt(s, i, lo + |ds|);
    }
  }

  /** A number followed by a word that no tail begins with starts no match. */
  lemma NumberNoMatch(s: string, lo: nat, n: nat, letter: char, tails: seq<string>)
    requires NumberThenSpace(s, lo, n)
    requires lo + |NatToString(n)| + 1 < |s| && s[lo + |NatToString(n)| + 1] == letter
    requires forall t | t in tails :: |t| >= 2 && t[1] != letter
    ensures NoMatchIn(s, lo, lo + |NatToString(n)|, tails)
  {
    NumberRun(s, lo, n);
    var j := lo + |NatToString(n)|;
    forall t | t in tails ensures !OccursAt(s, t, j) {
      if j + |t| <= |s| {
        assert s[j..j + |t|][1] == s[j + 1];
      }
    }
  }

  /** A number followed by one of the tails is a match, with its value. */
  lemma NumberMatch(s: string, lo: nat, n: nat, t: string, tails: seq<string>)
    requires NumberThenSpace(s, lo, n)
    requires t in tails && OccursAt(s, t, lo + |NatToString(n)|)
    ensures NumberAt(s, lo, tails)
    ensures DigitRunEnd(s, lo) == lo + |NatToString(n)|
    ensures s[lo..DigitRunEnd(s, lo)] == NatToString(n)
  {
    NumberRun(s, lo, n);
  }

  /** The files part at the start of a line. */
  predicate FilesAt(s: string, f: nat, ft: string) {
    OccursAt(s, " ", 0) && NumberThenSpace(s, 1, f)
    && OccursAt(s, ft, 1 + |NatToString(f)|)
  }

  /** A ", <n><tail>" part at `at`. */
  predicate CountAt(s: string, at: nat, n: nat, tail: string) {
    OccursAt(s, ", ", at) && NumberThenSpace(s, at + 2, n)
    && OccursAt(s, tail, at + 2 + |NatToString(n)|)
  }

  lemma OccursInMiddle(p: string, q: string, r: string)
    ensures OccursAt(p + q + r, q, |p|)
  {
    assert (p + q + r)[|p|..|p| + |q|] == q;
  }

  lemma OccursNested(s: string, t: string, i: nat, u: string, k: nat)
    requires OccursAt(s, t, i) && OccursAt(t, u, k)
    ensures OccursAt(s, u, i + k)
  {
    forall m | 0 <= m < |u| ensures s[i + k + m] == u[m] {
      assert t[k + m] == s[i..i + |t|][k + m];
      assert u[m] == t[k..k + |u|][m];
    }
    assert s[i + k..i + k + |u|] == u;
  }

  /** The pieces of a part: separator, numeral, tail. */
  lemma PartLayout(s: string, at: nat, sep: string, num: string, tail: string)
    requires OccursAt(s, sep + num + tail, at)
    ensures OccursAt(s, sep, at)
    ensures OccursAt(s, num, at + |sep|)
    ensures OccursAt(s, tail, at + |sep| + |num|)
  {
    var part := sep + num + tail;
    OccursInMiddle([], sep, num + tail);
    assert [] + sep + (num + tail) == part;
    OccursInMiddle(sep, num, tail);
    OccursInMiddle(sep + num, tail, []);
    assert sep + num + tail + [] == part;
    OccursNested(s, part, at, sep, 0);
    OccursNested(s, part, at, num, |sep|);
    OccursNested(s, part, at, tail, |sep| + |num|);
  }

  /** A numeral followed by a tail that starts with a space. */
  lemma NumeralThenTail(s: string, at: nat, n: nat, tail: string)
    requires OccursAt(s, NatToString(n), at) && OccursAt(s, tail, at + |NatToString(n)|)
    requires |tail| > 0 && tail[0] == ' '
    ensures NumberThenSpace(s, at, n)
  {
    assert s[at + |NatToString(n)|] == s[at + |NatToString(n)|..at + |NatToString(n)| + |tail|][0];
  }

  lemma FilesPartAt(s: string, f: nat, ft: string)
    requires OccursAt(s, Part(" ", f, ft, true), 0)
    requires |ft| > 0 && ft[0] == ' '
    ensures FilesAt(s, f, ft)
  {
    PartLayout(s, 0, " ", NatToString(f), ft);
    NumeralThenTail(s, 1, f, ft);
  }

  lemma CountPartAt(s: string, at: nat, n: nat, tail: string)
    requires OccursAt(s, Part(", ", n, tail, true), at)
    requires |tail| > 0 && tail[0] == ' '
    ensures CountAt(s, at, n, tail)
  {
    PartLayout(s, at, ", ", NatToString(n), tail);
    NumeralThenTail(s, at + 2, n, tail);
  }

  /** The files part opens the line. */
  lemma FilesLayout(s: string, f: nat, ft: string, rest: string)
    requires s == Part(" ", f, ft, true) + rest
    requires |ft| > 0 && ft[0] == ' '
    ensures FilesAt(s, f, ft)
  {
    OccursInMiddle([], Part(" ", f, ft, true), rest);
    assert [] + Part(" ", f, ft, true) + rest == s;
    FilesPartAt(s, f, ft);
  }

  /** A shown count part sits right after what precedes it. */
  lemma CountLayout(s: string, pre: string, n: nat, tail: string, post: string)
    requires s == pre + Part(", ", n, tail, true) + post
    requires |tail| > 0 && tail[0] == ' '
    ensures CountAt(s, |pre|, n, tail)
  {
    OccursInMiddle(pre, Part(", ", n, tail, true), post);
    CountPartAt(s, |pre|, n, tail);
  }

  // ---------------------------------------------------------------------
  // Where each search stops on such a line

  /** A search that finds nothing gives 0. */
  lemma NoneFound(s: string, tails: seq<string>)
    requires NoMatchIn(s, 0, |s|, tails)
    ensures NumberBefore(s, tails) == 0
  {
    SearchSkips(s, tails, 0, |s|);
    assert !NumberAt(s, |s|, tails);
  }

  /** The first match gives the value of its digits. */
  lemma FoundAt(s: string, at: nat, n: nat, tail: string, tails: seq<string>)
    requires at <= |s| && NoMatchIn(s, 0, at, tails)
    requires NumberThenSpace(s, at, n)
    requires tail in tails && OccursAt(s, tail, at + |NatToString(n)|)
    ensures NumberBefore(s, tails) == n
  {
    SearchSkips(s, tails, 0, at);
    NumberMatch(s, at, n, tail, tails);
    assert SearchNumber(s, tails, at) == Some(at);
    DigitsValueOfNatToString(n);
  }

  /** No phrase of `tails` follows the files total. */
  lemma FilesNoMatch(s: string, f: nat, ft: string, tails: seq<string>)
    requires FilesAt(s, f, ft) && NoDigits(ft) && |ft| >= 2
    requires forall t | t in tails :: |t| >= 2 && t[1] != ft[1]
    ensures 1 + |NatToString(f)| + |ft| <= |s|
    ensures NoMatchIn(s, 0, 1 + |NatToString(f)| + |ft|, tails)
  {
    var e := 1 + |NatToString(f)|;
    assert NoDigits(" ");
    TextNoMatch(s, 0, " ", tails);
    assert s[e + 1] == s[e..e + |ft|][1];
    NumberNoMatch(s, 1, f, ft[1], tails);
    TextNoMatch(s, e, ft, tails);
    NoMatchJoin(s, tails, 0, 1, e);
    NoMatchJoin(s, tails, 0, e, e + |ft|);
  }

  /** No phrase of `tails` follows a count whose own phrase is `tail`. */
  lemma CountNoMatch(s: string, at: nat, n: nat, tail: string, tails: seq<string>)
    requires CountAt(s, at, n, tail) && NoDigits(tail) && |tail| >= 2
    requires forall t | t in tails :: |t| >= 2 && t[1] != tail[1]
    ensures at + 2 + |NatToString(n)| + |tail| <= |s|
    ensures NoMatchIn(s, at, at + 2 + |NatToString(n)| + |tail|, tails)
  {
    var e := at + 2 + |NatToString(n)|;
    assert NoDigits(", ");
    TextNoMatch(s, at, ", ", tails);
    assert s[e + 1] == s[e..e + |tail|][1];
    NumberNoMatch(s, at + 2, n, tail[1], tails);
    TextNoMatch(s, e, tail, tails);
    NoMatchJoin(s, tails, at, at + 2, e);
    NoMatchJoin(s, tails, at, e, e + |tail|);
  }

  /** The files total is read from the files part. */
  lemma FilesFound(s: string, f: nat, ft: string, tails: seq<string>)
    requires FilesAt(s, f, ft) && ft in tails
    ensures NumberBefore(s, tails) == f
  {
    assert NoDigits(" ");
    TextNoMatch(s, 0, " ", tails);
    FoundAt(s, 1, f, ft, tails);
  }

  /** A count is read from its part when nothing before it matches. */
  lemma CountFound(s: string, at: nat, n: nat, tail: string, tails: seq<string>)
    requires CountAt(s, at, n, tail) && tail in tails
    requires at <= |s| && NoMatchIn(s, 0, at, tails)
    ensures NumberBefore(s, tails) == n
  {
    assert NoDigits(", ");
    TextNoMatch(s, at, ", ", tails);
    NoMatchJoin(s, tails, 0, at, at + 2);
    FoundAt(s, at + 2, n, tail, tails);
  }

  /** The phrases: which spelling each count takes, and the letter after
      its leading space, which tells the three kinds apart. */
  lemma FilesTailFacts(n: nat)
    ensures FilesTail(n) in FilesTails && NoDigits(FilesTail(n))
    ensures |FilesTail(n)| >= 5 && FilesTail(n)[0] == ' ' && FilesTail(n)[1..5] == "file"
    ensures forall t | t in FilesTails :: |t| >= 2 && t[1] == 'f'
  {
  }

  lemma InsertionsTailFacts(n: nat)
    ensures InsertionsTail(n) in InsertionsTails && NoDigits(InsertionsTail(n))
    ensures |InsertionsTail(n)| >= 10 && InsertionsTail(n)[0] == ' '
    ensures InsertionsTail(n)[1..10] == "insertion"
    ensures forall t | t in InsertionsTails :: |t| >= 2 && t[1] == 'i'
  {
  }

  lemma DeletionsTailFacts(n: nat)
    ensures DeletionsTail(n) in DeletionsTails && NoDigits(DeletionsTail(n))
    ensures |DeletionsTail(n)| >= 9 && DeletionsTail(n)[0] == ' '
    ensures DeletionsTail(n)[1..9] == "deletion"
    ensures forall t | t in DeletionsTails :: |t| >= 2 && t[1] == 'd'
  {
  }

  /** A keyword inside a phrase at `at` occurs in the line. */
  lemma KeywordInTail(s: string, tail: string, at: nat, word: string)
    requires OccursAt(s, tail, at) && |tail| >= 1 + |word| && tail[1..1 + |word|] == word
    ensures Contains(s, word)
  {
    assert OccursAt(tail, word, 1);
    OccursNested(s, tail, at, word, 1);
  }

  // ---------------------------------------------------------------------
  // Reading back the line git prints

  /** The files total of a printed line reads back. */
  lemma FilesTotalOfStatLine(f: nat, i: nat, d: nat, si: bool, sd: bool)
    ensures var s := StatLine(f, i, d, si, sd);
      Contains(s, "file") && NumberBefore(s, FilesTails) == f
  {
    var s := StatLine(f, i, d, si, sd);
    var ft := FilesTail(f);
    var fp := Part(" ", f, ft, true);
    var rest := Part(", ", i, InsertionsTail(i), si) + Part(", ", d, DeletionsTail(d), sd);
    assert s == fp + rest;
    FilesTailFacts(f);
    FilesLayout(s, f, ft, rest);
    FilesFound(s, f, ft, FilesTails);
    KeywordInTail(s, ft, 1 + |NatToString(f)|, "file");
  }

  /** Phrases that no search for `tails` can take for its own. */
  predicate Foreign(tail: string, tails: seq<string>) {
    |tail| >= 2 && tail[0] == ' ' && NoDigits(tail)
    && forall t | t in tails :: |t| >= 2 && t[1] != tail[1]
  }

  /** A line of the files part alone matches nothing else. */
  lemma FilesOnlyLine(s: string, f: nat, ft: string, tails: seq<string>)
    requires s == Part(" ", f, ft, true) && Foreign(ft, tails)
    ensures NumberBefore(s, tails) == 0
  {
    assert s == Part(" ", f, ft, true) + [];
    FilesLayout(s, f, ft, []);
    FilesNoMatch(s, f, ft, tails);
    NoneFound(s, tails);
  }

  /** The count right after the files part is the first match. */
  lemma SecondCountRead(s: string, f: nat, ft: string, n: nat, tail: string, post: string,
                        tails: seq<string>)
    requires s == Part(" ", f, ft, true) + Part(", ", n, tail, true) + post
    requires Foreign(ft, tails) && |tail| > 0 && tail[0] == ' ' && tail in tails
    ensures NumberBefore(s, tails) == n
  {
    var fp := Part(" ", f, ft, true);
    assert s == fp + (Part(", ", n, tail, true) + post);
    FilesLayout(s, f, ft, Part(", ", n, tail, true) + post);
    FilesNoMatch(s, f, ft, tails);
    CountLayout(s, fp, n, tail, post);
    CountFound(s, |fp|, n, tail, tails);
  }

  /** A line of the files part and one foreign count matches nothing. */
  lemma SecondCountForeign(s: string, f: nat, ft: string, n: nat, tail: string,
                           tails: seq<string>)
    requires s == Part(" ", f, ft, true) + Part(", ", n, tail, true)
    requires Foreign(ft, tails) && Foreign(tail, tails)
    ensures NumberBefore(s, tails) == 0
  {
    var fp := Part(" ", f, ft, true);
    assert s == fp + Part(", ", n, tail, true);
    FilesLayout(s, f, ft, Part(", ", n, tail, true));
    FilesNoMatch(s, f, ft, tails);
    assert s == fp + Part(", ", n, tail, true) + [];
    CountLayout(s, fp, n, tail, []);
    CountNoMatch(s, |fp|, n, tail, tails);
    NoMatchJoin(s, tails, 0, |fp|, |s|);
    NoneFound(s, tails);
  }

  /** Nothing in the files part and a foreign count matches. */
  lemma TwoPartsNoMatch(s: string, f: nat, ft: string, m: nat, mt: string, post: string,
                        tails: seq<string>)
    requires s == Part(" ", f, ft, true) + Part(", ", m, mt, true) + post
    requires Foreign(ft, tails) && Foreign(mt, tails)
    ensures |Part(" ", f, ft, true) + Part(", ", m, mt, true)| <= |s|
    ensures NoMatchIn(s, 0, |Part(" ", f, ft, true) + Part(", ", m, mt, true)|, tails)
  {
    var fp, mp := Part(" ", f, ft, true), Part(", ", m, mt, true);
    assert s == fp + (mp + post);
    FilesLayout(s, f, ft, mp + post);
    FilesNoMatch(s, f, ft, tails);
    CountLayout(s, fp, m, mt, post);
    CountNoMatch(s, |fp|, m, mt, tails);
    NoMatchJoin(s, tails, 0, |fp|, |fp + mp|);
  }

  /** The count after a foreign count is the first match. */
  lemma ThirdCountRead(s: string, f: nat, ft: string, m: nat, mt: string, n: nat, tail: string,
                       tails: seq<string>)
    requires s == Part(" ", f, ft, true) + Part(", ", m, mt, true) + Part(", ", n, tail, true)
    requires Foreign(ft, tails) && Foreign(mt, tails)
    requires |tail| > 0 && tail[0] == ' ' && tail in tails
    ensures NumberBefore(s, tails) == n
  {
    var pre := Part(" ", f, ft, true) + Part(", ", m, mt, true);
    TwoPartsNoMatch(s, f, ft, m, mt, Part(", ", n, tail, true), tails);
    assert s == pre + Part(", ", n, tail, true) + [];
    CountLayout(s, pre, n, tail, []);
    CountFound(s, |pre|, n, tail, tails);
  }

  /** A keyword inside a shown count's phrase occurs in the line. */
  lemma CountKeyword(s: string, pre: string, n: nat, tail: string, post: string, word: string)
    requires s == pre + Part(", ", n, tail, true) + post
    requires |tail| >= 1 + |word| && tail[0] == ' ' && tail[1..1 + |word|] == word
    ensures Contains(s, word)
  {
    CountLayout(s, pre, n, tail, post);
    KeywordInTail(s, tail, |pre| + 2 + |NatToString(n)|, word);
  }

  /** The second count of a line reads back, or reads as 0 when left out. */
  lemma SecondTotal(f: nat, i: nat, d: nat, si: bool, sd: bool, ft: string, it: string, dt: string,
                    tails: seq<string>)
    requires Foreign(ft, tails) && Foreign(dt, tails)
    requires |it| > 0 && it[0] == ' ' && it in tails
    ensures NumberBefore(Line(f, i, d, si, sd, ft, it, dt), tails) == if si then i else 0
  {
    var s := Line(f, i, d, si, sd, ft, it, dt);
    var fp, ip, dp := Part(" ", f, ft, true), Part(", ", i, it, si), Part(", ", d, dt, sd);
    assert s == fp + ip + dp;
    if si {
      SecondCountRead(s, f, ft, i, it, dp, tails);
    } else {
      assert fp + ip == fp;
      if sd {
        SecondCountForeign(s, f, ft, d, dt, tails);
      } else {
        assert s == fp;
        FilesOnlyLine(s, f, ft, tails);
      }
    }
  }

  /** The third count of a line reads back, or reads as 0 when left out. */
  lemma ThirdTotal(f: nat, i: nat, d: nat, si: bool, sd: bool, ft: string, it: string, dt: string,
                   tails: seq<string>)
    requires Foreign(ft, tails) && Foreign(it, tails)
    requires |dt| > 0 && dt[0] == ' ' && dt in tails
    ensures NumberBefore(Line(f, i, d, si, sd, ft, it, dt), tails) == if sd then d else 0
  {
    var s := Line(f, i, d, si, sd, ft, it, dt);
    var fp, ip, dp := Part(" ", f, ft, true), Part(", ", i, it, si), Part(", ", d, dt, sd);
    assert s == fp + ip + dp;
    if !si {
      assert fp + ip == fp;
    }
    if sd && si {
      ThirdCountRead(s, f, ft, i, it, d, dt, tails);
    } else if sd {
      assert s == fp + dp + [];
      SecondCountRead(s, f, ft, d, dt, [], tails);
    } else {
      assert dp == [] && s == fp + ip;
      if si {
        SecondCountForeign(s, f, ft, i, it, tails);
      } else {
        FilesOnlyLine(s, f, ft, tails);
      }
    }
  }

  /** The keyword of a shown count occurs in the line. */
  lemma Keywords(f: nat, i: nat, d: nat, si: bool, sd: bool, ft: string, it: string, dt: string,
                 iw: string, dw: string)
    requires |it| >= 1 + |iw| && it[0] == ' ' && it[1..1 + |iw|] == iw
    requires |dt| >= 1 + |dw| && dt[0] == ' ' && dt[1..1 + |dw|] == dw
    ensures si ==> Contains(Line(f, i, d, si, sd, ft, it, dt), iw)
    ensures sd ==> Contains(Line(f, i, d, si, sd, ft, it, dt), dw)
  {
    var s := Line(f, i, d, si, sd, ft, it, dt);
    var fp, ip, dp := Part(" ", f, ft, true), Part(", ", i, it, si), Part(", ", d, dt, sd);
    assert s == fp + ip + dp;
    if si {
      CountKeyword(s, fp, i, it, dp, iw);
    }
    if sd {
      assert s == fp + ip + dp + [];
      CountKeyword(s, fp + ip, d, dt, [], dw);
    }
  }

  /** The insertions and deletions totals of a printed line read back, and
      read as 0 when git leaves them out. */
  lemma CountTotalsOfStatLine(f: nat, i: nat, d: nat, si: bool, sd: bool)
    ensures si ==> Contains(StatLine(f, i, d, si, sd), "insertion")
    ensures sd ==> Contains(StatLine(f, i, d, si, sd), "deletion")
    ensures NumberBefore(StatLine(f, i, d, si, sd), InsertionsTails) == if si then i else 0
    ensures NumberBefore(StatLine(f, i, d, si, sd), DeletionsTails) == if sd then d else 0
  {
    var ft, it, dt := FilesTail(f), InsertionsTail(i), DeletionsTail(d);
    FilesTailFacts(f);
    InsertionsTailFacts(i);
    DeletionsTailFacts(d);
    assert Foreign(ft, InsertionsTails) && Foreign(dt, InsertionsTails);
    assert Foreign(ft, DeletionsTails) && Foreign(it, DeletionsTails);
    SecondTotal(f, i, d, si, sd, ft, it, dt, InsertionsTails);
    ThirdTotal(f, i, d, si, sd, ft, it, dt, DeletionsTails);
    Keywords(f, i, d, si, sd, ft, it, dt, "insertion", "deletion");
  }

  /** `_get_diff_stats` reads back the three totals of any summary line git
      prints, given that git leaves out only a zero count. */
  lemma StatLineRoundTrip(f: nat, i: nat, d: nat, si: bool, sd: bool)
    requires si || i == 0
    requires sd || d == 0
    ensures SummaryLineStats(StatLine(f, i, d, si, sd)) == DiffStats(f, i, d)
  {
    FilesTotalOfStatLine(f, i, d, si, sd);
    CountTotalsOfStatLine(f, i, d, si, sd);
  }

  /** A printed summary line is a single line. */
  lemma StatLineHasNoNewline(f: nat, i: nat, d: nat, si: bool, sd: bool)
    ensures |StatLine(f, i, d, si, sd)| > 0 && '\n' !in StatLine(f, i, d, si, sd)
  {
    forall n: nat ensures '\n' !in NatToString(n) {
      var ds := NatToString(n);
      forall k | 0 <= k < |ds| ensures ds[k] != '\n' {
        assert IsDigit(ds[k]);
      }
    }
    assert '\n' !in FilesTail(f) && '\n' !in InsertionsTail(i) && '\n' !in DeletionsTail(d);
  }

  /** The totals come from the last line of the output. */
  lemma LastLineRead(files: seq<string>, line: string)
    requires forall k :: 0 <= k < |files| ==> '\n' !in files[k]
    requires line != "" && '\n' !in line
    ensures DiffStatsOf(Some(Join(files + [line], "\n"))) == SummaryLineStats(line)
  {
    var parts := files + [line];
    forall k | 0 <= k < |parts| ensures '\n' !in parts[k] {
      if k < |files| {
        assert parts[k] == files[k];
      }
    }
    SplitJoin(parts, '\n');
    JoinCoversLast(parts, "\n");
    var lines := SplitOn(Join(parts, "\n"), "\n");
    assert lines[|lines| - 1] == line;
  }

  /** The totals of a whole `git diff --stat` output: whatever per-file
      lines come first, they are read from the summary line at its end. */
  lemma StatOutputTotals(files: seq<string>, f: nat, i: nat, d: nat, si: bool, sd: bool)
    requires forall k :: 0 <= k < |files| ==> '\n' !in files[k]
    requires si || i == 0
    requires sd || d == 0
    ensures DiffStatsOf(Some(Join(files + [StatLine(f, i, d, si, sd)], "\n"))) == DiffStats(f, i, d)
  {
    StatLineHasNoNewline(f, i, d, si, sd);
    LastLineRead(files, StatLine(f, i, d, si, sd));
    StatLineRoundTrip(f, i, d, si, sd);
  }
}
