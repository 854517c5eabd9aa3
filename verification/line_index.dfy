/**
 * The line-index pass of `parse_markdown_structure`: the raw text is split on
 * "\n", lines are numbered from 1, and each stripped line may be recorded as
 * a heading line (by its text), a code-fence line and/or a list-item line.
 * Also the first-recorded-line-after lookup used for code blocks and lists.
 */
module LineIndexing {
  import opened Text
  import opened Ordering

  /** The three lookups the pass builds. */
  datatype LineIndex = LineIndex(
    headingLines: map<string, nat>,   // stripped heading line -> its (last) line number
    codeLines: seq<nat>,              // lines that start a ``` fence, ascending
    listStartLines: seq<nat>          // lines that start a list item, ascending
  )

  /** `"#" * n`. */
  function Hashes(n: int): string {
    Repeat('#', n)
  }

  /** The lookup key of a heading: `"#" * level + " " + text`. */
  function HeadingKey(level: int, text: string): string {
    Hashes(level) + " " + text
  }

  /**
   * A stripped line recorded in the heading lookup: one to six "#" characters
   * and then a space open it. The scan first tests that the line starts with
   * "#"; that test is implied by this one (HeadingPrefixStartsWithHash), so it
   * decides nothing on its own.
   */
  predicate HasHeadingPrefix(s: string) {
    exists level :: 1 <= level <= 6 && StartsWith(s, Hashes(level) + " ")
  }

  lemma HeadingPrefixStartsWithHash(s: string)
    ensures HasHeadingPrefix(s) ==> StartsWith(s, "#")
  {
    if HasHeadingPrefix(s) {
      var level :| 1 <= level <= 6 && StartsWith(s, Hashes(level) + " ");
      assert s[0] == (Hashes(level) + " ")[0] == '#';
    }
  }

  /** A stripped line recorded as a code-fence line. */
  predicate IsFenceLine(s: string) {
    StartsWith(s, "```")
  }

  /** A stripped line recorded as a list-item line: "- " or "* ", or a digit first, length above 1 and ". " inside. */
  predicate IsListItemLine(s: string) {
    s != "" && (StartsWith(s, "- ") || StartsWith(s, "* ") || (|s| > 1 && IsDigit(s[0]) && Contains(s, ". ")))
  }

  /** The stripped text of every line, in order. */
  function StrippedLines(lines: seq<string>): (ss: seq<string>)
    ensures |ss| == |lines| && forall i :: 0 <= i < |lines| ==> ss[i] == Strip(lines[i])
  {
    seq(|lines|, i requires 0 <= i < |lines| => Strip(lines[i]))
  }

  /** Line number `k` (numbering from 1) of a sequence of stripped lines. */
  function LineAt(ss: seq<string>, k: int): string
    requires 1 <= k <= |ss|
  {
    ss[k - 1]
  }

  lemma PrefixLineAt(ss: seq<string>, n: nat)
    requires n <= |ss|
    ensures forall k :: 1 <= k <= n ==> LineAt(ss[..n], k) == LineAt(ss, k)
  {
  }

  /** The numbers of the stripped lines satisfying `p`, in order (characterized by LinesWhereExact). */
  function LinesWhere(ss: seq<string>, p: string -> bool): seq<nat> {
    if ss == [] then []
    else
      var n := |ss|;
      if p(LineAt(ss, n)) then LinesWhere(ss[..n - 1], p) + [n] else LinesWhere(ss[..n - 1], p)
  }

  /** The recorded lines are ascending and are exactly the lines whose stripped text satisfies `p`. */
  lemma {:induction false} LinesWhereExact(ss: seq<string>, p: string -> bool)
    ensures StrictlyIncreasing(LinesWhere(ss, p))
    ensures forall k :: k in LinesWhere(ss, p) ==> 1 <= k <= |ss| && p(LineAt(ss, k))
    ensures forall k :: 1 <= k <= |ss| && p(LineAt(ss, k)) ==> k in LinesWhere(ss, p)
  {
    if ss != [] {
      var n := |ss|;
      var prev := LinesWhere(ss[..n - 1], p);
      LinesWhereExact(ss[..n - 1], p);
      assert forall k :: k in prev ==> k < n;
      assert StrictlyIncreasing(LinesWhere(ss, p)) by {
        assert forall i :: 0 <= i < |prev| ==> prev[i] in prev;
      }
      assert forall k :: k in LinesWhere(ss, p) ==> 1 <= k <= |ss| && p(LineAt(ss, k)) by {
        PrefixLineAt(ss, n - 1);
      }
      assert forall k :: 1 <= k <= |ss| && p(LineAt(ss, k)) ==> k in LinesWhere(ss, p) by {
        PrefixLineAt(ss, n - 1);
      }
    }
  }

  /**
   * The lines satisfying `p`, recorded by their stripped text, a later line
   * overwriting an earlier one with the same text (characterized by
   * LastLineByTextExact).
   */
  function LastLineByText(ss: seq<string>, p: string -> bool): map<string, nat> {
    if ss == [] then map[]
    else
      var n := |ss|;
      var s := LineAt(ss, n);
      if p(s) then LastLineByText(ss[..n - 1], p)[s := n] else LastLineByText(ss[..n - 1], p)
  }

  /**
   * Every key satisfies `p` and maps to a line holding exactly that text; no
   * later line holds it (a repeated text keeps its last occurrence); and
   * every line satisfying `p` is recorded.
   */
  lemma {:induction false} LastLineByTextExact(ss: seq<string>, p: string -> bool)
    ensures var m := LastLineByText(ss, p);
      forall key :: key in m ==> p(key) && 1 <= m[key] <= |ss| && LineAt(ss, m[key]) == key
    ensures var m := LastLineByText(ss, p);
      forall key, k :: key in m && m[key] < k <= |ss| ==> LineAt(ss, k) != key
    ensures var m := LastLineByText(ss, p);
      forall k :: 1 <= k <= |ss| && p(LineAt(ss, k)) ==> LineAt(ss, k) in m
  {
    if ss != [] {
      LastLineByTextExact(ss[..|ss| - 1], p);
      PrefixLineAt(ss, |ss| - 1);
    }
  }

  lemma PrefixSnoc(ss: seq<string>, i: nat)
    requires i < |ss|
    ensures ss[..i] + [ss[i]] == ss[..i + 1]
  {
  }

  /** One more line extends the lookups by at most that line. */
  lemma LookupsStep(done: seq<string>, s: string, p: string -> bool)
    ensures LinesWhere(done + [s], p)
            == if p(s) then LinesWhere(done, p) + [|done| + 1] else LinesWhere(done, p)
    ensures LastLineByText(done + [s], p)
            == if p(s) then LastLineByText(done, p)[s := |done| + 1] else LastLineByText(done, p)
  {
    var all := done + [s];
    assert all[..|all| - 1] == done;
    assert LineAt(all, |all|) == s;
  }

  /** What the pass computes from the lines of the text. */
  function IndexOf(lines: seq<string>): LineIndex {
    var ss := StrippedLines(lines);
    LineIndex(LastLineByText(ss, HasHeadingPrefix), LinesWhere(ss, IsFenceLine), LinesWhere(ss, IsListItemLine))
  }

  /** The inner loop over levels 1 to 6 that decides whether a stripped "#" line is a heading line. */
  method MatchHeadingPrefix(s: string) returns (found: bool)
    ensures found <==> HasHeadingPrefix(s)
  {
    found := false;
    var level := 1;
    while level < 7
      invariant 1 <= level <= 7
      invariant forall l :: 1 <= l < level ==> !StartsWith(s, Hashes(l) + " ")
    {
      if StartsWith(s, Hashes(level) + " ") {
        found := true;
        break;
      }
      level := level + 1;
    }
  }

  /** The line-scanning loop: one pass over the numbered lines, appending to the three lookups. */
  method IndexLines(text: string) returns (idx: LineIndex)
    ensures idx == IndexOf(SplitLines(text))
  {
    var lines := SplitLines(text);
    ghost var ss := StrippedLines(lines);
    var headingLines: map<string, nat> := map[];
    var codeLines: seq<nat> := [];
    var listStartLines: seq<nat> := [];
    var i := 0;
    ghost var done: seq<string> := [];
    while i < |lines|
      invariant 0 <= i <= |lines|
      invariant done == ss[..i]
      invariant headingLines == LastLineByText(done, HasHeadingPrefix)
      invariant codeLines == LinesWhere(done, IsFenceLine)
      invariant listStartLines == LinesWhere(done, IsListItemLine)
    {
      var lineNo := i + 1;
      var stripped := Strip(lines[i]);
      HeadingPrefixStartsWithHash(stripped);
      if StartsWith(stripped, "#") {
        var found := MatchHeadingPrefix(stripped);
        if found {
          headingLines := headingLines[stripped := lineNo];
        }
      }
      if IsFenceLine(stripped) {
        codeLines := codeLines + [lineNo];
      }
      if IsListItemLine(stripped) {
        listStartLines := listStartLines + [lineNo];
      }
      LookupsStep(done, stripped, HasHeadingPrefix);
      LookupsStep(done, stripped, IsFenceLine);
      LookupsStep(done, stripped, IsListItemLine);
      PrefixSnoc(ss, i);
      done := done + [stripped];
      i := i + 1;
    }
    assert done == ss;
    idx := LineIndex(headingLines, codeLines, listStartLines);
  }

  /** `xs[k]` is the first entry of `xs` above `bound`. */
  predicate IsFirstAbove(xs: seq<nat>, bound: int, k: int) {
    0 <= k < |xs| && xs[k] > bound && forall j :: 0 <= j < k ==> xs[j] <= bound
  }

  /** The first recorded line greater than `bound`, or 1 when there is none. */
  function FirstAfter(xs: seq<nat>, bound: int): (r: nat)
    ensures (exists k :: IsFirstAbove(xs, bound, k) && r == xs[k])
            || (r == 1 && forall k :: 0 <= k < |xs| ==> xs[k] <= bound)
  {
    if xs == [] then 1
    else if xs[0] > bound then
      assert IsFirstAbove(xs, bound, 0);
      xs[0]
    else
      var r := FirstAfter(xs[1..], bound);
      assert forall k :: IsFirstAbove(xs[1..], bound, k) ==> IsFirstAbove(xs, bound, k + 1);
      r
  }

  /** On an ascending lookup the first entry above `bound` is the smallest one above it. */
  lemma FirstAfterIsLeast(xs: seq<nat>, bound: int)
    requires StrictlyIncreasing(xs)
    ensures forall k :: 0 <= k < |xs| && xs[k] > bound ==> bound < FirstAfter(xs, bound) <= xs[k]
    ensures FirstAfter(xs, bound) in xs || FirstAfter(xs, bound) == 1
  {
  }

  /** The search loop over the recorded lines, stopping at the first one above `bound`. */
  method FindFirstAfter(xs: seq<nat>, bound: int) returns (r: nat)
    ensures r == FirstAfter(xs, bound)
  {
    r := 1;
    var i := 0;
    while i < |xs|
      invariant 0 <= i <= |xs|
      invariant FirstAfter(xs[i..], bound) == FirstAfter(xs, bound)
    {
      if xs[i] > bound {
        r := xs[i];
        break;
      }
      assert xs[i..][1..] == xs[i + 1..];
      i := i + 1;
    }
  }

  /**
   * Line `r` is the first line after `bound` whose stripped text satisfies
   * `p`, or there is no such line and `r` is 1.
   */
  predicate IsFirstLineAfter(ss: seq<string>, p: string -> bool, bound: int, r: int) {
    if exists k :: 1 <= k <= |ss| && bound < k && p(LineAt(ss, k)) then
      bound < r && 1 <= r <= |ss| && p(LineAt(ss, r))
      && forall k :: 1 <= k < r && bound < k ==> !p(LineAt(ss, k))
    else r == 1
  }

  /** The lookup over a recorded list finds the first matching line after `bound`, falling back to 1. */
  lemma FirstRecordedAfter(ss: seq<string>, p: string -> bool, bound: int)
    ensures IsFirstLineAfter(ss, p, bound, FirstAfter(LinesWhere(ss, p), bound))
  {
    var xs := LinesWhere(ss, p);
    var r := FirstAfter(xs, bound);
    LinesWhereExact(ss, p);
    FirstAfterIsLeast(xs, bound);
    if exists k :: 1 <= k <= |ss| && bound < k && p(LineAt(ss, k)) {
      var k :| 1 <= k <= |ss| && bound < k && p(LineAt(ss, k));
      assert k in xs;
      assert r in xs;
      forall m | 1 <= m < r && bound < m
        ensures !p(LineAt(ss, m))
      {
        assert p(LineAt(ss, m)) ==> m in xs;
      }
    } else {
      assert forall j :: 0 <= j < |xs| ==> xs[j] in xs;
    }
  }
}
