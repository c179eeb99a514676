/** The Python string operations the graph inspector relies on: `str.splitlines()`,
    `str.strip()` and `str.split(':', 1)`. */
module PyText {
  import opened Chars
  import opened Text

  /** `s.strip()`: Python's white space removed from both ends. */
  function PyStrip(s: string): (r: string)
    ensures forall c :: c in r ==> c in s
    ensures r == [] <==> forall k :: 0 <= k < |s| ==> IsPySpace(s[k])
    ensures r != [] ==> !IsPySpace(r[0]) && !IsPySpace(r[|r| - 1])
    ensures (s == [] || (!IsPySpace(s[0]) && !IsPySpace(s[|s| - 1]))) ==> r == s
  {
    Strip(s, Py)
  }

  /** `s.strip()` keeps a slice of `s` and drops only white space on either side of it;
      with the ends of the result not white space, that fixes the result
      (`Text.StripUnique`). */
  lemma PyStripSlice(s: string)
    ensures SliceBetweenSpaces(s, PyStrip(s), Py)
  {
    StripSlice(s, Py);
  }

  /** The index of the first line break in `s`, or `|s|`. */
  function BreakIndex(s: string): (n: nat)
    ensures n <= |s|
    ensures forall k :: 0 <= k < n ==> !IsPyLineBreak(s[k])
    ensures n < |s| ==> IsPyLineBreak(s[n])
  {
    if s == [] || IsPyLineBreak(s[0]) then 0 else 1 + BreakIndex(s[1..])
  }

  /** How many characters the line break at `n` takes: two for `\r\n`, otherwise one. */
  function BreakWidth(s: string, n: nat): (w: nat)
    requires n < |s|
    ensures 1 <= w <= 2 && n + w <= |s|
  {
    if s[n] == '\r' && n + 1 < |s| && s[n + 1] == '\n' then 2 else 1
  }

  /** `s.splitlines()`: the lines of `s` without their line breaks; a final line break
      does not open another line, and the empty string has no lines. */
  function SplitLines(s: string): (r: seq<string>)
    ensures forall i, k :: 0 <= i < |r| && 0 <= k < |r[i]| ==> !IsPyLineBreak(r[i][k])
    ensures |r| <= |s|
    ensures s == [] <==> r == []
  {
    if s == [] then []
    else
      var n := BreakIndex(s);
      if n == |s| then [s]
      else
        var rest := SplitLines(s[n + BreakWidth(s, n)..]);
        var r := [s[..n]] + rest;
        assert forall i :: 0 < i < |r| ==> r[i] == rest[i - 1];
        r
  }

  /** Each line followed by `\n`: what a command prints for a list of lines. */
  function Terminated(lines: seq<string>): string {
    if lines == [] then [] else lines[0] + "\n" + Terminated(lines[1..])
  }

  predicate NoLineBreak(s: string) {
    forall k :: 0 <= k < |s| ==> !IsPyLineBreak(s[k])
  }

  /** Splitting printed lines gives the lines back. */
  lemma {:induction false} SplitLinesTerminated(lines: seq<string>)
    requires forall i :: 0 <= i < |lines| ==> NoLineBreak(lines[i])
    ensures SplitLines(Terminated(lines)) == lines
  {
    if lines != [] {
      var l, t := lines[0], Terminated(lines[1..]);
      var s := l + "\n" + t;
      assert NoLineBreak(l);
      assert forall k :: 0 <= k < |l| ==> s[k] == l[k];
      assert s[|l|] == '\n';
      assert BreakIndex(s) == |l| by {
        BreakIndexAt(s, |l|);
      }
      assert s[..|l|] == l;
      assert s[|l| + 1..] == t;
      SplitLinesTerminated(lines[1..]);
      assert lines == [l] + lines[1..];
    }
  }

  /** The first line break is at `n` when there is none before it. */
  lemma {:induction false} BreakIndexAt(s: string, n: nat)
    requires n < |s| && IsPyLineBreak(s[n])
    requires forall k :: 0 <= k < n ==> !IsPyLineBreak(s[k])
    ensures BreakIndex(s) == n
  {
    if n > 0 {
      BreakIndexAt(s[1..], n - 1);
    }
  }

  /** `s.split(c, 1)[0]`: the text before the first `c`, all of `s` when there is none. */
  function BeforeFirst(s: string, c: char): (r: string)
    ensures |r| <= |s| && c !in r && r == s[..|r|]
    ensures |r| < |s| <==> c in s
    ensures |r| < |s| ==> s[|r|] == c
  {
    s[..IndexOf(s, c)]
  }

  /** `s.split(c, 1)[1]`: the text after the first `c`, which must occur. */
  function AfterFirst(s: string, c: char): (r: string)
    requires c in s
    ensures BeforeFirst(s, c) + [c] + r == s
  {
    var i := IndexOf(s, c);
    assert s[..i] + [c] + s[i + 1..] == s;
    s[i + 1..]
  }
}
