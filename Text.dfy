/** String helpers shared by both programs: substring tests, searching and trimming. */
module Text {
  import opened Options
  import opened Chars

  /** `pat` occurs in `s` starting at index `i`. */
  predicate HasAt(s: string, pat: string, i: nat) {
    i + |pat| <= |s| && s[i..i + |pat|] == pat
  }

  /** `s` begins with `pat`: JavaScript's `startsWith` and Python's `str.startswith`. */
  predicate StartsWith(s: string, pat: string) {
    HasAt(s, pat, 0)
  }

  /** The first index at or after `from` where `pat` occurs in `s`. */
  function FindFrom(s: string, pat: string, from: nat): (r: Option<nat>)
    decreases |s| - from
    ensures r.Some? ==> from <= r.value && HasAt(s, pat, r.value)
    ensures r.Some? ==> forall j :: from <= j < r.value ==> !HasAt(s, pat, j)
    ensures r.None? ==> forall j :: from <= j ==> !HasAt(s, pat, j)
  {
    if from + |pat| > |s| then None
    else if HasAt(s, pat, from) then Some(from)
    else FindFrom(s, pat, from + 1)
  }

  /** JavaScript's `s.includes(pat)` and Python's `pat in s`. */
  function Contains(s: string, pat: string): (r: bool)
    ensures r <==> exists i :: HasAt(s, pat, i)
  {
    FindFrom(s, pat, 0).Some?
  }

  /** The first index of character `c` in `s`, or `|s|` when it does not occur. */
  function IndexOf(s: string, c: char): (k: nat)
    ensures k <= |s|
    ensures forall j :: 0 <= j < k ==> s[j] != c
    ensures k < |s| ==> s[k] == c
    ensures k == |s| <==> c !in s
  {
    if s == [] then 0
    else if s[0] == c then 0
    else 1 + IndexOf(s[1..], c)
  }

  /** The number of leading characters of `s` from `from` on that are white space in
      `dialect`: the index where the content begins. */
  function ContentStart(s: string, dialect: Dialect, from: nat): (n: nat)
    requires from <= |s|
    decreases |s| - from
    ensures from <= n <= |s|
    ensures forall k :: from <= k < n ==> IsSpaceIn(dialect, s[k])
    ensures n == |s| || !IsSpaceIn(dialect, s[n])
  {
    if from == |s| || !IsSpaceIn(dialect, s[from]) then from
    else ContentStart(s, dialect, from + 1)
  }

  /** The index just past the last character of `s[..upto]` that is not white space in
      `dialect` (0 when there is none). */
  function ContentEnd(s: string, dialect: Dialect, upto: nat): (m: nat)
    requires upto <= |s|
    ensures m <= upto
    ensures forall k :: m <= k < upto ==> IsSpaceIn(dialect, s[k])
    ensures m == 0 || !IsSpaceIn(dialect, s[m - 1])
  {
    if upto == 0 || !IsSpaceIn(dialect, s[upto - 1]) then upto
    else ContentEnd(s, dialect, upto - 1)
  }

  /** `r` is a slice of `s` that leaves out only white space (as `dialect` defines it)
      before and after it. */
  ghost predicate SliceBetweenSpaces(s: string, r: string, dialect: Dialect) {
    exists n, m :: 0 <= n <= m <= |s| && r == s[n..m]
      && (forall k :: 0 <= k < n ==> IsSpaceIn(dialect, s[k]))
      && (forall k :: m <= k < |s| ==> IsSpaceIn(dialect, s[k]))
  }

  /** `s` with white space (as `dialect` defines it) removed from both ends. */
  function Strip(s: string, dialect: Dialect): (r: string)
    ensures forall c :: c in r ==> c in s
    ensures r == [] <==> forall k :: 0 <= k < |s| ==> IsSpaceIn(dialect, s[k])
    ensures r != [] ==> !IsSpaceIn(dialect, r[0]) && !IsSpaceIn(dialect, r[|r| - 1])
    ensures (s == [] || (!IsSpaceIn(dialect, s[0]) && !IsSpaceIn(dialect, s[|s| - 1]))) ==> r == s
  {
    var n := ContentStart(s, dialect, 0);
    var m := ContentEnd(s, dialect, |s|);
    if n == |s| then []
    else
      assert n < m;
      SliceKeepsChars(s, n, m);
      s[n..m]
  }

  /** What stripping keeps is a slice of `s`, and what it drops is white space. */
  lemma StripSlice(s: string, dialect: Dialect)
    ensures SliceBetweenSpaces(s, Strip(s, dialect), dialect)
  {
    var n := ContentStart(s, dialect, 0);
    var m := ContentEnd(s, dialect, |s|);
    if n == |s| {
      assert s[|s|..|s|] == [];
    } else {
      assert n < m;
    }
  }

  /** Stripping is determined by what it promises: the only slice of `s` between white
      space whose ends are not white space (or the empty one, when `s` is all white
      space) is `Strip(s, dialect)`. */
  lemma StripUnique(s: string, r: string, dialect: Dialect)
    requires SliceBetweenSpaces(s, r, dialect)
    requires r == [] || (!IsSpaceIn(dialect, r[0]) && !IsSpaceIn(dialect, r[|r| - 1]))
    ensures r == Strip(s, dialect)
  {
    var n, m :| 0 <= n <= m <= |s| && r == s[n..m]
      && (forall k :: 0 <= k < n ==> IsSpaceIn(dialect, s[k]))
      && (forall k :: m <= k < |s| ==> IsSpaceIn(dialect, s[k]));
    if r == [] {
      assert forall k :: 0 <= k < |s| ==> IsSpaceIn(dialect, s[k]) by {
        forall k | 0 <= k < |s| ensures IsSpaceIn(dialect, s[k]) {
          assert k < n || m <= k;
        }
      }
    } else {
      assert s[n] == r[0] && s[m - 1] == r[|r| - 1];
      ContentStartAt(s, dialect, 0, n);
      ContentEndAt(s, dialect, |s|, m);
    }
  }

  lemma {:induction false} ContentStartAt(s: string, dialect: Dialect, from: nat, n: nat)
    requires from <= n < |s| && !IsSpaceIn(dialect, s[n])
    requires forall k :: from <= k < n ==> IsSpaceIn(dialect, s[k])
    ensures ContentStart(s, dialect, from) == n
    decreases n - from
  {
    if from < n {
      ContentStartAt(s, dialect, from + 1, n);
    }
  }

  lemma {:induction false} ContentEndAt(s: string, dialect: Dialect, upto: nat, m: nat)
    requires 0 < m <= upto <= |s| && !IsSpaceIn(dialect, s[m - 1])
    requires forall k :: m <= k < upto ==> IsSpaceIn(dialect, s[k])
    ensures ContentEnd(s, dialect, upto) == m
    decreases upto - m
  {
    if m < upto {
      ContentEndAt(s, dialect, upto - 1, m);
    }
  }

  /** Every character of a slice occurs in the whole. */
  lemma SliceKeepsChars(s: string, i: nat, j: nat)
    requires i <= j <= |s|
    ensures forall c :: c in s[i..j] ==> c in s
  {
    forall c | c in s[i..j] ensures c in s {
      var k :| i <= k < j && s[k] == c;
    }
  }

  /** `s` with every trailing `c` removed: Python's `s.rstrip(c)` for a one-character argument. */
  function RStripChar(s: string, c: char): (r: string)
    ensures |r| <= |s| && r == s[..|r|]
    ensures forall k :: |r| <= k < |s| ==> s[k] == c
    ensures r == [] || r[|r| - 1] != c
  {
    if s == [] || s[|s| - 1] != c then s else RStripChar(s[..|s| - 1], c)
  }

  /** A character absent at every index is not in the string. */
  lemma NotAtAnyIndex(s: string, c: char)
    requires forall k :: 0 <= k < |s| ==> s[k] != c
    ensures c !in s
  {
  }

  /** JavaScript's `s.split(sep)` for a one-character separator: the pieces between
      separators, the empty string giving one empty piece. */
  function SplitOn(s: string, sep: char): (r: seq<string>)
    ensures |r| >= 1
    ensures forall i :: 0 <= i < |r| ==> sep !in r[i]
  {
    if s == [] then [[]]
    else
      var rest := SplitOn(s[1..], sep);
      if s[0] == sep then [[]] + rest else [[s[0]] + rest[0]] + rest[1..]
  }

  /** A string with no separator is one piece. */
  lemma {:induction false} SplitOnSingle(a: string, sep: char)
    requires sep !in a
    ensures SplitOn(a, sep) == [a]
  {
    if a != [] {
      assert sep !in a[1..];
      SplitOnSingle(a[1..], sep);
      assert [a[0]] + a[1..] == a;
    }
  }

  /** Splitting a separator-joined pair peels off the first piece. */
  lemma SplitOnJoin(a: string, sep: char, b: string)
    requires sep !in a
    ensures SplitOn(a + [sep] + b, sep) == [a] + SplitOn(b, sep)
  {
    var t := [sep] + b;
    assert t[1..] == b;
    assert SplitOn(t, sep) == [[]] + SplitOn(b, sep);
    SplitOnLead(a, sep, t);
    assert a + [sep] + b == a + t;
    assert a + [] == a;
  }

  /** Splitting two strings joined by a separator gives the pieces of each. */
  lemma {:induction false} SplitOnConcat(x: string, sep: char, y: string)
    ensures SplitOn(x + [sep] + y, sep) == SplitOn(x, sep) + SplitOn(y, sep)
  {
    var s := x + [sep] + y;
    if x == [] {
      assert s[1..] == y;
      assert SplitOn(s, sep) == [[]] + SplitOn(y, sep);
    } else {
      assert s[1..] == x[1..] + [sep] + y;
      SplitOnConcat(x[1..], sep, y);
      SplitOnConcatStep(x, sep, y);
    }
  }

  /** The inductive step of SplitOnConcat: the first character of `x` either ends the
      first piece or joins it. */
  lemma SplitOnConcatStep(x: string, sep: char, y: string)
    requires x != []
    requires SplitOn(x[1..] + [sep] + y, sep) == SplitOn(x[1..], sep) + SplitOn(y, sep)
    ensures SplitOn(x + [sep] + y, sep) == SplitOn(x, sep) + SplitOn(y, sep)
  {
    var s := x + [sep] + y;
    assert s[0] == x[0];
    assert s[1..] == x[1..] + [sep] + y;
    if x[0] == sep {
      SplitOnSepFirst(s, sep, SplitOn(x[1..], sep), SplitOn(y, sep));
    } else {
      SplitOnCharFirst(s, sep, SplitOn(x[1..], sep), SplitOn(y, sep));
    }
  }

  lemma SplitOnSepFirst(s: string, sep: char, px: seq<string>, py: seq<string>)
    requires s != [] && s[0] == sep && SplitOn(s[1..], sep) == px + py
    ensures SplitOn(s, sep) == ([[]] + px) + py
  {
  }

  lemma SplitOnCharFirst(s: string, sep: char, px: seq<string>, py: seq<string>)
    requires s != [] && s[0] != sep && px != [] && SplitOn(s[1..], sep) == px + py
    ensures SplitOn(s, sep) == ([[s[0]] + px[0]] + px[1..]) + py
  {
    assert (px + py)[0] == px[0];
    assert (px + py)[1..] == px[1..] + py;
  }

  /** The pieces joined with `sep` between neighbours: JavaScript's `ps.join(sep)`. */
  function JoinWith(ps: seq<string>, sep: char): string
    requires ps != []
  {
    if |ps| == 1 then ps[0] else ps[0] + [sep] + JoinWith(ps[1..], sep)
  }

  /** None of the pieces joined holds `c`, so neither does the joined text. */
  lemma {:induction false} JoinWithout(ps: seq<string>, sep: char, c: char)
    requires ps != [] && sep != c
    requires forall i :: 0 <= i < |ps| ==> c !in ps[i]
    ensures c !in JoinWith(ps, sep)
    decreases |ps|
  {
    if |ps| > 1 {
      JoinWithout(ps[1..], sep, c);
    }
  }

  /** Splitting undoes joining when no piece holds the separator. */
  lemma {:induction false} SplitOnJoinWith(ps: seq<string>, sep: char)
    requires ps != []
    requires forall i :: 0 <= i < |ps| ==> sep !in ps[i]
    ensures SplitOn(JoinWith(ps, sep), sep) == ps
  {
    if |ps| == 1 {
      SplitOnSingle(ps[0], sep);
    } else {
      SplitOnJoinWith(ps[1..], sep);
      SplitOnJoin(ps[0], sep, JoinWith(ps[1..], sep));
      assert [ps[0]] + ps[1..] == ps;
    }
  }

  /** A leading part without separators joins the first piece. */
  lemma {:induction false} SplitOnLead(x: string, sep: char, y: string)
    requires sep !in x
    ensures SplitOn(x + y, sep) == [x + SplitOn(y, sep)[0]] + SplitOn(y, sep)[1..]
  {
    var py := SplitOn(y, sep);
    if x == [] {
      assert x + y == y;
      assert x + py[0] == py[0];
      assert py == [py[0]] + py[1..];
    } else {
      var s := x + y;
      assert s[0] == x[0];
      assert s[1..] == x[1..] + y;
      assert sep !in x[1..];
      SplitOnLead(x[1..], sep, y);
      calc {
        SplitOn(s, sep);
        [[x[0]] + SplitOn(x[1..] + y, sep)[0]] + SplitOn(x[1..] + y, sep)[1..];
        [[x[0]] + (x[1..] + py[0])] + py[1..];
        { assert [x[0]] + (x[1..] + py[0]) == x + py[0]; }
        [x + py[0]] + py[1..];
      }
    }
  }
}
