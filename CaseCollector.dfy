/**
 * `extractCases`: every block of an issue page's text that names a project, a vehicle,
 * an environment and an "occurred at" time, in that order, found with the global
 * pattern
 *   project_id[:：]\s*([^\n]+)[\s\S]*?vehicle_id[:：]\s*([^\n]+)[\s\S]*?
 *   environment_id[:：]\s*([^\n]+)[\s\S]*?発生時刻[:：]\s*([^\n]+)
 * Field `n` of a block is `label n`, a colon, white space and a one-line group; the
 * lazy gap between fields may hold anything.
 */
module CaseCollector {
  import opened Options
  import opened Chars
  import opened Text
  import opened Patterns

  /** The labels of the four fields, in pattern order. */
  const CaseLabels: seq<string> := ["project_id", "vehicle_id", "environment_id", OccurredAtLabel]

  /** `f` is one field as the pattern admits it: `key` and a colon at `f.at`, white space,
      then a group of at least one character on one line, which the field ends with. */
  ghost predicate FieldShape(text: string, key: string, f: Found) {
    f.at <= |text| && LabelColonAt(text, key, f.at)
    && f.at + |key| + 1 <= f.group.start < f.group.end == f.end <= |text|
    && SpacesBetween(text, f.at + |key| + 1, f.group.start)
    && OnOneLine(text, f.group.start, f.group.end)
  }

  /** `fs` are the fields labelled `keys`, each starting where or after the previous one
      ended: a way `key1[:：]\s*([^\n]+)[\s\S]*?key2[:：]...` can match. */
  ghost predicate BlockShape(text: string, keys: seq<string>, fs: seq<Found>) {
    |fs| == |keys|
    && (forall k :: 0 <= k < |fs| ==> FieldShape(text, keys[k], fs[k]))
    && (forall k :: 0 <= k < |fs| - 1 ==> fs[k].end <= fs[k + 1].at)
  }

  /**
   * The fields the engine settles on when it tries the pattern for `keys` at `s`.
   * The lazy gap after a group lets the rest start at any later index, so a group may
   * reach as far as the last index where the rest can match; the engine takes the
   * longest group so bounded and then the first index after it where the rest matches.
   */
  function SuffixAt(text: string, keys: seq<string>, s: nat): (r: Option<seq<Found>>)
    requires keys != [] && s <= |text|
    decreases |keys|, 1
    ensures r.Some? ==> BlockShape(text, keys, r.value) && r.value[0].at == s
  {
    if !LabelColonAt(text, keys[0], s) then None
    else if |keys| == 1 then
      match CaptureAt(text, s + |keys[0]| + 1, |text|)
      case None => None
      case Some(g) =>
        CapturedField(text, keys[0], s, |text|, g);
        BlockOfLast(text, keys, Found(s, g, g.end));
        Some([Found(s, g, g.end)])
    else LaterFields(text, keys, s)
  }

  /** SuffixAt when fields follow the first: its group is bounded by the last index
      where the later fields match, and they are then matched from the first such index
      after the group. */
  function LaterFields(text: string, keys: seq<string>, s: nat): (r: Option<seq<Found>>)
    requires |keys| >= 2 && s <= |text| && LabelColonAt(text, keys[0], s)
    decreases |keys|, 0
    ensures r.Some? ==> BlockShape(text, keys, r.value) && r.value[0].at == s
  {
    var tail := keys[1..];
    var ok := (j: nat) => j <= |text| && SuffixAt(text, tail, j).Some?;
    match LastWhere(|text|, ok)
    case None => None
    case Some(last) =>
      match CaptureAt(text, s + |keys[0]| + 1, last)
      case None => None
      case Some(g) =>
        CapturedField(text, keys[0], s, last, g);
        match FirstWhere(|text|, ok, g.end)
        case None => None
        case Some(next) =>
          assert ok(next);
          var rest := SuffixAt(text, tail, next).value;
          BlockCons(text, keys, Found(s, g, g.end), rest);
          Some([Found(s, g, g.end)] + rest)
  }

  /** The pattern for `keys` matches at `j`. */
  predicate MatchesAt(text: string, keys: seq<string>, j: nat)
    requires keys != []
  {
    j <= |text| && SuffixAt(text, keys, j).Some?
  }

  /** What the group capture finds after `key`'s colon is a field. */
  lemma CapturedField(text: string, key: string, s: nat, bound: nat, g: Span)
    requires s <= |text| && bound <= |text| && LabelColonAt(text, key, s)
    requires CaptureAt(text, s + |key| + 1, bound) == Some(g)
    ensures FieldShape(text, key, Found(s, g, g.end))
  {
  }

  lemma BlockOfLast(text: string, keys: seq<string>, f: Found)
    requires |keys| == 1 && FieldShape(text, keys[0], f)
    ensures BlockShape(text, keys, [f])
  {
  }

  /** A field followed, at or after its end, by the later fields is a longer block. */
  lemma BlockCons(text: string, keys: seq<string>, f: Found, rest: seq<Found>)
    requires |keys| >= 2 && FieldShape(text, keys[0], f) && BlockShape(text, keys[1..], rest)
    requires f.end <= rest[0].at
    ensures BlockShape(text, keys, [f] + rest)
  {
    var r := [f] + rest;
    assert forall k :: 0 < k < |r| ==> r[k] == rest[k - 1] && keys[k] == keys[1..][k - 1];
  }

  /** The first index at or after `lo` where the pattern for `keys` matches: the
      search a global `exec` makes from `lastIndex`. */
  function FirstStart(text: string, keys: seq<string>, lo: nat): (r: Option<nat>)
    requires keys != [] && lo <= |text|
    ensures r.Some? ==> lo <= r.value <= |text| && MatchesAt(text, keys, r.value)
    ensures r.Some? ==> forall j :: lo <= j < r.value ==> !MatchesAt(text, keys, j)
    ensures r.None? ==> forall j :: lo <= j <= |text| ==> !MatchesAt(text, keys, j)
  {
    var ok := (j: nat) => MatchesAt(text, keys, j);
    assert forall j: nat :: ok(j) == MatchesAt(text, keys, j);
    FirstWhere(|text|, ok, lo)
  }

  /** The engine finds a match for `keys` at `s` whenever the pattern admits one there:
      the matcher misses no block. */
  lemma {:induction false} SuffixComplete(text: string, keys: seq<string>, fs: seq<Found>)
    requires keys != [] && BlockShape(text, keys, fs)
    ensures SuffixAt(text, keys, fs[0].at).Some?
    decreases |keys|
  {
    var f := fs[0];
    var c := f.at + |keys[0]| + 1;
    assert FieldShape(text, keys[0], f);
    assert text[f.group.start] != '\n';
    if |keys| > 1 {
      var tail, rest := keys[1..], fs[1..];
      BlockTail(text, keys, fs);
      SuffixComplete(text, tail, rest);
      assert SuffixAt(text, keys, f.at) == LaterFields(text, keys, f.at);
      var ok := (j: nat) => j <= |text| && SuffixAt(text, tail, j).Some?;
      assert ok(rest[0].at);
      var last := LastWhere(|text|, ok);
      assert last.Some? && rest[0].at <= last.value;
      var g := CaptureAt(text, c, last.value);
      assert g.Some?;
      assert FirstWhere(|text|, ok, g.value.end).Some?;
    }
  }

  /** Dropping the first field of a block leaves a block of the later fields. */
  lemma BlockTail(text: string, keys: seq<string>, fs: seq<Found>)
    requires |keys| >= 2 && BlockShape(text, keys, fs)
    ensures BlockShape(text, keys[1..], fs[1..]) && fs[0].end <= fs[1].at
  {
    assert forall k :: 0 <= k < |fs| - 1 ==> fs[1..][k] == fs[k + 1] && keys[1..][k] == keys[k + 1];
  }

  /** The whole match ends after it starts, within the text. */
  lemma BlockEnds(text: string, fs: seq<Found>)
    requires BlockShape(text, CaseLabels, fs)
    ensures fs[0].at < fs[0].end <= fs[1].at < fs[1].end <= fs[2].at < fs[2].end
      <= fs[3].at < fs[3].end <= |text|
  {
    assert FieldShape(text, CaseLabels[0], fs[0]) && FieldShape(text, CaseLabels[1], fs[1]);
    assert FieldShape(text, CaseLabels[2], fs[2]) && FieldShape(text, CaseLabels[3], fs[3]);
  }

  /** The matches of the global pattern from `from` on: each search starts where the
      previous match ended. */
  function BlocksFrom(text: string, from: nat): (r: seq<seq<Found>>)
    requires from <= |text|
    decreases |text| - from
    ensures forall k :: 0 <= k < |r| ==> |r[k]| == 4 && BlockShape(text, CaseLabels, r[k]) && from <= r[k][0].at
    ensures forall k :: 0 <= k < |r| - 1 ==> r[k][3].end <= r[k + 1][0].at
  {
    match FirstStart(text, CaseLabels, from)
    case None => []
    case Some(i) =>
      var fs := SuffixAt(text, CaseLabels, i).value;
      BlockEnds(text, fs);
      var rest := BlocksFrom(text, fs[3].end);
      BlocksPrepend(text, CaseLabels, from, fs, rest);
      [fs] + rest
  }

  /** A block followed by blocks that start after it are blocks in order. */
  lemma BlocksPrepend(text: string, keys: seq<string>, from: nat, fs: seq<Found>, rest: seq<seq<Found>>)
    requires |keys| == 4 && |fs| == 4 && BlockShape(text, keys, fs) && from <= fs[0].at <= fs[3].end
    requires forall k :: 0 <= k < |rest| ==>
      |rest[k]| == 4 && BlockShape(text, keys, rest[k]) && fs[3].end <= rest[k][0].at
    requires forall k :: 0 <= k < |rest| - 1 ==> rest[k][3].end <= rest[k + 1][0].at
    ensures var r := [fs] + rest;
      && (forall k :: 0 <= k < |r| ==> |r[k]| == 4 && BlockShape(text, keys, r[k]) && from <= r[k][0].at)
      && (forall k :: 0 <= k < |r| - 1 ==> r[k][3].end <= r[k + 1][0].at)
  {
    var r: seq<seq<Found>> := [fs] + rest;
    forall k | 0 < k < |r| ensures r[k] == rest[k - 1] {
    }
    forall k | 0 <= k < |r| - 1 ensures r[k][3].end <= r[k + 1][0].at {
      if k > 0 {
        assert r[k] == rest[k - 1] && r[k + 1] == rest[k];
      }
    }
  }

  /** One step of the global search: the first match from `from` on, then the matches
      after it. */
  lemma BlocksFromStep(text: string, from: nat, i: nat)
    requires from <= |text| && FirstStart(text, CaseLabels, from) == Some(i)
    ensures var fs := SuffixAt(text, CaseLabels, i).value;
      && |fs| == 4 && from < fs[3].end <= |text|
      && BlocksFrom(text, from) == [fs] + BlocksFrom(text, fs[3].end)
  {
    BlockEnds(text, SuffixAt(text, CaseLabels, i).value);
  }

  /** The cases of a block and the blocks after it. */
  lemma CasesOfCons(text: string, fs: seq<Found>, bs: seq<seq<Found>>)
    requires |fs| == 4 && forall k :: 0 <= k < |bs| ==> |bs[k]| == 4
    ensures forall k :: 0 <= k < |[fs] + bs| ==> |([fs] + bs)[k]| == 4
    ensures CasesOf(text, [fs] + bs) == [CaseOf(text, fs)] + CasesOf(text, bs)
  {
    var r := [fs] + bs;
    forall k | 0 < k < |r| ensures r[k] == bs[k - 1] {
    }
    var lhs, rhs := CasesOf(text, r), [CaseOf(text, fs)] + CasesOf(text, bs);
    forall k | 0 <= k < |r| ensures lhs[k] == rhs[k] {
      if k > 0 {
        assert rhs[k] == CasesOf(text, bs)[k - 1];
      }
    }
  }

  lemma ConcatAssoc<T>(a: seq<T>, b: seq<T>, c: seq<T>)
    ensures (a + b) + c == a + (b + c)
  {
  }

  /** The search finds the leftmost block: no way of matching the pattern starts
      between `from` and the match found, and none at all when nothing is found. */
  lemma FirstStartLeftmost(text: string, from: nat)
    requires from <= |text|
    ensures forall fs: seq<Found> :: BlockShape(text, CaseLabels, fs) && from <= fs[0].at ==>
      FirstStart(text, CaseLabels, from).Some? && FirstStart(text, CaseLabels, from).value <= fs[0].at
  {
    forall fs: seq<Found> | BlockShape(text, CaseLabels, fs) && from <= fs[0].at
      ensures FirstStart(text, CaseLabels, from).Some? && FirstStart(text, CaseLabels, from).value <= fs[0].at
    {
      SuffixComplete(text, CaseLabels, fs);
      assert MatchesAt(text, CaseLabels, fs[0].at);
    }
  }

  /** No way of matching the pattern starts in `[lo, hi)`. */
  ghost predicate NoBlockIn(text: string, lo: nat, hi: nat) {
    forall fs: seq<Found> :: BlockShape(text, CaseLabels, fs) && lo <= fs[0].at ==> hi <= fs[0].at
  }

  /** The global search skips nothing before its first match: when it finds none, no
      block starts from `from` on, and otherwise none starts before the first. */
  lemma BlocksNoneBefore(text: string, from: nat)
    requires from <= |text|
    ensures var r := BlocksFrom(text, from);
      && (r == [] ==> NoBlockIn(text, from, |text| + 1))
      && (r != [] ==> NoBlockIn(text, from, r[0][0].at))
  {
    FirstStartLeftmost(text, from);
    match FirstStart(text, CaseLabels, from)
    case None =>
    case Some(i) =>
      BlocksFromStep(text, from, i);
  }

  /** Nor after its last match. */
  lemma {:induction false} BlocksNoneAfter(text: string, from: nat)
    requires from <= |text|
    decreases |text| - from
    ensures var r := BlocksFrom(text, from);
      r != [] ==> NoBlockIn(text, r[|r| - 1][3].end, |text| + 1)
  {
    match FirstStart(text, CaseLabels, from)
    case None =>
    case Some(i) =>
      BlocksFromStep(text, from, i);
      var fs := SuffixAt(text, CaseLabels, i).value;
      var rest := BlocksFrom(text, fs[3].end);
      if rest == [] {
        BlocksNoneBefore(text, fs[3].end);
      } else {
        BlocksNoneAfter(text, fs[3].end);
        LastOfCons(fs, rest);
      }
  }

  /** Nor between two consecutive matches: each search resumes at the previous end and
      finds the leftmost block from there. */
  lemma {:induction false} BlocksNoneBetween(text: string, from: nat)
    requires from <= |text|
    decreases |text| - from
    ensures var r := BlocksFrom(text, from);
      forall k :: 0 <= k < |r| - 1 ==> NoBlockIn(text, r[k][3].end, r[k + 1][0].at)
  {
    match FirstStart(text, CaseLabels, from)
    case None =>
    case Some(i) =>
      BlocksFromStep(text, from, i);
      var fs := SuffixAt(text, CaseLabels, i).value;
      var r: seq<seq<Found>>, rest: seq<seq<Found>> := BlocksFrom(text, from), BlocksFrom(text, fs[3].end);
      BlocksNoneBetween(text, fs[3].end);
      BlocksNoneBefore(text, fs[3].end);
      NoBlockBetweenCons(text, fs, rest);
  }

  /** The gaps of a block followed by blocks: the gap after the block, then theirs. */
  lemma NoBlockBetweenCons(text: string, fs: seq<Found>, rest: seq<seq<Found>>)
    requires |fs| == 4 && forall k :: 0 <= k < |rest| ==> |rest[k]| == 4
    requires rest != [] ==> NoBlockIn(text, fs[3].end, rest[0][0].at)
    requires forall k :: 0 <= k < |rest| - 1 ==> NoBlockIn(text, rest[k][3].end, rest[k + 1][0].at)
    ensures var r: seq<seq<Found>> := [fs] + rest;
      forall k :: 0 <= k < |r| - 1 ==> NoBlockIn(text, r[k][3].end, r[k + 1][0].at)
  {
    var r: seq<seq<Found>> := [fs] + rest;
    forall k | 0 <= k < |r| - 1 ensures NoBlockIn(text, r[k][3].end, r[k + 1][0].at) {
      if k == 0 {
        assert r[0] == fs && r[1] == rest[0];
      } else {
        assert r[k] == rest[k - 1] && r[k + 1] == rest[k];
      }
    }
  }

  /** One entry of the result: the four groups as captured (not trimmed). */
  datatype Case = Case(projectId: string, vehicleId: string, environmentId: string,
                       timestampStr: string)

  /** The text a field's group captured. */
  function GroupText(text: string, f: Found): string {
    if f.group.start <= f.group.end <= |text| then text[f.group.start..f.group.end] else []
  }

  /** The case a block describes: `{ projectId, vehicleId, environmentId, timestampStr }`
      from the match's four groups. */
  function CaseOf(text: string, fs: seq<Found>): Case
    requires |fs| == 4
  {
    Case(GroupText(text, fs[0]), GroupText(text, fs[1]), GroupText(text, fs[2]), GroupText(text, fs[3]))
  }

  /** Every field of a matched block is a non-empty line fragment. */
  lemma CaseOfFields(text: string, fs: seq<Found>)
    requires BlockShape(text, CaseLabels, fs)
    ensures FieldsOnOneLine(CaseOf(text, fs))
  {
    GroupLine(text, CaseLabels[0], fs[0]);
    GroupLine(text, CaseLabels[1], fs[1]);
    GroupLine(text, CaseLabels[2], fs[2]);
    GroupLine(text, CaseLabels[3], fs[3]);
  }

  lemma GroupLine(text: string, key: string, f: Found)
    requires FieldShape(text, key, f)
    ensures GroupText(text, f) != [] && '\n' !in GroupText(text, f)
  {
    var g := GroupText(text, f);
    assert forall k :: 0 <= k < |g| ==> g[k] == text[f.group.start + k];
  }

  /** The cases of a sequence of blocks, in order. */
  function CasesOf(text: string, bs: seq<seq<Found>>): (cs: seq<Case>)
    requires forall k :: 0 <= k < |bs| ==> |bs[k]| == 4
    ensures |cs| == |bs|
    ensures forall k :: 0 <= k < |bs| ==> cs[k] == CaseOf(text, bs[k])
  {
    seq(|bs|, k requires 0 <= k < |bs| => CaseOf(text, bs[k]))
  }

  /** A case is a line fragment per field: every field non-empty and without `\n`. */
  ghost predicate FieldsOnOneLine(c: Case) {
    c.projectId != [] && c.vehicleId != [] && c.environmentId != [] && c.timestampStr != []
    && '\n' !in c.projectId && '\n' !in c.vehicleId
    && '\n' !in c.environmentId && '\n' !in c.timestampStr
  }

  /** Every case found from `from` on has its fields on one line each. */
  lemma CasesOnOneLine(text: string, from: nat)
    requires from <= |text|
    ensures var cs := CasesOf(text, BlocksFrom(text, from));
      forall k :: 0 <= k < |cs| ==> FieldsOnOneLine(cs[k])
  {
    var bs := BlocksFrom(text, from);
    forall k | 0 <= k < |bs| ensures FieldsOnOneLine(CaseOf(text, bs[k])) {
      CaseOfFields(text, bs[k]);
    }
  }

  /** `extractCases(text)`: runs the global pattern's `exec` until it fails, collecting
      the cases in the order found. */
  method ExtractCases(text: string) returns (cases: seq<Case>)
    ensures cases == CasesOf(text, BlocksFrom(text, 0))
    ensures forall k :: 0 <= k < |cases| ==> FieldsOnOneLine(cases[k])
  {
    cases := [];
    var lastIndex := 0;
    var found := FirstStart(text, CaseLabels, lastIndex);
    while found.Some?
      invariant lastIndex <= |text|
      invariant found == FirstStart(text, CaseLabels, lastIndex)
      invariant cases + CasesOf(text, BlocksFrom(text, lastIndex)) == CasesOf(text, BlocksFrom(text, 0))
      decreases |text| - lastIndex
    {
      var fs := SuffixAt(text, CaseLabels, found.value).value;
      BlocksFromStep(text, lastIndex, found.value);
      var later := CasesOf(text, BlocksFrom(text, fs[3].end));
      CasesOfCons(text, fs, BlocksFrom(text, fs[3].end));
      ConcatAssoc(cases, [CaseOf(text, fs)], later);
      cases := cases + [CaseOf(text, fs)];
      lastIndex := fs[3].end;
      found := FirstStart(text, CaseLabels, lastIndex);
    }
    CasesOnOneLine(text, 0);
  }
}
