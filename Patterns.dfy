/**
 * The regular expressions of the content script, each matched by hand with the
 * result the backtracking engine gives: which occurrence is found first and which
 * text each capture group holds. `ExtractField` is the script's `extractField`;
 * `AllMatches` is `matchAll` with the global flag.
 */
module Patterns {
  import opened Options
  import opened Chars
  import opened Text
  import opened TimeWindow

  /** A capture group's position: `text[start..end]`. */
  datatype Span = Span(start: nat, end: nat)

  /** A match: where it starts, the span of its one capture group and where it ends. */
  datatype Found = Found(at: nat, group: Span, end: nat)

  predicate ValidSpan(text: string, sp: Span) {
    sp.start <= sp.end <= |text|
  }

  function Slice(text: string, sp: Span): string
    requires ValidSpan(text, sp)
  {
    text[sp.start..sp.end]
  }

  /** `String.prototype.trim`. */
  function Trim(s: string): (r: string)
    ensures SliceBetweenSpaces(s, r, Js)
    ensures r == [] <==> forall k :: 0 <= k < |s| ==> IsJsSpace(s[k])
    ensures forall c :: c in r ==> c in s
    ensures r == [] || (!IsJsSpace(r[0]) && !IsJsSpace(r[|r| - 1]))
  {
    StripSlice(s, Js);
    Strip(s, Js)
  }

  /** Every character of `text[lo..hi]` is matched by `\s`. */
  ghost predicate SpacesBetween(text: string, lo: nat, hi: nat)
    requires lo <= hi <= |text|
  {
    forall k :: lo <= k < hi ==> IsJsSpace(text[k])
  }

  /** No character of `text[lo..hi]` is `\n`: the text lies on one line. */
  ghost predicate OnOneLine(text: string, lo: nat, hi: nat)
    requires lo <= hi <= |text|
  {
    forall k :: lo <= k < hi ==> text[k] != '\n'
  }

  /** Where a greedy `\s*` started at `c` stops. */
  function SkipSpaces(text: string, c: nat): (r: nat)
    requires c <= |text|
    decreases |text| - c
    ensures c <= r <= |text|
    ensures SpacesBetween(text, c, r)
    ensures r == |text| || !IsJsSpace(text[r])
  {
    if c < |text| && IsJsSpace(text[c]) then SkipSpaces(text, c + 1) else c
  }

  /** Where a greedy `[^\n]*` started at `s` stops: the next `\n`, or the end of the text. */
  function LineEnd(text: string, s: nat): (r: nat)
    requires s <= |text|
    decreases |text| - s
    ensures s <= r <= |text|
    ensures OnOneLine(text, s, r)
    ensures r == |text| || text[r] == '\n'
  {
    if s < |text| && text[s] != '\n' then LineEnd(text, s + 1) else s
  }

  /** The largest index in `[lo, hi)` whose character is not `\n`. */
  function LastNonNewline(text: string, lo: nat, hi: nat): (r: Option<nat>)
    requires lo <= hi <= |text|
    decreases hi - lo
    ensures r.Some? ==> lo <= r.value < hi && text[r.value] != '\n'
    ensures r.Some? ==> forall k :: r.value < k < hi ==> text[k] == '\n'
    ensures r.None? ==> forall k :: lo <= k < hi ==> text[k] == '\n'
  {
    if lo == hi then None
    else if text[hi - 1] != '\n' then Some(hi - 1)
    else LastNonNewline(text, lo, hi - 1)
  }

  function Min(a: nat, b: nat): nat {
    if a <= b then a else b
  }

  /**
   * What `\s*([^\n]+)` captures when tried at `c`, given that the rest of the pattern
   * can succeed only if the group ends at or before `bound` (the text's length when
   * nothing follows). The engine tries the longest `\s*` first and, for each, the
   * longest group, so the group starts at the last admissible position and reaches
   * to the end of its line or to `bound`.
   */
  function CaptureAt(text: string, c: nat, bound: nat): (r: Option<Span>)
    requires c <= |text| && bound <= |text|
    ensures r.Some? ==> c <= r.value.start < r.value.end <= bound
    ensures r.Some? ==> SpacesBetween(text, c, r.value.start)
    ensures r.Some? ==> OnOneLine(text, r.value.start, r.value.end)
    ensures r.Some? ==> r.value.end == bound || text[r.value.end] == '\n'
    ensures r.Some? ==> forall s :: r.value.start < s < bound && SpacesBetween(text, c, s) ==> text[s] == '\n'
    ensures r.None? ==> forall s :: c <= s < bound && SpacesBetween(text, c, s) ==> text[s] == '\n'
  {
    var e := SkipSpaces(text, c);
    var hi := Min(if e < |text| then e + 1 else e, bound);
    if hi < c then None
    else
      match LastNonNewline(text, c, hi)
      case None => None
      case Some(s) => Some(Span(s, Min(LineEnd(text, s), bound)))
  }

  /** White space from `c` reaches a character other than `\n`: where `\s*([^\n]+)`
      tried at `c` can match when nothing follows it. */
  ghost predicate ContentAfterSpaces(text: string, c: nat)
    requires c <= |text|
  {
    exists s :: c <= s < |text| && SpacesBetween(text, c, s) && text[s] != '\n'
  }

  /** `sp` is what `\s*([^\n]+)` tried at `c` captures when nothing follows it: the last
      character other than `\n` that white space from `c` reaches, up to the end of its
      line. */
  ghost predicate LineCapture(text: string, c: nat, sp: Span)
    requires c <= |text|
  {
    && c <= sp.start < sp.end <= |text|
    && SpacesBetween(text, c, sp.start)
    && OnOneLine(text, sp.start, sp.end)
    && (sp.end == |text| || text[sp.end] == '\n')
    && (forall s :: sp.start < s < |text| && SpacesBetween(text, c, s) ==> text[s] == '\n')
  }

  /** Without a bound, `CaptureAt` succeeds exactly where `\s*([^\n]+)` can match, and
      captures the group `LineCapture` describes. */
  lemma CaptureToLineEnd(text: string, c: nat)
    requires c <= |text|
    ensures CaptureAt(text, c, |text|).Some? <==> ContentAfterSpaces(text, c)
    ensures CaptureAt(text, c, |text|).Some? ==> LineCapture(text, c, CaptureAt(text, c, |text|).value)
  {
    var r := CaptureAt(text, c, |text|);
    if r.Some? {
      assert text[r.value.start] != '\n';
    }
  }

  /** White space from `c` reaches `q` only inside the run `SkipSpaces` crosses, and a
      character other than white space there ends the run. */
  lemma SpacesReachSkip(text: string, c: nat, q: nat)
    requires c <= q <= |text| && SpacesBetween(text, c, q)
    ensures q <= SkipSpaces(text, c)
    ensures q < |text| && !IsJsSpace(text[q]) ==> q == SkipSpaces(text, c)
  {
  }

  /** `label[:：]` occurs at `i`, the label being `key`. */
  predicate LabelColonAt(text: string, key: string, i: nat) {
    HasAt(text, key, i) && i + |key| < |text| && IsColon(text[i + |key|])
  }

  const FileIdLabel: string := "File ID"
  const AreaMapLabel: string := "Area Map"
  const AreaMapName: string := "Shiojiri_Lv4"
  /** 発生時刻, "occurred at". */
  const OccurredAtLabel: string := "\U{767A}\U{751F}\U{6642}\U{523B}"

  /** The patterns the script matches fields with. */
  datatype Pattern =
    | Labelled(key: string)  // <key>[:：]\s*([^\n]+)
    | FileId                   // File ID\s*\n\s*([^\n]+)
    | AreaMap                  // Area Map\s*\n\s*Shiojiri_Lv4\s*\((.*?)\)
    | OccurredAt               // 発生時刻[:：]\s*\[?([0-9]{4}-...-[0-9]{2}:[0-9]{2}:[0-9]{2})

  /** Where `<key>[:：]\s*([^\n]+)` matches: the label and a colon at `i`, then white
      space up to a character other than `\n`. */
  ghost predicate LabelledMatches(text: string, key: string, i: nat) {
    LabelColonAt(text, key, i) && ContentAfterSpaces(text, i + |key| + 1)
  }

  /** White space from `c` reaches a `\n` at `p`. */
  ghost predicate SpacedNewline(text: string, c: nat, p: nat) {
    c <= p < |text| && SpacesBetween(text, c, p) && text[p] == '\n'
  }

  /** `\s*\n\s*([^\n]+)` can match from `c`: white space holding a `\n`, then white
      space up to a character other than `\n`. */
  ghost predicate NewlineThenContent(text: string, c: nat) {
    exists p: nat :: SpacedNewline(text, c, p) && ContentAfterSpaces(text, p + 1)
  }

  /** `sp` is what `\s*\n\s*([^\n]+)` from `c` can capture: the group `LineCapture`
      describes, after some `\n` that white space from `c` reaches. */
  ghost predicate NewlineCapture(text: string, c: nat, sp: Span) {
    exists p: nat :: SpacedNewline(text, c, p) && LineCapture(text, p + 1, sp)
  }

  /** Where `File ID\s*\n\s*([^\n]+)` matches. */
  ghost predicate FileIdMatches(text: string, i: nat) {
    HasAt(text, FileIdLabel, i) && NewlineThenContent(text, i + |FileIdLabel|)
  }

  /** A `)` follows `p` with no line terminator before it: what `(.*?)\)` needs. */
  ghost predicate ClosesOnLine(text: string, p: nat) {
    exists q :: p <= q < |text| && text[q] == ')' && forall k :: p <= k < q ==> !IsJsLineTerminator(text[k])
  }

  /** `\s*\((.*?)\)` can match from `a`. */
  ghost predicate ParenGroupFrom(text: string, a: nat)
    requires a <= |text|
  {
    exists o :: a <= o < |text| && SpacesBetween(text, a, o) && text[o] == '(' && ClosesOnLine(text, o + 1)
  }

  /** `\s*\n\s*Shiojiri_Lv4\s*\((.*?)\)` can match from `c`. */
  ghost predicate AreaMapFrom(text: string, c: nat)
    requires c <= |text|
  {
    exists e :: c <= e <= |text| && SpacesBetween(text, c, e) && '\n' in text[c..e]
      && HasAt(text, AreaMapName, e) && ParenGroupFrom(text, e + |AreaMapName|)
  }

  /** Where `Area Map\s*\n\s*Shiojiri_Lv4\s*\((.*?)\)` matches. */
  ghost predicate AreaMapMatches(text: string, i: nat) {
    HasAt(text, AreaMapLabel, i) && AreaMapFrom(text, i + |AreaMapLabel|)
  }

  predicate TimestampShapeAt(text: string, p: nat) {
    p + 19 <= |text| && IsTimestampShape(text[p..p + 19])
  }

  /** What `\[?([0-9]{4}-...:[0-9]{2})` can match at `p`: a timestamp, with or without
      a `[` before it. */
  predicate TimestampOrBracketAt(text: string, p: nat) {
    TimestampShapeAt(text, p) || (p < |text| && text[p] == '[' && TimestampShapeAt(text, p + 1))
  }

  /** Where `発生時刻[:：]\s*\[?(<timestamp>)` matches. */
  ghost predicate OccurredAtMatches(text: string, i: nat) {
    LabelColonAt(text, OccurredAtLabel, i)
    && exists p: nat :: (i + |OccurredAtLabel| + 1 <= p <= |text|
      && SpacesBetween(text, i + |OccurredAtLabel| + 1, p) && TimestampOrBracketAt(text, p))
  }

  /** Where `pat` matches at `i`, stated on the text alone. */
  ghost predicate Matches(text: string, pat: Pattern, i: nat) {
    match pat
    case Labelled(key) => LabelledMatches(text, key, i)
    case FileId => FileIdMatches(text, i)
    case AreaMap => AreaMapMatches(text, i)
    case OccurredAt => OccurredAtMatches(text, i)
  }

  /** `\n\s*([^\n]+)` after the label's `\s*`, which has crossed `text[lo..hi)`: the
      engine settles on the last `\n` there for which the rest succeeds. */
  function NewlineThenCapture(text: string, lo: nat, hi: nat): (r: Option<Span>)
    requires lo <= hi <= |text|
    decreases hi - lo
    ensures r.Some? ==> lo < r.value.start < r.value.end <= |text|
    ensures r.Some? ==> OnOneLine(text, r.value.start, r.value.end)
  {
    if lo == hi then None
    else if text[hi - 1] == '\n' && CaptureAt(text, hi, |text|).Some? then CaptureAt(text, hi, |text|)
    else NewlineThenCapture(text, lo, hi - 1)
  }

  /** The `\n` `NewlineThenCapture` settles on is one white space reaches; when it
      finds none, no such `\n` is followed by content. */
  lemma {:induction false} NewlineThenCaptureSpec(text: string, lo: nat, hi: nat)
    requires lo <= hi <= |text| && SpacesBetween(text, lo, hi)
    decreases hi - lo
    ensures var r := NewlineThenCapture(text, lo, hi);
      && (r.Some? ==> exists p: nat :: p < hi && SpacedNewline(text, lo, p) && LineCapture(text, p + 1, r.value))
      && (r.None? ==> forall p: nat :: p < hi && SpacedNewline(text, lo, p) ==> !ContentAfterSpaces(text, p + 1))
  {
    if lo < hi {
      CaptureToLineEnd(text, hi);
      if text[hi - 1] == '\n' && CaptureAt(text, hi, |text|).Some? {
        assert SpacedNewline(text, lo, hi - 1);
      } else {
        NewlineThenCaptureSpec(text, lo, hi - 1);
      }
    }
  }

  /** The first index at or after `p` holding `)` or a line terminator, or the text's length. */
  function CloseOrLineEnd(text: string, p: nat): (r: nat)
    requires p <= |text|
    decreases |text| - p
    ensures p <= r <= |text|
    ensures forall k :: p <= k < r ==> text[k] != ')' && !IsJsLineTerminator(text[k])
    ensures r < |text| ==> text[r] == ')' || IsJsLineTerminator(text[r])
  {
    if p < |text| && text[p] != ')' && !IsJsLineTerminator(text[p]) then CloseOrLineEnd(text, p + 1) else p
  }

  /** The lazy group closes at the first `)` or line terminator, and the match needs
      the former. */
  lemma ClosesOnLineIff(text: string, p: nat)
    requires p <= |text|
    ensures ClosesOnLine(text, p) <==> CloseOrLineEnd(text, p) < |text| && text[CloseOrLineEnd(text, p)] == ')'
  {
    var q := CloseOrLineEnd(text, p);
    if ClosesOnLine(text, p) {
      var q' :| p <= q' < |text| && text[q'] == ')' && forall k :: p <= k < q' ==> !IsJsLineTerminator(text[k]);
      assert q <= q';
    }
  }

  /** The white space before `(` is all of it. */
  lemma ParenGroupIff(text: string, a: nat)
    requires a <= |text|
    ensures ParenGroupFrom(text, a) <==>
      var o := SkipSpaces(text, a); o < |text| && text[o] == '(' && ClosesOnLine(text, o + 1)
  {
    if ParenGroupFrom(text, a) {
      var o :| a <= o < |text| && SpacesBetween(text, a, o) && text[o] == '(' && ClosesOnLine(text, o + 1);
      SpacesReachSkip(text, a, o);
    }
  }

  /** The white space before the map name is all of it, since the name does not start
      with white space. */
  lemma AreaMapFromIff(text: string, c: nat)
    requires c <= |text|
    ensures AreaMapFrom(text, c) <==>
      var e := SkipSpaces(text, c);
      '\n' in text[c..e] && HasAt(text, AreaMapName, e) && ParenGroupFrom(text, e + |AreaMapName|)
  {
    if AreaMapFrom(text, c) {
      var e :| c <= e <= |text| && SpacesBetween(text, c, e) && '\n' in text[c..e]
        && HasAt(text, AreaMapName, e) && ParenGroupFrom(text, e + |AreaMapName|);
      assert text[e] == AreaMapName[0];
      SpacesReachSkip(text, c, e);
    }
  }

  /** A timestamp, or `[`, is not white space, so only the longest `\s*` can reach it. */
  lemma OccurredAtFromSkip(text: string, c: nat)
    requires c <= |text|
    ensures (exists p: nat :: c <= p <= |text| && SpacesBetween(text, c, p) && TimestampOrBracketAt(text, p))
      <==> TimestampOrBracketAt(text, SkipSpaces(text, c))
  {
    forall p | c <= p <= |text| && SpacesBetween(text, c, p) && TimestampOrBracketAt(text, p)
      ensures p == SkipSpaces(text, c)
    {
      if TimestampShapeAt(text, p) {
        assert text[p] == text[p..p + 19][0];
      }
      SpacesReachSkip(text, c, p);
    }
  }

  /** `<key>[:：]\s*([^\n]+)` at `i`. */
  function LabelledAt(text: string, key: string, i: nat): (r: Option<Found>)
    requires i <= |text|
    ensures r.Some? ==> r.value.at == i
    ensures r.Some? ==> i < r.value.group.start < r.value.group.end == r.value.end <= |text|
    ensures r.Some? ==> OnOneLine(text, r.value.group.start, r.value.group.end)
  {
    if LabelColonAt(text, key, i) then
      match CaptureAt(text, i + |key| + 1, |text|)
      case None => None
      case Some(sp) => Some(Found(i, sp, sp.end))
    else None
  }

  /** `LabelledAt` finds a match exactly where the pattern matches, and its group is the
      rest of the line from the last non-`\n` character the white space reaches. */
  lemma LabelledAtMatches(text: string, key: string, i: nat)
    requires i <= |text|
    ensures LabelledAt(text, key, i).Some? <==> LabelledMatches(text, key, i)
    ensures LabelledAt(text, key, i).Some? ==> LineCapture(text, i + |key| + 1, LabelledAt(text, key, i).value.group)
  {
    if LabelColonAt(text, key, i) {
      CaptureToLineEnd(text, i + |key| + 1);
    }
  }

  /** `File ID\s*\n\s*([^\n]+)` at `i`. */
  function FileIdAt(text: string, i: nat): (r: Option<Found>)
    requires i <= |text|
    ensures r.Some? ==> r.value.at == i
    ensures r.Some? ==> i < r.value.group.start < r.value.group.end == r.value.end <= |text|
    ensures r.Some? ==> OnOneLine(text, r.value.group.start, r.value.group.end)
  {
    if HasAt(text, FileIdLabel, i) then
      var c := i + |FileIdLabel|;
      match NewlineThenCapture(text, c, SkipSpaces(text, c))
      case None => None
      case Some(sp) => Some(Found(i, sp, sp.end))
    else None
  }

  /** `FileIdAt` finds a match exactly where the pattern matches, and captures a line's
      rest after a `\n` of the white space. */
  lemma FileIdAtMatches(text: string, i: nat)
    requires i <= |text|
    ensures FileIdAt(text, i).Some? <==> FileIdMatches(text, i)
    ensures FileIdAt(text, i).Some? ==> NewlineCapture(text, i + |FileIdLabel|, FileIdAt(text, i).value.group)
  {
    if HasAt(text, FileIdLabel, i) {
      var c := i + |FileIdLabel|;
      var e := SkipSpaces(text, c);
      NewlineThenCaptureSpec(text, c, e);
      forall p: nat | SpacedNewline(text, c, p) ensures p < e {
        assert SpacesBetween(text, c, p + 1);
        SpacesReachSkip(text, c, p + 1);
      }
    }
  }

  /** `\s*\((.*?)\)` from `a`: the lazy group follows the `(` and ends at the first `)`;
      it fails at a line terminator, which `.` does not match. */
  function ParenGroupAt(text: string, a: nat): (r: Option<Span>)
    requires a <= |text|
    ensures r.Some? ==> a < r.value.start <= r.value.end < |text|
    ensures r.Some? ==> text[r.value.start - 1] == '(' && text[r.value.end] == ')'
    ensures r.Some? ==> forall k :: r.value.start <= k < r.value.end ==>
      text[k] != ')' && !IsJsLineTerminator(text[k])
  {
    var o := SkipSpaces(text, a);
    if o == |text| || text[o] != '(' then None
    else
      var q := CloseOrLineEnd(text, o + 1);
      if q < |text| && text[q] == ')' then Some(Span(o + 1, q)) else None
  }

  /** `ParenGroupAt` finds a group exactly where `\s*\((.*?)\)` can match. */
  lemma ParenGroupAtMatches(text: string, a: nat)
    requires a <= |text|
    ensures ParenGroupAt(text, a).Some? <==> ParenGroupFrom(text, a)
  {
    ParenGroupIff(text, a);
    var o := SkipSpaces(text, a);
    if o < |text| {
      ClosesOnLineIff(text, o + 1);
    }
  }

  /** `Area Map\s*\n\s*Shiojiri_Lv4\s*\((.*?)\)` at `i`. Whichever `\n` of the white
      space after the label the engine picks, the `\s*` after it stops at the same
      place, so only the existence of a `\n` there matters. */
  function AreaMapAt(text: string, i: nat): (r: Option<Found>)
    requires i <= |text|
    ensures r.Some? ==> r.value.at == i
    ensures r.Some? ==> i < r.value.group.start <= r.value.group.end < r.value.end <= |text|
    ensures r.Some? ==> text[r.value.group.start - 1] == '('
    ensures r.Some? ==> r.value.end == r.value.group.end + 1 && text[r.value.group.end] == ')'
    ensures r.Some? ==> forall k :: r.value.group.start <= k < r.value.group.end ==>
      text[k] != ')' && !IsJsLineTerminator(text[k])
  {
    if !HasAt(text, AreaMapLabel, i) then None
    else
      var c := i + |AreaMapLabel|;
      var e := SkipSpaces(text, c);
      if '\n' !in text[c..e] || !HasAt(text, AreaMapName, e) then None
      else
        match ParenGroupAt(text, e + |AreaMapName|)
        case None => None
        case Some(g) => Some(Found(i, g, g.end + 1))
  }

  /** `AreaMapAt` finds a match exactly where the pattern matches. */
  lemma AreaMapAtMatches(text: string, i: nat)
    requires i <= |text|
    ensures AreaMapAt(text, i).Some? <==> AreaMapMatches(text, i)
  {
    if HasAt(text, AreaMapLabel, i) {
      var c := i + |AreaMapLabel|;
      var e := SkipSpaces(text, c);
      AreaMapFromIff(text, c);
      if '\n' in text[c..e] && HasAt(text, AreaMapName, e) {
        ParenGroupAtMatches(text, e + |AreaMapName|);
      }
    }
  }

  /** `発生時刻[:：]\s*\[?(<timestamp>)` at `i`. A shorter `\s*` would leave white space
      where `\[?` or a digit must come, so only the longest one can succeed; `\[?`
      takes the bracket when the timestamp follows it. */
  function OccurredAtAt(text: string, i: nat): (r: Option<Found>)
    requires i <= |text|
    ensures r.Some? ==> r.value.at == i
    ensures r.Some? ==> i < r.value.group.start < r.value.group.end == r.value.end <= |text|
    ensures r.Some? ==> IsTimestampShape(Slice(text, r.value.group))
    ensures r.Some? ==> OnOneLine(text, r.value.group.start, r.value.group.end)
  {
    if !LabelColonAt(text, OccurredAtLabel, i) then None
    else
      var e := SkipSpaces(text, i + |OccurredAtLabel| + 1);
      if e < |text| && text[e] == '[' && TimestampShapeAt(text, e + 1) then
        ShapeOnOneLine(text, e + 1);
        Some(Found(i, Span(e + 1, e + 20), e + 20))
      else if TimestampShapeAt(text, e) then
        ShapeOnOneLine(text, e);
        Some(Found(i, Span(e, e + 19), e + 19))
      else None
  }

  /** `OccurredAtAt` finds a match exactly where the pattern matches; the group is the
      19 characters of the timestamp, after the white space and the optional `[`. */
  lemma OccurredAtAtMatches(text: string, i: nat)
    requires i <= |text|
    ensures OccurredAtAt(text, i).Some? <==> OccurredAtMatches(text, i)
    ensures OccurredAtAt(text, i).Some? ==>
      var c, g := i + |OccurredAtLabel| + 1, OccurredAtAt(text, i).value.group;
      && c <= g.start && g.end == g.start + 19
      && (SpacesBetween(text, c, g.start) || (c < g.start && text[g.start - 1] == '[' && SpacesBetween(text, c, g.start - 1)))
  {
    if LabelColonAt(text, OccurredAtLabel, i) {
      OccurredAtFromSkip(text, i + |OccurredAtLabel| + 1);
    }
  }

  /** The match of `pat` that starts at `i`, if the pattern matches there. */
  function MatchAt(text: string, pat: Pattern, i: nat): (r: Option<Found>)
    requires i <= |text|
    ensures r.Some? ==> r.value.at == i
    ensures r.Some? ==> i < r.value.group.start <= r.value.group.end <= r.value.end <= |text|
    ensures r.Some? ==> OnOneLine(text, r.value.group.start, r.value.group.end)
    ensures r.Some? && pat.OccurredAt? ==> IsTimestampShape(Slice(text, r.value.group))
  {
    match pat
    case Labelled(key) => LabelledAt(text, key, i)
    case FileId => FileIdAt(text, i)
    case AreaMap => AreaMapAt(text, i)
    case OccurredAt => OccurredAtAt(text, i)
  }

  /** `MatchAt` finds a match exactly where the pattern matches; a one-line field's
      group runs to the end of its line. */
  lemma MatchAtMatches(text: string, pat: Pattern, i: nat)
    requires i <= |text|
    ensures MatchAt(text, pat, i).Some? <==> Matches(text, pat, i)
    ensures MatchAt(text, pat, i).Some? && pat.Labelled? ==>
      LineCapture(text, i + |pat.key| + 1, MatchAt(text, pat, i).value.group)
    ensures MatchAt(text, pat, i).Some? && pat.FileId? ==>
      NewlineCapture(text, i + |FileIdLabel|, MatchAt(text, pat, i).value.group)
  {
    match pat
    case Labelled(key) => LabelledAtMatches(text, key, i);
    case FileId => FileIdAtMatches(text, i);
    case AreaMap => AreaMapAtMatches(text, i);
    case OccurredAt => OccurredAtAtMatches(text, i);
  }

  lemma ShapeOnOneLine(text: string, p: nat)
    requires TimestampShapeAt(text, p)
    ensures OnOneLine(text, p, p + 19)
  {
    forall k | p <= k < p + 19 ensures text[k] != '\n' {
      assert text[k] == text[p..p + 19][k - p];
    }
  }

  /** The least index in `[from, n]` satisfying `ok`. */
  function FirstWhere(n: nat, ok: nat -> bool, from: nat): (r: Option<nat>)
    requires from <= n
    decreases n - from
    ensures r.Some? ==> from <= r.value <= n && ok(r.value)
    ensures r.Some? ==> forall j :: from <= j < r.value ==> !ok(j)
    ensures r.None? ==> forall j :: from <= j <= n ==> !ok(j)
  {
    if ok(from) then Some(from)
    else if from == n then None
    else FirstWhere(n, ok, from + 1)
  }

  /** The greatest index in `[0, hi]` satisfying `ok`. */
  function LastWhere(hi: nat, ok: nat -> bool): (r: Option<nat>)
    ensures r.Some? ==> r.value <= hi && ok(r.value)
    ensures r.Some? ==> forall j :: r.value < j <= hi ==> !ok(j)
    ensures r.None? ==> forall j :: 0 <= j <= hi ==> !ok(j)
  {
    if ok(hi) then Some(hi)
    else if hi == 0 then None
    else LastWhere(hi - 1, ok)
  }

  /** `pat` matches at no index of `[lo, hi)` (indices past the text do not count). */
  ghost predicate NoMatchIn(text: string, pat: Pattern, lo: nat, hi: nat) {
    forall j :: lo <= j < hi && j <= |text| ==> MatchAt(text, pat, j).None?
  }

  /** The leftmost index at or after `from` where `pat` matches. */
  function FirstMatch(text: string, pat: Pattern, from: nat): (r: Option<nat>)
    requires from <= |text|
    ensures r.Some? ==> from <= r.value <= |text| && MatchAt(text, pat, r.value).Some?
    ensures r.Some? ==> NoMatchIn(text, pat, from, r.value)
    ensures r.None? ==> NoMatchIn(text, pat, from, |text| + 1)
  {
    var ok := (j: nat) => j <= |text| && MatchAt(text, pat, j).Some?;
    assert forall j: nat :: ok(j) == (j <= |text| && MatchAt(text, pat, j).Some?);
    FirstWhere(|text|, ok, from)
  }

  /** `extractField(text, regex)`: the trimmed group of the first match, or null. */
  function ExtractField(text: string, pat: Pattern): (r: Option<string>)
    ensures r.None? <==> forall i :: 0 <= i <= |text| ==> MatchAt(text, pat, i).None?
    ensures r.Some? ==> exists i :: (0 <= i <= |text| && MatchAt(text, pat, i).Some? &&
      (forall j :: 0 <= j < i ==> MatchAt(text, pat, j).None?) &&
      r.value == Trim(Slice(text, MatchAt(text, pat, i).value.group)))
    ensures r.Some? ==> '\n' !in r.value
  {
    match FirstMatch(text, pat, 0)
    case None => None
    case Some(i) =>
      var g := MatchAt(text, pat, i).value.group;
      assert '\n' !in Slice(text, g);
      Some(Trim(Slice(text, g)))
  }

  /** `extractField` on the text alone: null exactly when the pattern matches nowhere. */
  lemma ExtractFieldNone(text: string, pat: Pattern)
    ensures ExtractField(text, pat).None? <==> forall i :: 0 <= i <= |text| ==> !Matches(text, pat, i)
  {
    forall i | 0 <= i <= |text| ensures MatchAt(text, pat, i).Some? <==> Matches(text, pat, i) {
      MatchAtMatches(text, pat, i);
    }
  }

  /** The pattern matches where `FirstMatch` says, and nowhere before. */
  lemma FirstMatchLeftmost(text: string, pat: Pattern, from: nat)
    requires from <= |text| && FirstMatch(text, pat, from).Some?
    ensures var i := FirstMatch(text, pat, from).value;
      Matches(text, pat, i) && forall j :: from <= j < i ==> !Matches(text, pat, j)
  {
    var i := FirstMatch(text, pat, from).value;
    MatchAtMatches(text, pat, i);
    forall j | from <= j < i ensures !Matches(text, pat, j) {
      MatchAtMatches(text, pat, j);
    }
  }

  /** Otherwise it is the trimmed group of the leftmost place where the pattern matches;
      for a labelled field that group is the rest of its line after the white space. */
  lemma ExtractFieldLeftmost(text: string, pat: Pattern)
    ensures var r := ExtractField(text, pat);
      r.Some? ==> (FirstMatch(text, pat, 0).Some? &&
        var i := FirstMatch(text, pat, 0).value;
        && Matches(text, pat, i) && MatchAt(text, pat, i).Some?
        && (forall j :: 0 <= j < i ==> !Matches(text, pat, j))
        && r.value == Trim(Slice(text, MatchAt(text, pat, i).value.group))
        && (pat.Labelled? ==> LineCapture(text, i + |pat.key| + 1, MatchAt(text, pat, i).value.group)))
  {
    if FirstMatch(text, pat, 0).Some? {
      FirstMatchLeftmost(text, pat, 0);
      MatchAtMatches(text, pat, FirstMatch(text, pat, 0).value);
    }
  }

  /** `[...text.matchAll(regex)]` for a global `regex`: each search finds the leftmost
      match at or after where the previous match ended, so the result is a sequence of
      matches in text order that do not overlap. */
  function AllMatches(text: string, pat: Pattern, from: nat): (r: seq<Found>)
    requires from <= |text|
    decreases |text| - from
    ensures forall k :: 0 <= k < |r| ==> from <= r[k].at <= |text| && MatchAt(text, pat, r[k].at) == Some(r[k])
    ensures forall k :: 0 <= k < |r| - 1 ==> r[k].end <= r[k + 1].at
  {
    match FirstMatch(text, pat, from)
    case None => []
    case Some(i) =>
      var v := MatchAt(text, pat, i).value;
      var rest := AllMatches(text, pat, v.end);
      var r := [v] + rest;
      assert forall k :: 0 < k < |r| ==> r[k] == rest[k - 1];
      r
  }

  /** Nothing is skipped before the first match: when none is found there is none at
      all, and otherwise none before the first one. */
  lemma AllMatchesNoneBefore(text: string, pat: Pattern, from: nat)
    requires from <= |text|
    ensures var r := AllMatches(text, pat, from);
      && (|r| == 0 ==> NoMatchIn(text, pat, from, |text| + 1))
      && (|r| > 0 ==> NoMatchIn(text, pat, from, r[0].at))
  {
  }

  /** A search that finds a match goes on from the end of it. */
  lemma AllMatchesCons(text: string, pat: Pattern, from: nat)
    requires from <= |text|
    ensures var r := AllMatches(text, pat, from);
      r != [] ==> r[0].end <= |text| && r == [r[0]] + AllMatches(text, pat, r[0].end)
  {
  }

  /** Nothing is skipped after the last match. */
  lemma {:induction false} AllMatchesNoneAfter(text: string, pat: Pattern, from: nat)
    requires from <= |text|
    decreases |text| - from
    ensures var r := AllMatches(text, pat, from);
      |r| > 0 ==> NoMatchIn(text, pat, r[|r| - 1].end, |text| + 1)
  {
    var r := AllMatches(text, pat, from);
    if r != [] {
      AllMatchesCons(text, pat, from);
      var next := r[0].end;
      var rest := AllMatches(text, pat, next);
      if rest == [] {
        AllMatchesNoneBefore(text, pat, next);
      } else {
        AllMatchesNoneAfter(text, pat, next);
        LastOfCons(r[0], rest);
      }
    }
  }

  lemma LastOfCons<T>(v: T, rest: seq<T>)
    ensures |[v] + rest| == |rest| + 1
    ensures rest != [] ==> ([v] + rest)[|rest|] == rest[|rest| - 1]
  {
  }

  /** Nothing is skipped between two consecutive matches either. */
  lemma {:induction false} AllMatchesNoneBetween(text: string, pat: Pattern, from: nat)
    requires from <= |text|
    decreases |text| - from
    ensures var r := AllMatches(text, pat, from);
      forall k :: 0 <= k < |r| - 1 ==> NoMatchIn(text, pat, r[k].end, r[k + 1].at)
  {
    var r := AllMatches(text, pat, from);
    if r != [] {
      var v := r[0];
      var rest := AllMatches(text, pat, v.end);
      AllMatchesCons(text, pat, from);
      AllMatchesNoneBetween(text, pat, v.end);
      AllMatchesNoneBefore(text, pat, v.end);
      forall k | 0 <= k < |r| - 1
        ensures NoMatchIn(text, pat, r[k].end, r[k + 1].at)
      {
        if k > 0 {
          assert r[k] == rest[k - 1] && r[k + 1] == rest[k];
        }
      }
    }
  }
}
