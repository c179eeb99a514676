/**
 * `generateUrls`: from the text of an issue page, one console link per "occurred at"
 * timestamp. The page-level project, vehicle and environment identifiers are the
 * first labelled values; every link opens the console's rosbag view of that project
 * over the four-minute window around its timestamp, with a query naming the three
 * identifiers.
 */
module LinkComposer {
  import opened Options
  import opened Chars
  import opened Text
  import opened Decimal
  import opened TimeWindow
  import opened PageClassifier
  import opened Patterns

  /** `project_id[:：]\s*([^\n]+)`. */
  const ProjectIdPattern: Pattern := Labelled("project_id")
  /** `cle_id[:：]\s*([^\n]+)`: the tail of `vehicle_id`. */
  const VehicleIdPattern: Pattern := Labelled("cle_id")
  /** `ment_id[:：]\s*([^\n]+)`: the tail of `environment_id`. */
  const EnvironmentIdPattern: Pattern := Labelled("ment_id")

  /** A value spliced into a template literal: a string as itself, `null` as "null". */
  function Show(v: Option<string>): (r: string)
    ensures v.Some? ==> r == v.value
    ensures v.None? ==> r == "null"
  {
    match v
    case None => "null"
    case Some(s) => s
  }

  /** A string JavaScript treats as true: present and not empty. */
  predicate Truthy(v: Option<string>) {
    v.Some? && v.value != []
  }

  /** The `query` parameter of a link, percent-encoded as the template writes it. */
  function QueryText(p: string, v: string, e: string): string {
    "project_id%3A%28" + p + "%29+vehicle_id%3A%28" + v + "%29" + "+environment_id%3A%28" + e + "%29"
  }

  /** The path of a link: the project's rosbag view. */
  function MobPath(p: string): string {
    ConsolePrefix + p + RosbagPart
  }

  /** The search part of a link: the view, the aggregation, the window, the live flag
      and the query, joined by `&`. */
  function MobSearch(p: string, v: string, e: string, w: Window): string {
    JoinWith(MobParams(p, v, e, w), '&')
  }

  /** The parameters of the search part, in template order (the first one carries the `?`). */
  function MobParams(p: string, v: string, e: string, w: Window): seq<string> {
    ["?viz=stream", "agg=count", "from_ts=" + IntToString(w.fromTs), "to_ts=" + IntToString(w.toTs),
     "live=false", "query=" + QueryText(p, v, e)]
  }

  /** The console link of the template, the values spliced in unescaped. When the project
      identifier holds no `?`, a URL parser splits the link at its first `?` into the
      rosbag-view path and the search part. */
  function MobUrl(p: string, v: string, e: string, w: Window): (r: string)
    ensures '?' !in p ==>
      (IndexOf(r, '?') == |MobPath(p)|
       && r[..IndexOf(r, '?')] == MobPath(p) && r[IndexOf(r, '?')..] == MobSearch(p, v, e, w))
  {
    PathSearchSplit(p, MobSearch(p, v, e, w));
    MobPath(p) + MobSearch(p, v, e, w)
  }

  /** The search part begins with the `?` that ends the path. */
  lemma PathSearchSplit(p: string, search: string)
    requires search == [] || search[0] == '?'
    ensures '?' !in p && search != [] ==> IndexOf(MobPath(p) + search, '?') == |MobPath(p)|
  {
    if '?' !in p && search != [] {
      NotAtAnyIndex(ConsolePrefix, '?');
      NotAtAnyIndex(RosbagPart, '?');
      var u := MobPath(p) + search;
      assert u[|MobPath(p)|] == '?';
      assert forall j :: 0 <= j < |MobPath(p)| ==> u[j] != '?' by {
        forall j | 0 <= j < |MobPath(p)| ensures u[j] != '?' {
          assert u[j] == MobPath(p)[j];
        }
      }
    }
  }

  /** One link with the values it was built from. */
  datatype UrlEntry = UrlEntry(
    projectId: string, vehicleId: string, environmentId: Option<string>,
    timestampStr: string, mobUrl: string)

  /** The entry for one timestamp. */
  function EntryFor(p: string, v: string, e: Option<string>, ts: string): (u: UrlEntry)
    requires IsTimestampShape(ts)
    ensures u.projectId == p && u.vehicleId == v && u.environmentId == e && u.timestampStr == ts
    ensures u.mobUrl == MobUrl(p, v, Show(e), GetFromToTs(ts))
  {
    UrlEntry(p, v, e, ts, MobUrl(p, v, Show(e), GetFromToTs(ts)))
  }

  /** The timestamp text a match of the "occurred at" pattern captured. */
  function TimestampOf(text: string, m: Found): (ts: string)
    requires m.at <= |text| && MatchAt(text, OccurredAt, m.at) == Some(m)
    ensures IsTimestampShape(ts)
  {
    Slice(text, m.group)
  }

  /** The matches of the "occurred at" pattern, in text order. */
  function TimestampMatches(text: string): (ms: seq<Found>)
    ensures forall k :: 0 <= k < |ms| ==> ms[k].at <= |text| && MatchAt(text, OccurredAt, ms[k].at) == Some(ms[k])
  {
    AllMatches(text, OccurredAt, 0)
  }

  /** `timestampMatches.map(...)`: the entry of each match, in order. */
  function EntriesFor(text: string, p: string, v: string, e: Option<string>, ms: seq<Found>): (us: seq<UrlEntry>)
    requires forall k :: 0 <= k < |ms| ==> ms[k].at <= |text| && MatchAt(text, OccurredAt, ms[k].at) == Some(ms[k])
    ensures |us| == |ms|
    ensures forall k :: 0 <= k < |ms| ==>
      && us[k].projectId == p && us[k].vehicleId == v && us[k].environmentId == e
      && us[k].timestampStr == TimestampOf(text, ms[k])
      && us[k].mobUrl == MobUrl(p, v, Show(e), GetFromToTs(us[k].timestampStr))
  {
    seq(|ms|, k requires 0 <= k < |ms| => EntryFor(p, v, e, TimestampOf(text, ms[k])))
  }

  /**
   * `generateUrls`: null unless the project and vehicle identifiers are present and not
   * empty and at least one timestamp occurs; otherwise one entry per timestamp match,
   * in text order.
   */
  function GenerateUrls(text: string): (r: Option<seq<UrlEntry>>)
    ensures var p, v := ExtractField(text, ProjectIdPattern), ExtractField(text, VehicleIdPattern);
      r.None? <==> !Truthy(p) || !Truthy(v) || |TimestampMatches(text)| == 0
    ensures r.Some? ==> r.value == EntriesFor(text, ExtractField(text, ProjectIdPattern).value,
      ExtractField(text, VehicleIdPattern).value, ExtractField(text, EnvironmentIdPattern),
      TimestampMatches(text))
  {
    var p := ExtractField(text, ProjectIdPattern);
    var v := ExtractField(text, VehicleIdPattern);
    if !Truthy(p) || !Truthy(v) then None
    else
      var ms := TimestampMatches(text);
      if |ms| == 0 then None
      else Some(EntriesFor(text, p.value, v.value, ExtractField(text, EnvironmentIdPattern), ms))
  }

  // ---------------------------------------------------------------------------
  // Reading a link back.

  /** The link's parameters, split at `&`: the path with the view parameter, then
      aggregation, the window's two ends, the live flag and the query. */
  lemma MobUrlParams(p: string, v: string, e: string, w: Window)
    requires '&' !in p && '&' !in v && '&' !in e
    ensures SplitOn(MobUrl(p, v, e, w), '&') == [
      MobPath(p) + "?viz=stream", "agg=count",
      "from_ts=" + IntToString(w.fromTs), "to_ts=" + IntToString(w.toTs),
      "live=false", "query=" + QueryText(p, v, e)]
  {
    var ps := MobParams(p, v, e, w);
    PathWithoutAmp(p);
    MobSearchParams(p, v, e, w);
    SplitOnLead(MobPath(p), '&', MobSearch(p, v, e, w));
    assert SplitOn(MobUrl(p, v, e, w), '&') == [MobPath(p) + ps[0]] + ps[1..];
  }

  lemma PathWithoutAmp(p: string)
    requires '&' !in p
    ensures '&' !in MobPath(p)
  {
    NotAtAnyIndex(ConsolePrefix, '&');
    NotAtAnyIndex(RosbagPart, '&');
  }

  lemma QueryWithoutAmp(p: string, v: string, e: string)
    requires '&' !in p && '&' !in v && '&' !in e
    ensures '&' !in "query=" + QueryText(p, v, e)
  {
    NotAtAnyIndex("query=", '&');
    NotAtAnyIndex("project_id%3A%28", '&');
    NotAtAnyIndex("%29+vehicle_id%3A%28", '&');
    NotAtAnyIndex("%29", '&');
    NotAtAnyIndex("+environment_id%3A%28", '&');
  }

  /** The search part splits at `&` into its six parameters. */
  lemma MobSearchParams(p: string, v: string, e: string, w: Window)
    requires '&' !in p && '&' !in v && '&' !in e
    ensures SplitOn(MobSearch(p, v, e, w), '&') == MobParams(p, v, e, w)
  {
    var ps := MobParams(p, v, e, w);
    NotAtAnyIndex(ps[0], '&');
    NotAtAnyIndex(ps[1], '&');
    NotAtAnyIndex("from_ts=", '&');
    NotAtAnyIndex(IntToString(w.fromTs), '&');
    NotAtAnyIndex("to_ts=", '&');
    NotAtAnyIndex(IntToString(w.toTs), '&');
    NotAtAnyIndex(ps[4], '&');
    QueryWithoutAmp(p, v, e);
    SplitOnJoinWith(ps, '&');
  }

  /** The window can be read back from the link's `from_ts` and `to_ts` parameters. */
  lemma MobUrlWindowRoundTrip(p: string, v: string, e: string, w: Window)
    requires '&' !in p && '&' !in v && '&' !in e
    ensures var ps := SplitOn(MobUrl(p, v, e, w), '&');
      && |ps| == 6 && StartsWith(ps[2], "from_ts=") && StartsWith(ps[3], "to_ts=")
      && ps[2][8..] == IntToString(w.fromTs) && ParseInt(ps[2][8..]) == w.fromTs
      && ps[3][6..] == IntToString(w.toTs) && ParseInt(ps[3][6..]) == w.toTs
  {
    MobUrlParams(p, v, e, w);
    IntToStringRoundTrip(w.fromTs);
    IntToStringRoundTrip(w.toTs);
  }

  /** The link opens the console's rosbag view: the page classifier recognises it,
      provided the project identifier is not empty, lies on one line, and the link does
      not contain the issue-tracker marker. */
  lemma MobUrlIsRosbagPage(p: string, v: string, e: string, w: Window)
    requires p != [] && forall k :: 0 <= k < |p| ==> !IsJsLineTerminator(p[k])
    requires !Contains(MobUrl(p, v, e, w), JiraMarker)
    ensures GetPageType(MobUrl(p, v, e, w)) == MobRosbag
  {
    var url, path := MobUrl(p, v, e, w), MobPath(p);
    var n := |ConsolePrefix|;
    assert url[..|path|] == path;
    assert path[..n + |p|] == ConsolePrefix + p;
    assert url[..n] == (ConsolePrefix + p)[..n] == ConsolePrefix;
    assert url[n + |p|..n + |p| + |RosbagPart|] == path[n + |p|..] == RosbagPart;
    forall k | n <= k < n + |p| ensures !IsJsLineTerminator(url[k]) {
      assert url[k] == path[k] == p[k - n];
    }
    assert RosbagAt(url, n + |p|);
  }
}
