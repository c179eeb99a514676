/**
 * The parsers of the ROS 2 graph inspector: each takes the text a `ros2` command
 * printed (the empty string when the command failed) and reads node names, topic
 * names, the endpoints of a node, or the endpoints of a topic out of it.
 */
module GraphInspector {
  import opened Options
  import opened Chars
  import opened Text
  import opened PyText

  // ---------------------------------------------------------------------------
  // `get_nodes` and `get_topics`.

  /** The stripped lines that are not blank, in order. */
  function NonBlank(lines: seq<string>): (r: seq<string>)
    ensures |r| <= |lines|
    ensures forall k :: 0 <= k < |r| ==> r[k] != [] && !IsPySpace(r[k][0]) && !IsPySpace(r[k][|r[k]| - 1])
  {
    if lines == [] then []
    else
      var t := PyStrip(lines[0]);
      var rest := NonBlank(lines[1..]);
      if t == [] then rest
      else
        var r := [t] + rest;
        assert forall k :: 0 < k < |r| ==> r[k] == rest[k - 1];
        r
  }

  /** `[line.strip() for line in output.splitlines() if line.strip()]`, the body of both
      `get_nodes` (for `ros2 node list`) and `get_topics` (for `ros2 topic list`). */
  function NameList(output: string): (r: seq<string>)
    ensures forall k :: 0 <= k < |r| ==> r[k] != [] && !IsPySpace(r[k][0]) && !IsPySpace(r[k][|r[k]| - 1])
  {
    NonBlank(SplitLines(output))
  }

  /** The filter keeps the order of the lines: the names of two runs of lines are the
      names of the first run followed by those of the second. */
  lemma {:induction false} NonBlankConcat(a: seq<string>, b: seq<string>)
    ensures NonBlank(a + b) == NonBlank(a) + NonBlank(b)
  {
    if a != [] {
      assert (a + b)[0] == a[0];
      assert (a + b)[1..] == a[1..] + b;
      NonBlankConcat(a[1..], b);
    } else {
      assert a + b == b;
    }
  }

  /** One line gives its stripped text, or nothing when it is blank. */
  lemma NonBlankSingle(line: string)
    ensures NonBlank([line]) == if PyStrip(line) == [] then [] else [PyStrip(line)]
  {
    assert [line][1..] == [];
  }

  /** Names printed one per line are read back as they were, when each is non-empty,
      holds no line break and has no white space at either end. */
  lemma {:induction false} NameListRoundTrip(names: seq<string>)
    requires forall i :: 0 <= i < |names| ==> names[i] != [] && NoLineBreak(names[i])
    requires forall i :: 0 <= i < |names| ==> !IsPySpace(names[i][0]) && !IsPySpace(names[i][|names[i]| - 1])
    ensures NameList(Terminated(names)) == names
  {
    SplitLinesTerminated(names);
    NonBlankOfStripped(names);
  }

  lemma {:induction false} NonBlankOfStripped(names: seq<string>)
    requires forall i :: 0 <= i < |names| ==> names[i] != []
    requires forall i :: 0 <= i < |names| ==> !IsPySpace(names[i][0]) && !IsPySpace(names[i][|names[i]| - 1])
    ensures NonBlank(names) == names
  {
    if names != [] {
      var first, rest := names[0], names[1..];
      assert first != [] && !IsPySpace(first[0]) && !IsPySpace(first[|first| - 1]);
      assert forall i :: 0 <= i < |rest| ==> rest[i] == names[i + 1];
      NonBlankOfStripped(rest);
      assert PyStrip(first) == first;
      assert names == [first] + rest;
    }
  }

  /** The failed command (no output) lists nothing. */
  lemma NameListEmpty()
    ensures NameList("") == []
  {
  }

  // ---------------------------------------------------------------------------
  // `get_node_info`.

  /** The three lists of `info`; `Services` holds both servers and clients. */
  datatype Section = Publishers | Subscribers | Services

  /** `{"Publishers": [...], "Subscribers": [...], "Services": [...]}`. */
  datatype NodeInfo = NodeInfo(publishers: seq<string>, subscribers: seq<string>, services: seq<string>)

  /** The section a header key selects; `None` for any other key. */
  function SectionOf(key: string): Option<Section> {
    if key == "Publishers" then Some(Publishers)
    else if key == "Subscribers" then Some(Subscribers)
    else if key == "Service Servers" || key == "Service Clients" then Some(Services)
    else None
  }

  /** `info[section].append(entry)`. */
  function Append(info: NodeInfo, section: Section, entry: string): NodeInfo {
    match section
    case Publishers => info.(publishers := info.publishers + [entry])
    case Subscribers => info.(subscribers := info.subscribers + [entry])
    case Services => info.(services := info.services + [entry])
  }

  function EntryCount(info: NodeInfo): nat {
    |info.publishers| + |info.subscribers| + |info.services|
  }

  /** The loop's state: the current section and the lists so far. */
  datatype NodeScan = NodeScan(current: Option<Section>, info: NodeInfo)

  const NodeStart: NodeScan := NodeScan(None, NodeInfo([], [], []))

  /** A stripped line ending in `:` is a section header. */
  predicate IsHeader(stripped: string) {
    stripped != [] && stripped[|stripped| - 1] == ':'
  }

  /** The key of a header: the stripped line without its colon. */
  function HeaderLabel(stripped: string): string
    requires IsHeader(stripped)
  {
    stripped[..|stripped| - 1]
  }

  /** The line adds an entry in section `current`: it is not blank and not a header,
      the raw line starts with a space, a section is selected and the stripped line
      holds a colon. */
  predicate IsEntry(current: Option<Section>, line: string) {
    var stripped := PyStrip(line);
    stripped != [] && !IsHeader(stripped) && |line| > 0 && line[0] == ' '
    && current.Some? && ':' in stripped
  }

  /** The entry of such a line: the stripped text before its first colon. */
  function EntryName(line: string): string {
    PyStrip(BeforeFirst(PyStrip(line), ':'))
  }

  /** One iteration of the loop over the lines. */
  function NodeStep(st: NodeScan, line: string): (r: NodeScan)
    ensures r.current != st.current ==> IsHeader(PyStrip(line))
    ensures r.info != st.info ==> IsEntry(st.current, line) && r.current == st.current
  {
    var stripped := PyStrip(line);
    if stripped == [] then st
    else if IsHeader(stripped) then NodeScan(SectionOf(HeaderLabel(stripped)), st.info)
    else if IsEntry(st.current, line) then NodeScan(st.current, Append(st.info, st.current.value, EntryName(line)))
    else st
  }

  /** The state after the loop has consumed `lines`. */
  function NodeScanOf(lines: seq<string>): NodeScan {
    if lines == [] then NodeStart
    else NodeStep(NodeScanOf(lines[..|lines| - 1]), lines[|lines| - 1])
  }

  /** `get_node_info` on the output of `ros2 node info`: what the loop leaves. */
  function NodeInfoOf(output: string): NodeInfo {
    NodeScanOf(SplitLines(output)).info
  }

  /** `get_node_info`, the loop as written. */
  method GetNodeInfo(output: string) returns (info: NodeInfo)
    ensures info == NodeInfoOf(output)
  {
    var lines := SplitLines(output);
    var publishers, subscribers, services := [], [], [];
    var current: Option<Section> := None;
    var i := 0;
    while i < |lines|
      invariant i <= |lines|
      invariant NodeScanOf(lines[..i]) == NodeScan(current, NodeInfo(publishers, subscribers, services))
    {
      var line := lines[i];
      ghost var st := NodeScan(current, NodeInfo(publishers, subscribers, services));
      var stripped := PyStrip(line);
      if stripped == [] {
        // a blank line: `continue`
        BlankStep(st, line);
      } else if stripped[|stripped| - 1] == ':' {
        var key := stripped[..|stripped| - 1];
        if key == "Publishers" {
          current := Some(Publishers);
        } else if key == "Subscribers" {
          current := Some(Subscribers);
        } else if key == "Service Servers" || key == "Service Clients" {
          current := Some(Services);
        } else {
          current := None;
        }
        HeaderStep(st, line);
        assert current == SectionOf(key);
      } else {
        EntryStep(st, line);
        if |line| > 0 && line[0] == ' ' {
          if current.Some? && ':' in stripped {
            var entry := PyStrip(BeforeFirst(stripped, ':'));
            match current.value
            case Publishers => publishers := publishers + [entry];
            case Subscribers => subscribers := subscribers + [entry];
            case Services => services := services + [entry];
            assert NodeInfo(publishers, subscribers, services) == Append(st.info, current.value, entry);
          }
        }
      }
      assert NodeScan(current, NodeInfo(publishers, subscribers, services)) == NodeStep(st, line);
      NodeScanOfNext(lines, i);
      i := i + 1;
    }
    assert lines[..|lines|] == lines;
    info := NodeInfo(publishers, subscribers, services);
  }

  /** The loop's state after one more line. */
  lemma NodeScanOfNext(lines: seq<string>, i: nat)
    requires i < |lines|
    ensures NodeScanOf(lines[..i + 1]) == NodeStep(NodeScanOf(lines[..i]), lines[i])
  {
    assert lines[..i + 1][..i] == lines[..i];
  }

  /** No output (the failed command) gives three empty lists. */
  lemma NodeInfoEmpty()
    ensures NodeInfoOf("") == NodeInfo([], [], [])
  {
  }

  /** A blank line changes nothing. */
  lemma BlankStep(st: NodeScan, line: string)
    requires PyStrip(line) == []
    ensures NodeStep(st, line) == st
  {
  }

  /** A header is never an entry: it leaves the lists as they are and selects the section
      of its key, Services for both kinds of service header and none for a key that
      is not known. */
  lemma HeaderStep(st: NodeScan, line: string)
    requires IsHeader(PyStrip(line))
    ensures NodeStep(st, line) == NodeScan(SectionOf(HeaderLabel(PyStrip(line))), st.info)
    ensures var key := HeaderLabel(PyStrip(line));
      && (NodeStep(st, line).current == Some(Services) <==> key == "Service Servers" || key == "Service Clients")
      && (NodeStep(st, line).current == Some(Publishers) <==> key == "Publishers")
      && (NodeStep(st, line).current == Some(Subscribers) <==> key == "Subscribers")
  {
  }

  /** An entry line appends its name to the current section and nothing else; every
      other line that is not a header leaves the state as it is. */
  lemma EntryStep(st: NodeScan, line: string)
    requires !IsHeader(PyStrip(line))
    ensures IsEntry(st.current, line) ==>
      NodeStep(st, line) == NodeScan(st.current, Append(st.info, st.current.value, EntryName(line)))
    ensures !IsEntry(st.current, line) ==> NodeStep(st, line) == st
    ensures EntryCount(NodeStep(st, line).info) == EntryCount(st.info) + if IsEntry(st.current, line) then 1 else 0
  {
  }

  /** After a header with an unknown key, lines add nothing until the next header. */
  lemma DroppedWithoutSection(st: NodeScan, line: string)
    requires st.current.None? && !IsHeader(PyStrip(line))
    ensures NodeStep(st, line) == st
  {
  }

  /** The entry name is the stripped text before the first colon: it holds no colon and
      no white space at either end. */
  lemma EntryNameShape(line: string)
    ensures ':' !in EntryName(line)
    ensures EntryName(line) == [] || (!IsPySpace(EntryName(line)[0]) && !IsPySpace(EntryName(line)[|EntryName(line)| - 1]))
  {
  }

  /** Entries keep their input order: the lists after a prefix of the lines are
      prefixes of the final lists. */
  lemma {:induction false} NodeInfoGrows(lines: seq<string>, i: nat)
    requires i <= |lines|
    ensures var a, b := NodeScanOf(lines[..i]).info, NodeScanOf(lines).info;
      && a.publishers <= b.publishers && a.subscribers <= b.subscribers && a.services <= b.services
    decreases |lines| - i
  {
    if i < |lines| {
      NodeInfoGrows(lines, i + 1);
      NodeScanOfNext(lines, i);
      StepGrows(NodeScanOf(lines[..i]), lines[i]);
    } else {
      assert lines[..i] == lines;
    }
  }

  /** One step only appends. */
  lemma StepGrows(st: NodeScan, line: string)
    ensures var a, b := st.info, NodeStep(st, line).info;
      && a.publishers <= b.publishers && a.subscribers <= b.subscribers && a.services <= b.services
  {
    var stripped := PyStrip(line);
    if stripped != [] && !IsHeader(stripped) && IsEntry(st.current, line) {
      AppendGrows(st.info, st.current.value, EntryName(line));
    }
  }

  lemma AppendGrows(info: NodeInfo, section: Section, entry: string)
    ensures var b := Append(info, section, entry);
      && info.publishers <= b.publishers && info.subscribers <= b.subscribers && info.services <= b.services
  {
  }

  /** At most one entry per line. */
  lemma {:induction false} NodeEntriesBound(lines: seq<string>)
    ensures EntryCount(NodeScanOf(lines).info) <= |lines|
  {
    if lines != [] {
      var st := NodeScanOf(lines[..|lines| - 1]);
      NodeEntriesBound(lines[..|lines| - 1]);
      StepCount(st, lines[|lines| - 1]);
    }
  }

  lemma StepCount(st: NodeScan, line: string)
    ensures EntryCount(NodeStep(st, line).info) <= EntryCount(st.info) + 1
  {
  }

  // ---------------------------------------------------------------------------
  // `get_topic_info`.

  /** `{"Type": ..., "Publisher count": ..., "Subscriber count": ..., "Publishers": [...],
      "Subscribers": [...]}`. */
  datatype TopicInfo = TopicInfo(
    typeName: string, publisherCount: string, subscriberCount: string,
    publishers: seq<string>, subscribers: seq<string>)

  /** The loop's state: the node name and namespace read since the last endpoint line,
      and the result so far. */
  datatype TopicScan = TopicScan(nodeName: Option<string>, nodeNamespace: Option<string>, info: TopicInfo)

  const TopicStart: TopicScan := TopicScan(None, None, TopicInfo("", "", "", [], []))

  /** The line prefixes the loop looks for, in the order it tries them. */
  const TypePrefix: string := "Type:"
  const PublisherCountPrefix: string := "Publisher count:"
  const SubscriptionCountPrefix: string := "Subscription count:"
  const NodeNamePrefix: string := "Node name:"
  const NodeNamespacePrefix: string := "Node namespace:"
  const EndpointTypePrefix: string := "Endpoint type:"

  /** Which branch of the loop a stripped line takes. */
  datatype LineKind =
    | TypeLine | PublisherCountLine | SubscriptionCountLine
    | NodeNameLine | NodeNamespaceLine | EndpointLine | OtherLine

  /** The prefix that selects a branch. */
  function PrefixOf(kind: LineKind): string
    requires kind != OtherLine
  {
    match kind
    case TypeLine => TypePrefix
    case PublisherCountLine => PublisherCountPrefix
    case SubscriptionCountLine => SubscriptionCountPrefix
    case NodeNameLine => NodeNamePrefix
    case NodeNamespaceLine => NodeNamespacePrefix
    case EndpointLine => EndpointTypePrefix
  }

  /** The `if`/`elif` chain: the first prefix the stripped line starts with. */
  function KindOf(s: string): (kind: LineKind)
    ensures kind != OtherLine ==> StartsWith(s, PrefixOf(kind))
  {
    if StartsWith(s, TypePrefix) then TypeLine
    else if StartsWith(s, PublisherCountPrefix) then PublisherCountLine
    else if StartsWith(s, SubscriptionCountPrefix) then SubscriptionCountLine
    else if StartsWith(s, NodeNamePrefix) then NodeNameLine
    else if StartsWith(s, NodeNamespacePrefix) then NodeNamespaceLine
    else if StartsWith(s, EndpointTypePrefix) then EndpointLine
    else OtherLine
  }

  /** A prefix that ends in a colon. */
  predicate IsFieldPrefix(prefix: string) {
    prefix != [] && prefix[|prefix| - 1] == ':'
  }

  /** A string that starts with `prefix` has the character of `prefix` at each of its
      indices. */
  lemma PrefixAt(s: string, prefix: string, k: nat)
    requires StartsWith(s, prefix) && k < |prefix|
    ensures s[k] == prefix[k]
  {
    assert s[..|prefix|][k] == s[k];
  }

  /** `stripped.split(':', 1)[1].strip()` on a stripped line that starts with `prefix`. */
  function FieldAfter(stripped: string, prefix: string): string
    requires StartsWith(stripped, prefix) && IsFieldPrefix(prefix)
  {
    PrefixAt(stripped, prefix, |prefix| - 1);
    PyStrip(AfterFirst(stripped, ':'))
  }

  /** `s.replace('//', '/')`: scanning from the left, each `//` becomes `/`; the
      replacements do not overlap, so `///` becomes `//`. */
  function ReplaceDoubleSlash(s: string): (r: string)
    ensures |r| <= |s|
    ensures (s == []) == (r == [])
  {
    if s == [] then []
    else if |s| >= 2 && s[0] == '/' && s[1] == '/' then "/" + ReplaceDoubleSlash(s[2..])
    else [s[0]] + ReplaceDoubleSlash(s[1..])
  }

  /** No two slashes in a row. */
  predicate NoDoubleSlash(s: string) {
    forall k :: 0 <= k < |s| - 1 ==> !(s[k] == '/' && s[k + 1] == '/')
  }

  /** `((ns or '') + '/' + (name or '')).replace('//', '/').rstrip('/')`. */
  function FullNodePath(ns: Option<string>, name: Option<string>): (r: string)
    ensures r == [] || r[|r| - 1] != '/'
  {
    RStripChar(ReplaceDoubleSlash(ns.GetOr("") + "/" + name.GetOr("")), '/')
  }

  /** The lists after an endpoint line of type `endpoint` for the node path `full`. */
  function AddEndpoint(info: TopicInfo, endpoint: string, full: string): TopicInfo {
    if endpoint == "PUBLISHER" then info.(publishers := info.publishers + [full])
    else if endpoint == "SUBSCRIPTION" then info.(subscribers := info.subscribers + [full])
    else info
  }

  /** One iteration of the loop: the branch of the stripped line sets its field, or, for
      an endpoint line, appends the node path to the list its type names (if any) and
      forgets the node name and namespace. */
  function TopicStep(st: TopicScan, line: string): (r: TopicScan)
    ensures KindOf(PyStrip(line)) == EndpointLine ==> r.nodeName.None? && r.nodeNamespace.None?
    ensures KindOf(PyStrip(line)) != EndpointLine ==>
      r.info.publishers == st.info.publishers && r.info.subscribers == st.info.subscribers
    ensures KindOf(PyStrip(line)) == OtherLine ==> r == st
  {
    var s := PyStrip(line);
    match KindOf(s)
    case TypeLine => st.(info := st.info.(typeName := FieldAfter(s, TypePrefix)))
    case PublisherCountLine => st.(info := st.info.(publisherCount := FieldAfter(s, PublisherCountPrefix)))
    case SubscriptionCountLine => st.(info := st.info.(subscriberCount := FieldAfter(s, SubscriptionCountPrefix)))
    case NodeNameLine => st.(nodeName := Some(FieldAfter(s, NodeNamePrefix)))
    case NodeNamespaceLine => st.(nodeNamespace := Some(FieldAfter(s, NodeNamespacePrefix)))
    case EndpointLine =>
      TopicScan(None, None, AddEndpoint(st.info, FieldAfter(s, EndpointTypePrefix),
        FullNodePath(st.nodeNamespace, st.nodeName)))
    case OtherLine => st
  }

  /** The state after the loop has consumed `lines`. */
  function TopicScanOf(lines: seq<string>): TopicScan {
    if lines == [] then TopicStart
    else TopicStep(TopicScanOf(lines[..|lines| - 1]), lines[|lines| - 1])
  }

  /** `get_topic_info` on the output of `ros2 topic info --verbose`: what the loop leaves. */
  function TopicInfoOf(output: string): TopicInfo {
    TopicScanOf(SplitLines(output)).info
  }

  /** `get_topic_info`, the loop as written. */
  method GetTopicInfo(output: string) returns (info: TopicInfo)
    ensures info == TopicInfoOf(output)
  {
    var lines := SplitLines(output);
    info := TopicInfo("", "", "", [], []);
    var nodeName: Option<string> := None;
    var nodeNamespace: Option<string> := None;
    var i := 0;
    while i < |lines|
      invariant i <= |lines|
      invariant TopicScanOf(lines[..i]) == TopicScan(nodeName, nodeNamespace, info)
    {
      var line := lines[i];
      ghost var next := TopicStep(TopicScan(nodeName, nodeNamespace, info), line);
      var stripped := PyStrip(line);
      ghost var kind := KindOf(stripped);
      if StartsWith(stripped, TypePrefix) {
        info := info.(typeName := FieldAfter(stripped, TypePrefix));
      } else if StartsWith(stripped, PublisherCountPrefix) {
        info := info.(publisherCount := FieldAfter(stripped, PublisherCountPrefix));
      } else if StartsWith(stripped, SubscriptionCountPrefix) {
        info := info.(subscriberCount := FieldAfter(stripped, SubscriptionCountPrefix));
      } else if StartsWith(stripped, NodeNamePrefix) {
        nodeName := Some(FieldAfter(stripped, NodeNamePrefix));
      } else if StartsWith(stripped, NodeNamespacePrefix) {
        nodeNamespace := Some(FieldAfter(stripped, NodeNamespacePrefix));
      } else if StartsWith(stripped, EndpointTypePrefix) {
        var endpointType := FieldAfter(stripped, EndpointTypePrefix);
        var fullNode := FullNodePath(nodeNamespace, nodeName);
        if endpointType == "PUBLISHER" {
          info := info.(publishers := info.publishers + [fullNode]);
        } else if endpointType == "SUBSCRIPTION" {
          info := info.(subscribers := info.subscribers + [fullNode]);
        }
        nodeName := None;
        nodeNamespace := None;
      }
      assert TopicScan(nodeName, nodeNamespace, info) == next;
      TopicScanOfNext(lines, i);
      i := i + 1;
    }
    assert lines[..|lines|] == lines;
  }

  /** The loop's state after one more line. */
  lemma TopicScanOfNext(lines: seq<string>, i: nat)
    requires i < |lines|
    ensures TopicScanOf(lines[..i + 1]) == TopicStep(TopicScanOf(lines[..i]), lines[i])
  {
    assert lines[..i + 1][..i] == lines[..i];
  }

  /** No output (the failed command) gives empty fields and empty lists. */
  lemma TopicInfoEmpty()
    ensures TopicInfoOf("") == TopicInfo("", "", "", [], [])
  {
  }

  /** When the prefix holds no colon but its last character, the value is the stripped
      text after the prefix. */
  lemma FieldAfterPrefix(s: string, prefix: string)
    requires StartsWith(s, prefix) && IsFieldPrefix(prefix)
    requires ':' !in prefix[..|prefix| - 1]
    ensures FieldAfter(s, prefix) == PyStrip(s[|prefix|..])
  {
    var n := |prefix| - 1;
    forall k | 0 <= k < n
      ensures s[k] != ':'
    {
      PrefixAt(s, prefix, k);
      assert prefix[..n][k] == prefix[k];
    }
    PrefixAt(s, prefix, n);
    assert IndexOf(s, ':') == n;
    var b, a := BeforeFirst(s, ':'), AfterFirst(s, ':');
    assert b + [':'] + a == s;
    assert a == s[n + 1..];
  }

  /** Each of the six prefixes holds its only colon at its end. */
  lemma PrefixOneColon(kind: LineKind)
    requires kind != OtherLine
    ensures IsFieldPrefix(PrefixOf(kind))
    ensures ':' !in PrefixOf(kind)[..|PrefixOf(kind)| - 1]
  {
    match kind
    case TypeLine => NotAtAnyIndex("Type", ':');
    case PublisherCountLine => NotAtAnyIndex("Publisher count", ':');
    case SubscriptionCountLine => NotAtAnyIndex("Subscription count", ':');
    case NodeNameLine => NotAtAnyIndex("Node name", ':');
    case NodeNamespaceLine => NotAtAnyIndex("Node namespace", ':');
    case EndpointLine => NotAtAnyIndex("Endpoint type", ':');
  }

  /** A line takes a branch exactly when it starts with that branch's prefix: no two
      prefixes can both start a line, since their first characters, or for the two
      node prefixes their tenth, differ. */
  lemma KindOfExact(s: string, kind: LineKind)
    requires kind != OtherLine
    ensures KindOf(s) == kind <==> StartsWith(s, PrefixOf(kind))
  {
    if StartsWith(s, PrefixOf(kind)) {
      PrefixAt(s, PrefixOf(kind), 0);
      if kind == NodeNameLine || kind == NodeNamespaceLine {
        PrefixAt(s, PrefixOf(kind), 9);
      }
      FirstCharOf(s, TypePrefix);
      FirstCharOf(s, PublisherCountPrefix);
      FirstCharOf(s, SubscriptionCountPrefix);
      FirstCharOf(s, NodeNamePrefix);
      FirstCharOf(s, NodeNamespacePrefix);
      if StartsWith(s, NodeNamePrefix) { PrefixAt(s, NodeNamePrefix, 9); }
    }
  }

  lemma FirstCharOf(s: string, prefix: string)
    ensures StartsWith(s, prefix) && prefix != [] ==> s[0] == prefix[0]
  {
    if StartsWith(s, prefix) && prefix != [] {
      PrefixAt(s, prefix, 0);
    }
  }

  /** The field a branch reads: the stripped text after its prefix. */
  lemma BranchValue(s: string)
    requires KindOf(s) != OtherLine
    ensures FieldAfter(s, PrefixOf(KindOf(s))) == PyStrip(s[|PrefixOf(KindOf(s))|..])
  {
    PrefixOneColon(KindOf(s));
    FieldAfterPrefix(s, PrefixOf(KindOf(s)));
  }

  /** The text of the last line whose stripped form starts with `prefix`, after the
      prefix and stripped; empty when there is none. */
  function LastValue(lines: seq<string>, prefix: string): string {
    if lines == [] then ""
    else
      var s := PyStrip(lines[|lines| - 1]);
      if StartsWith(s, prefix) then PyStrip(s[|prefix|..]) else LastValue(lines[..|lines| - 1], prefix)
  }

  /** A `Type:` line sets `Type` to the text after its prefix; no other line changes it. */
  lemma TypeStep(st: TopicScan, line: string)
    ensures var s := PyStrip(line);
      TopicStep(st, line).info.typeName ==
        if StartsWith(s, TypePrefix) then PyStrip(s[|TypePrefix|..]) else st.info.typeName
  {
    var s := PyStrip(line);
    KindOfExact(s, TypeLine);
    if KindOf(s) == TypeLine { BranchValue(s); }
  }

  /** A `Publisher count:` line sets `Publisher count`; no other line changes it. */
  lemma PublisherCountStep(st: TopicScan, line: string)
    ensures var s := PyStrip(line);
      TopicStep(st, line).info.publisherCount ==
        if StartsWith(s, PublisherCountPrefix) then PyStrip(s[|PublisherCountPrefix|..]) else st.info.publisherCount
  {
    var s := PyStrip(line);
    KindOfExact(s, PublisherCountLine);
    if KindOf(s) == PublisherCountLine { BranchValue(s); }
  }

  /** A `Subscription count:` line sets `Subscriber count`; no other line changes it. */
  lemma SubscriberCountStep(st: TopicScan, line: string)
    ensures var s := PyStrip(line);
      TopicStep(st, line).info.subscriberCount ==
        if StartsWith(s, SubscriptionCountPrefix) then PyStrip(s[|SubscriptionCountPrefix|..]) else st.info.subscriberCount
  {
    var s := PyStrip(line);
    KindOfExact(s, SubscriptionCountLine);
    if KindOf(s) == SubscriptionCountLine { BranchValue(s); }
  }

  /** `Type`, `Publisher count` and `Subscriber count` hold the values of the last
      `Type:`, `Publisher count:` and `Subscription count:` lines, or stay empty. */
  lemma {:induction false} TopicFieldsAreLast(lines: seq<string>)
    ensures var info := TopicScanOf(lines).info;
      && info.typeName == LastValue(lines, TypePrefix)
      && info.publisherCount == LastValue(lines, PublisherCountPrefix)
      && info.subscriberCount == LastValue(lines, SubscriptionCountPrefix)
  {
    if lines != [] {
      var st, line := TopicScanOf(lines[..|lines| - 1]), lines[|lines| - 1];
      TopicFieldsAreLast(lines[..|lines| - 1]);
      TypeStep(st, line);
      PublisherCountStep(st, line);
      SubscriberCountStep(st, line);
    }
  }

  /** An endpoint line replaces the state by the lists with the node path added as its
      type says, and clears the node name and namespace. */
  lemma EndpointStep(st: TopicScan, line: string)
    requires StartsWith(PyStrip(line), EndpointTypePrefix)
    ensures var s := PyStrip(line);
      TopicStep(st, line) == TopicScan(None, None,
        AddEndpoint(st.info, PyStrip(s[|EndpointTypePrefix|..]), FullNodePath(st.nodeNamespace, st.nodeName)))
  {
    var s := PyStrip(line);
    KindOfExact(s, EndpointLine);
    BranchValue(s);
  }

  /** Adding an endpoint appends the node path to `Publishers` for `PUBLISHER`, to
      `Subscribers` for `SUBSCRIPTION`, to neither for any other type, and keeps the
      three fields. */
  lemma AddEndpointLists(info: TopicInfo, endpoint: string, full: string)
    ensures var r := AddEndpoint(info, endpoint, full);
      && r.publishers == info.publishers + (if endpoint == "PUBLISHER" then [full] else [])
      && r.subscribers == info.subscribers + (if endpoint == "SUBSCRIPTION" then [full] else [])
      && r.typeName == info.typeName && r.publisherCount == info.publisherCount
      && r.subscriberCount == info.subscriberCount
  {
  }

  /** Any other line leaves both lists as they are. */
  lemma ListsKept(st: TopicScan, line: string)
    requires !StartsWith(PyStrip(line), EndpointTypePrefix)
    ensures TopicStep(st, line).info.publishers == st.info.publishers
    ensures TopicStep(st, line).info.subscribers == st.info.subscribers
  {
    KindOfExact(PyStrip(line), EndpointLine);
  }

  /** A `Node name:` line records the name and a `Node namespace:` line the namespace;
      neither touches the result. */
  lemma NodeFieldStep(st: TopicScan, line: string)
    ensures var s, r := PyStrip(line), TopicStep(st, line);
      && (StartsWith(s, NodeNamePrefix) ==> r == st.(nodeName := Some(PyStrip(s[|NodeNamePrefix|..]))))
      && (StartsWith(s, NodeNamespacePrefix) ==> r == st.(nodeNamespace := Some(PyStrip(s[|NodeNamespacePrefix|..]))))
  {
    var s := PyStrip(line);
    KindOfExact(s, NodeNameLine);
    KindOfExact(s, NodeNamespaceLine);
    if KindOf(s) != OtherLine { BranchValue(s); }
  }

  /** The number of endpoint lines. */
  function EndpointLines(lines: seq<string>): nat {
    if lines == [] then 0
    else EndpointLines(lines[..|lines| - 1]) + if StartsWith(PyStrip(lines[|lines| - 1]), EndpointTypePrefix) then 1 else 0
  }

  /** At most one node path per endpoint line. */
  lemma {:induction false} TopicEntriesBound(lines: seq<string>)
    ensures var info := TopicScanOf(lines).info;
      |info.publishers| + |info.subscribers| <= EndpointLines(lines)
  {
    if lines != [] {
      TopicEntriesBound(lines[..|lines| - 1]);
      StepEntries(TopicScanOf(lines[..|lines| - 1]), lines[|lines| - 1]);
    }
  }

  /** One line adds a node path only if it is an endpoint line, and then one. */
  lemma StepEntries(st: TopicScan, line: string)
    ensures var a, b := st.info, TopicStep(st, line).info;
      |b.publishers| + |b.subscribers| <=
        |a.publishers| + |a.subscribers| + if StartsWith(PyStrip(line), EndpointTypePrefix) then 1 else 0
  {
    if StartsWith(PyStrip(line), EndpointTypePrefix) {
      var s := PyStrip(line);
      EndpointStep(st, line);
      AddEndpointLists(st.info, PyStrip(s[|EndpointTypePrefix|..]), FullNodePath(st.nodeNamespace, st.nodeName));
    } else {
      ListsKept(st, line);
    }
  }

  /** Neither a node path nor the empty path ends in a slash. */
  predicate NoTrailingSlash(paths: seq<string>) {
    forall k :: 0 <= k < |paths| ==> paths[k] == [] || paths[k][|paths[k]| - 1] != '/'
  }

  /** No listed node path ends in a slash. */
  lemma {:induction false} TopicEntriesNoTrailingSlash(lines: seq<string>)
    ensures NoTrailingSlash(TopicScanOf(lines).info.publishers)
    ensures NoTrailingSlash(TopicScanOf(lines).info.subscribers)
  {
    if lines != [] {
      TopicEntriesNoTrailingSlash(lines[..|lines| - 1]);
      StepNoTrailingSlash(TopicScanOf(lines[..|lines| - 1]), lines[|lines| - 1]);
    }
  }

  /** One line keeps the lists free of paths ending in a slash. */
  lemma StepNoTrailingSlash(st: TopicScan, line: string)
    requires NoTrailingSlash(st.info.publishers) && NoTrailingSlash(st.info.subscribers)
    ensures NoTrailingSlash(TopicStep(st, line).info.publishers)
    ensures NoTrailingSlash(TopicStep(st, line).info.subscribers)
  {
    if StartsWith(PyStrip(line), EndpointTypePrefix) {
      var s := PyStrip(line);
      var full := FullNodePath(st.nodeNamespace, st.nodeName);
      EndpointStep(st, line);
      AddEndpointLists(st.info, PyStrip(s[|EndpointTypePrefix|..]), full);
      SnocNoTrailingSlash(st.info.publishers, full);
      SnocNoTrailingSlash(st.info.subscribers, full);
    } else {
      ListsKept(st, line);
    }
  }

  lemma SnocNoTrailingSlash(paths: seq<string>, p: string)
    requires NoTrailingSlash(paths) && (p == [] || p[|p| - 1] != '/')
    ensures NoTrailingSlash(paths + [p])
  {
    assert forall k :: 0 <= k < |paths| ==> (paths + [p])[k] == paths[k];
  }

  /** Replacing changes nothing in a string without two slashes in a row. */
  lemma {:induction false} ReplaceWithoutDouble(s: string)
    requires NoDoubleSlash(s)
    ensures ReplaceDoubleSlash(s) == s
  {
    if s != [] {
      ReplaceWithoutDouble(s[1..]);
      assert s == [s[0]] + s[1..];
    }
  }

  /** A node in the root namespace `/` is listed as `/name`. */
  lemma FullNodePathRoot(name: string)
    requires name != [] && '/' !in name
    ensures FullNodePath(Some("/"), Some(name)) == "/" + name
  {
    var joined := "/" + "/" + name;
    assert joined[2..] == name;
    assert NoDoubleSlash(name);
    ReplaceWithoutDouble(name);
  }

  /** A node in a namespace is listed as `namespace/name`, when the namespace has no
      doubled or trailing slash and the name no slash at all. */
  lemma FullNodePathNested(ns: string, name: string)
    requires ns != [] && ns[|ns| - 1] != '/' && NoDoubleSlash(ns)
    requires name != [] && '/' !in name
    ensures FullNodePath(Some(ns), Some(name)) == ns + "/" + name
  {
    var joined := ns + "/" + name;
    forall k | 0 <= k < |joined| - 1
      ensures !(joined[k] == '/' && joined[k + 1] == '/')
    {
      if k + 1 > |ns| {
        assert joined[k + 1] == name[k - |ns|];
      }
    }
    ReplaceWithoutDouble(joined);
  }

  /** Without a name or a namespace, the path is empty. */
  lemma FullNodePathMissing()
    ensures FullNodePath(None, None) == ""
  {
  }
}
