/**
 * Which of the two supported pages an address belongs to: an issue page of the
 * tracker, a rosbag view of the vehicle-data console, or neither.
 */
module PageClassifier {
  import opened Text
  import opened Chars

  datatype PageType = Jira | MobRosbag | Other

  /** Any address containing this is an issue page. */
  const JiraMarker: string := "tier4.atlassian.net/browse/"
  /** A console rosbag view starts with this ... */
  const ConsolePrefix: string := "https://console.mob.tier4.jp/projects/"
  /** ... and, after at least one more character, contains this. */
  const RosbagPart: string := "/rosbag"

  /** `url[|ConsolePrefix|..j]` is what `.+` matches: at least one character and no line
      terminator; `/rosbag` follows it at `j`. */
  ghost predicate RosbagAt(url: string, j: nat) {
    |ConsolePrefix| < j && HasAt(url, RosbagPart, j)
    && forall k :: |ConsolePrefix| <= k < j ==> !IsJsLineTerminator(url[k])
  }

  /** The address matches `^https:\/\/console\.mob\.tier4\.jp\/projects\/.+\/rosbag`. */
  ghost predicate IsConsoleRosbag(url: string) {
    StartsWith(url, ConsolePrefix) && exists j :: RosbagAt(url, j)
  }

  /** Tries every end `j` of the `.+` from the given one on, as backtracking would. */
  function RosbagFrom(url: string, j: nat): (r: bool)
    requires |ConsolePrefix| < j <= |url|
    requires forall k :: |ConsolePrefix| <= k < j ==> !IsJsLineTerminator(url[k])
    decreases |url| - j
    ensures r <==> exists j' :: j <= j' && RosbagAt(url, j')
  {
    if HasAt(url, RosbagPart, j) then
      assert RosbagAt(url, j);
      true
    else if j < |url| && !IsJsLineTerminator(url[j]) then RosbagFrom(url, j + 1)
    else
      assert forall j' :: j <= j' ==> !RosbagAt(url, j');
      false
  }

  /** The matcher for the console pattern. */
  function MatchesConsole(url: string): (r: bool)
    ensures r <==> IsConsoleRosbag(url)
  {
    var n := |ConsolePrefix|;
    if !StartsWith(url, ConsolePrefix) || |url| <= n || IsJsLineTerminator(url[n]) then
      assert !IsConsoleRosbag(url) by {
        if StartsWith(url, ConsolePrefix) {
          forall j ensures !RosbagAt(url, j) {
            if n < j && HasAt(url, RosbagPart, j) {
              assert n < |url| && IsJsLineTerminator(url[n]);
            }
          }
        }
      }
      false
    else
      var r := RosbagFrom(url, n + 1);
      assert r ==> IsConsoleRosbag(url);
      assert IsConsoleRosbag(url) ==> r by {
        if IsConsoleRosbag(url) {
          var j :| RosbagAt(url, j);
          assert n + 1 <= j;
        }
      }
      r
  }

  /** `getPageType`: the issue-page test comes first and wins over the console test. */
  function GetPageType(url: string): (r: PageType)
    ensures r == Jira <==> exists i :: HasAt(url, JiraMarker, i)
    ensures r == MobRosbag <==> (forall i :: !HasAt(url, JiraMarker, i)) && IsConsoleRosbag(url)
    ensures r == Other <==> (forall i :: !HasAt(url, JiraMarker, i)) && !IsConsoleRosbag(url)
  {
    if Contains(url, JiraMarker) then Jira
    else if MatchesConsole(url) then MobRosbag
    else Other
  }

  /** A string missing one character of a pattern cannot contain the pattern. */
  lemma MissingCharNoMatch(s: string, pat: string, c: char)
    requires c in pat && forall k :: 0 <= k < |s| ==> s[k] != c
    ensures forall i: nat :: !HasAt(s, pat, i)
  {
    var k :| 0 <= k < |pat| && pat[k] == c;
    forall i: nat ensures !HasAt(s, pat, i) {
      if i + |pat| <= |s| {
        assert s[i..i + |pat|][k] == s[i + k];
      }
    }
  }

  /** An issue page is recognised wherever the marker occurs. */
  lemma JiraExample()
    ensures GetPageType("https://" + JiraMarker + "ABC-123") == Jira
  {
    var url := "https://" + JiraMarker + "ABC-123";
    assert url[8..8 + |JiraMarker|] == JiraMarker;
    assert HasAt(url, JiraMarker, 8);
  }

  /** A rosbag view of some project on the console. */
  lemma ConsoleExample()
    ensures GetPageType(ConsolePrefix + "x2_dev" + RosbagPart + "?viz=stream") == MobRosbag
  {
    var project, query := "x2_dev", "?viz=stream";
    var url := ConsolePrefix + project + RosbagPart + query;
    assert forall k :: 0 <= k < |ConsolePrefix| ==> ConsolePrefix[k] != 'w';
    assert forall k :: 0 <= k < |project| ==> project[k] != 'w';
    assert forall k :: 0 <= k < |RosbagPart| ==> RosbagPart[k] != 'w';
    assert forall k :: 0 <= k < |query| ==> query[k] != 'w';
    MissingCharNoMatch(url, JiraMarker, 'w');
    assert url[..|ConsolePrefix|] == ConsolePrefix;
    assert url[44..51] == RosbagPart;
    assert RosbagAt(url, 44);
  }

  /** The project segment must not be empty: `.+` needs one character before `/rosbag`. */
  lemma EmptyProjectExample()
    ensures GetPageType(ConsolePrefix + RosbagPart) == Other
  {
    var url := ConsolePrefix + RosbagPart;
    assert forall k :: 0 <= k < |ConsolePrefix| ==> ConsolePrefix[k] != 'w';
    assert forall k :: 0 <= k < |RosbagPart| ==> RosbagPart[k] != 'w';
    MissingCharNoMatch(url, JiraMarker, 'w');
  }
}
