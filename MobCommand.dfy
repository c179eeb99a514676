/**
 * `getMOBCmd`: on a console rosbag page, the two command lines of the data tool that
 * fetch the rosbag and the area map it was recorded on. The identifiers come from the
 * page text; the map version is whatever the page's last copy button writes to the
 * clipboard, here a parameter.
 */
module MobCommand {
  import opened Options
  import opened Text
  import opened Patterns
  import opened LinkComposer

  /** `File ID\s*\n\s*([^\n]+)`. */
  const RosbagIdPattern: Pattern := FileId
  /** `Area Map\s*\n\s*Shiojiri_Lv4\s*\((.*?)\)`. */
  const AreaMapIdPattern: Pattern := AreaMap

  /** The words of the rosbag command, in template order. */
  function RosbagWords(p: string, e: string, r: string): seq<string> {
    ["webauto", "data", "rosbag", "pull", "--project-id", p, "--environment-id", e, "--rosbag-id", r]
  }

  /** The words of the area-map command, in template order. */
  function MapWords(p: string, a: string, mv: string): seq<string> {
    ["webauto", "map", "area-map", "pull", "--project-id", p, "--area-map-id", a,
     "--area-map-version-id", mv]
  }

  /** `webauto data rosbag pull --project-id ${p} --environment-id ${e} --rosbag-id ${r}`. */
  function RosbagCommand(p: string, e: string, r: string): string {
    JoinWith(RosbagWords(p, e, r), ' ')
  }

  /** `webauto map area-map pull --project-id ${p} --area-map-id ${a} --area-map-version-id ${mv}`. */
  function MapCommand(p: string, a: string, mv: string): string {
    JoinWith(MapWords(p, a, mv), ' ')
  }

  /** The identifiers the command is built from, rendered as the template renders them. */
  function ProjectIdOf(text: string): string { Show(ExtractField(text, ProjectIdPattern)) }
  function EnvironmentIdOf(text: string): string { Show(ExtractField(text, EnvironmentIdPattern)) }
  function RosbagIdOf(text: string): string { Show(ExtractField(text, RosbagIdPattern)) }
  function AreaMapIdOf(text: string): string { Show(ExtractField(text, AreaMapIdPattern)) }

  /** A rendered identifier is one line: an extracted value never holds a newline, and
      a missing one is "null". */
  lemma ShownFieldOneLine(text: string, pat: Pattern)
    ensures '\n' !in Show(ExtractField(text, pat))
  {
    NotAtAnyIndex("null", '\n');
  }

  /** Every literal word of the two templates is free of `c` when `c` is a space or a
      newline. */
  lemma TemplateWordsWithout(c: char)
    requires c == ' ' || c == '\n'
    ensures c !in "webauto" && c !in "data" && c !in "rosbag" && c !in "pull"
    ensures c !in "--project-id" && c !in "--environment-id" && c !in "--rosbag-id"
    ensures c !in "map" && c !in "area-map" && c !in "--area-map-id"
    ensures c !in "--area-map-version-id"
  {
    NotAtAnyIndex("webauto", c);
    NotAtAnyIndex("data", c);
    NotAtAnyIndex("rosbag", c);
    NotAtAnyIndex("pull", c);
    NotAtAnyIndex("--project-id", c);
    NotAtAnyIndex("--environment-id", c);
    NotAtAnyIndex("--rosbag-id", c);
    NotAtAnyIndex("map", c);
    NotAtAnyIndex("area-map", c);
    NotAtAnyIndex("--area-map-id", c);
    NotAtAnyIndex("--area-map-version-id", c);
  }

  /** The rosbag command is read by a shell as its ten words, when no identifier holds a
      space. */
  lemma RosbagCommandWords(p: string, e: string, r: string)
    requires ' ' !in p && ' ' !in e && ' ' !in r
    ensures SplitOn(RosbagCommand(p, e, r), ' ') == RosbagWords(p, e, r)
  {
    TemplateWordsWithout(' ');
    SplitOnJoinWith(RosbagWords(p, e, r), ' ');
  }

  /** The area-map command is read by a shell as its ten words, when no value holds a
      space. */
  lemma MapCommandWords(p: string, a: string, mv: string)
    requires ' ' !in p && ' ' !in a && ' ' !in mv
    ensures SplitOn(MapCommand(p, a, mv), ' ') == MapWords(p, a, mv)
  {
    TemplateWordsWithout(' ');
    SplitOnJoinWith(MapWords(p, a, mv), ' ');
  }

  /** The rosbag command is one line when its identifiers are. */
  lemma RosbagCommandOneLine(p: string, e: string, r: string)
    requires '\n' !in p && '\n' !in e && '\n' !in r
    ensures '\n' !in RosbagCommand(p, e, r)
  {
    TemplateWordsWithout('\n');
    JoinWithout(RosbagWords(p, e, r), ' ', '\n');
  }

  /** The area-map command is one line when its values are. */
  lemma MapCommandOneLine(p: string, a: string, mv: string)
    requires '\n' !in p && '\n' !in a && '\n' !in mv
    ensures '\n' !in MapCommand(p, a, mv)
  {
    TemplateWordsWithout('\n');
    JoinWithout(MapWords(p, a, mv), ' ', '\n');
  }

  /** The area-map command is a single line of output when the map version is one line. */
  lemma MapCommandLines(p: string, a: string, mv: string)
    requires '\n' !in p && '\n' !in a
    ensures '\n' !in mv ==> SplitOn(MapCommand(p, a, mv), '\n') == [MapCommand(p, a, mv)]
  {
    if '\n' !in mv {
      MapCommandOneLine(p, a, mv);
      SplitOnJoinWith([MapCommand(p, a, mv)], '\n');
    }
  }

  /**
   * `getMOBCmd(text)` with the clipboard text `mapVersionId`: the rosbag command, a
   * newline, the area-map command. Its first line is always the whole rosbag command;
   * the output is exactly those two lines whenever the clipboard text is itself one
   * line. The vehicle identifier the source also extracts is not used by either command.
   */
  function GetMobCmd(text: string, mapVersionId: string): (r: string)
    ensures SplitOn(r, '\n') == [RosbagCommand(ProjectIdOf(text), EnvironmentIdOf(text), RosbagIdOf(text))]
      + SplitOn(MapCommand(ProjectIdOf(text), AreaMapIdOf(text), mapVersionId), '\n')
    ensures '\n' !in mapVersionId ==> SplitOn(r, '\n') == [
      RosbagCommand(ProjectIdOf(text), EnvironmentIdOf(text), RosbagIdOf(text)),
      MapCommand(ProjectIdOf(text), AreaMapIdOf(text), mapVersionId)]
  {
    var p, e, b, a := ProjectIdOf(text), EnvironmentIdOf(text), RosbagIdOf(text), AreaMapIdOf(text);
    ShownFieldOneLine(text, ProjectIdPattern);
    ShownFieldOneLine(text, EnvironmentIdPattern);
    ShownFieldOneLine(text, RosbagIdPattern);
    ShownFieldOneLine(text, AreaMapIdPattern);
    RosbagCommandOneLine(p, e, b);
    SplitOnJoin(RosbagCommand(p, e, b), '\n', MapCommand(p, a, mapVersionId));
    MapCommandLines(p, a, mapVersionId);
    RosbagCommand(p, e, b) + "\n" + MapCommand(p, a, mapVersionId)
  }
}
