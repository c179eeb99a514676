# Rosbag URL extension and ROS 2 graph inspector, modelled in Dafny

This project models the parsing core of two small tools.

**The browser extension** (`rosbag-url-extension/content.js`) reads the text of the pages it runs on:

- `getPageType` classifies the current address: an issue-tracker page, the console's rosbag view of some project, or anything else.
- `extractField` takes the trimmed first capture of a field pattern.
- `getFromToTs` turns a Japan-time timestamp `YYYY-MM-DD hh:mm:ss` into the epoch-second window from two minutes before to two minutes after it.
- `generateUrls` builds one console link per "occurred at" (`発生時刻`) timestamp of an issue page.
- `extractCases` collects every block of project, vehicle and environment identifiers followed by a timestamp.
- `getMOBCmd` assembles the two command lines of the data tool that fetch a rosbag and its area map.

**The graph inspector** (`ros2_graph_inspector.py`) reads what `ros2` printed:

- `get_nodes` and `get_topics` read the lists of names;
- `get_node_info` reads the publishers, subscribers and services of a node;
- `get_topic_info` reads a topic's type, its endpoint counts, and the nodes that publish or subscribe to it.

## How the regular expressions are modelled

- The extension's regular expressions are written out by hand, one function per pattern, with the backtracking choices of the ECMAScript engine made explicit:
  - the greedy `\s*` before a `([^\n]+)` group gives way as far as the group needs;
  - the lazy `[\s\S]*?` gaps of the case pattern let a group stop early, so that the rest of the pattern can still match;
  - `matchAll` and the `exec` loop of a global pattern resume each search where the previous match ended.
- Strings are sequences of Unicode scalar values.
- White space follows each language's own definition: ECMAScript's `\s` and `trim`, and Python's `str.isspace`, `str.strip` and `str.splitlines`.

## How state changes are modelled

- The Python loops that build dictionaries become methods. Each has a `while` loop, and each is proved equal to a fold of a one-line step function over the lines. The properties are then proved about the step and the fold.
- The extension's `exec` loop is a method proved equal to the list of blocks a global search finds.
- Dictionaries with fixed keys are datatypes:
  - `NodeInfo` holds the three lists of `get_node_info`;
  - `TopicInfo` holds the five entries of `get_topic_info`.
- Everything else in the core is pure and is modelled as functions.

## Model

| member | source | states |
|---|---|---|
| PageClassifier.GetPageType | rosbag-url-extension/content.js:4-13 | Issue tracker exactly when the address contains the tracker marker. Otherwise, rosbag view exactly when the address starts with the console's project prefix and a non-empty one-line project part is followed by `/rosbag`. Otherwise other. All three directions are if-and-only-if. |
| PageClassifier.MatchesConsole | rosbag-url-extension/content.js:9 | The search for `/rosbag` after the project part succeeds exactly when the anchored console pattern matches. |
| PageClassifier.RosbagFrom | rosbag-url-extension/content.js:9 | Scanning from `j` finds `/rosbag` exactly when it occurs at some index at or after `j`. The scan stops at a line terminator, which `.` cannot cross. |
| PageClassifier.MissingCharNoMatch | rosbag-url-extension/content.js:7 | A string that lacks one character of a pattern contains it at no index. |
| PageClassifier.JiraExample | rosbag-url-extension/content.js:7-8 | An issue address is classified as the issue tracker. |
| PageClassifier.ConsoleExample | rosbag-url-extension/content.js:9-10 | A console rosbag address with a query is classified as the rosbag view. |
| PageClassifier.EmptyProjectExample | rosbag-url-extension/content.js:9 | Without a project part (`.+` needs one character), the console address is other. |
| Patterns.Trim | rosbag-url-extension/content.js:17 | `trim` returns a slice of its input with only ECMAScript white space before and after it. The slice starts and ends with no white space, and it is empty exactly when the input is all white space. |
| Text.StripSlice | rosbag-url-extension/content.js:17 | Stripping, in either language's white space, cuts a slice out of the input with only white space outside it. |
| Text.StripUnique | ros2_graph_inspector.py:19 | Any slice with only white space outside it and none at its own ends is the stripped text: stripping is the unique such slice. |
| Patterns.CaptureAt | rosbag-url-extension/content.js:36-38 | `\s*([^\n]+)` under a bound. The group follows only white space and lies on one line. It ends at its line's end or at the bound. No later start that white space reaches could begin a longer group, and none exists when it fails. |
| Patterns.CaptureToLineEnd | rosbag-url-extension/content.js:36-38 | Without a bound, `\s*([^\n]+)` captures exactly when white space reaches a character other than `\n`. The group is the rest of that line, starting at the last such character the white space reaches. |
| Patterns.LabelledAt | rosbag-url-extension/content.js:36-38 | A match of `key[:：]\s*([^\n]+)` at `i`: its group lies after the label, is not empty and is on one line. |
| Patterns.LabelledAtMatches | rosbag-url-extension/content.js:36-38 | The labelled pattern matches at `i` exactly when the label and a colon are there and white space after them reaches a character other than `\n`. The group runs from the last such character to the end of its line. |
| Patterns.FileIdAt | rosbag-url-extension/content.js:138 | A match of `File ID\s*\n\s*([^\n]+)` at `i`: a non-empty one-line group after the label. |
| Patterns.NewlineThenCaptureSpec | rosbag-url-extension/content.js:138 | The `\n` the engine settles on is one the white space after the label reaches, followed by a one-line group. When none is found, no `\n` the white space reaches is followed by content. |
| Patterns.FileIdAtMatches | rosbag-url-extension/content.js:138 | `File ID\s*\n\s*([^\n]+)` matches at `i` exactly when the label is there and its white space holds a `\n` followed by white space and then content. The group is the rest of the line after such a `\n`. |
| Patterns.AreaMapAt | rosbag-url-extension/content.js:139 | A match of `Area Map\s*\n\s*Shiojiri_Lv4\s*\((.*?)\)` at `i`: the group follows a `(`, ends at a `)` and holds neither a `)` nor a line terminator, so it ends at the first `)`. The match ends just after that `)`. |
| Patterns.ParenGroupAt | rosbag-url-extension/content.js:139 | `\s*\((.*?)\)`: the group follows a `(` and ends at the first `)`, on the same line. |
| Patterns.ParenGroupAtMatches | rosbag-url-extension/content.js:139 | `\s*\((.*?)\)` finds a group exactly when white space reaches a `(` and a `)` follows it on the same line. |
| Patterns.AreaMapAtMatches | rosbag-url-extension/content.js:139 | The area-map pattern matches at `i` exactly when the label is there, its white space holds a `\n` and reaches `Shiojiri_Lv4`, and a parenthesised one-line group follows. |
| Patterns.OccurredAtAt | rosbag-url-extension/content.js:42 | A match of the timestamp pattern at `i`: its group has the shape `dddd-dd-dd dd:dd:dd` and lies on one line. |
| Patterns.OccurredAtAtMatches | rosbag-url-extension/content.js:42 | The timestamp pattern matches at `i` exactly when the label and a colon are there and white space reaches a timestamp, with or without a `[` before it. The group is those 19 characters. |
| Patterns.MatchAt | rosbag-url-extension/content.js:36-42 | Each pattern's match starts where it is tried and has a group on one line inside it. The timestamp pattern's group has the timestamp shape. |
| Patterns.MatchAtMatches | rosbag-url-extension/content.js:36-42 | Each of the four patterns is found at `i` exactly when it matches there, stated on the text alone. A labelled field's group, and a `File ID` group, run to the end of their line. |
| Patterns.FirstMatch | rosbag-url-extension/content.js:16 | The leftmost index at or after `from` where the pattern matches. There is none before it, and none at all when the result is None. |
| Patterns.FirstMatchLeftmost | rosbag-url-extension/content.js:16 | The pattern matches, on the text alone, where the search stops, and nowhere between `from` and there. |
| Patterns.ExtractField | rosbag-url-extension/content.js:15-18 | Null exactly when the pattern is found nowhere. Otherwise the trimmed group of the leftmost match, which holds no newline. |
| Patterns.ExtractFieldNone | rosbag-url-extension/content.js:15-18 | Null exactly when the pattern, stated on the text alone, matches at no index. |
| Patterns.ExtractFieldLeftmost | rosbag-url-extension/content.js:15-18 | A value is the trimmed group of the leftmost index where the pattern matches on the text. For a labelled field, that group is the rest of its line after the white space. |
| Patterns.AllMatches | rosbag-url-extension/content.js:42 | `matchAll`: the matches found, each a real match of the pattern, in text order and not overlapping. |
| Patterns.AllMatchesNoneBefore | rosbag-url-extension/content.js:42 | There is no match before the first one found, and none at all when nothing is found. |
| Patterns.AllMatchesNoneAfter | rosbag-url-extension/content.js:42 | There is no match after the end of the last match found. |
| Patterns.AllMatchesNoneBetween | rosbag-url-extension/content.js:42 | There is no match between the end of one found match and the start of the next. |
| Patterns.FirstWhere | rosbag-url-extension/content.js:16 | The least index in `[from, n]` that satisfies `ok`, or None when no index in that range does. |
| Patterns.LastWhere | rosbag-url-extension/content.js:85 | The greatest index up to `hi` that satisfies `ok`, or None when none does. |
| TimeWindow.ParseTimestamp | rosbag-url-extension/content.js:22-24 | Splitting at the space, `-` and `:` gives six numbers. The five two-digit fields are below 100. |
| TimeWindow.WindowOf | rosbag-url-extension/content.js:27-32 | The window is 240 seconds wide. It starts 120 seconds before the instant and ends 120 after. |
| TimeWindow.GetFromToTs | rosbag-url-extension/content.js:20-33 | `getFromToTs`: the window of the parsed timestamp read as Japan time (UTC+9), in epoch seconds. |
| TimeWindow.WindowIsJstInstant | rosbag-url-extension/content.js:27 | For a year of at least 100 and a month of 1 to 12, the window is centred on the proleptic Gregorian UTC instant nine hours before the wall-clock time. |
| TimeWindow.DayFromYearIsYearStart | rosbag-url-extension/content.js:27 | The closed formula for the first day of a year equals the day count obtained by adding year lengths from 1970. |
| TimeWindow.DaysBeforeMonthIsMonthStart | rosbag-url-extension/content.js:27 | The month table equals the sum of the month lengths before the month. |
| TimeWindow.MakeDayIsCalendar | rosbag-url-extension/content.js:27 | `Date.UTC`'s day number is the year start plus the month start plus the day minus one. |
| TimeWindow.DayFromYearStep | rosbag-url-extension/content.js:27 | Consecutive years' first days differ by that year's length (365 or 366). |
| TimeWindow.SecondsShift | rosbag-url-extension/content.js:24-30 | Two timestamps that differ only in the seconds field by `k` have windows shifted by `k`. |
| TimeWindow.SecondsOnlyField | rosbag-url-extension/content.js:24 | Changing only the seconds digits changes only the parsed seconds field. |
| TimeWindow.WindowSecondsShift | rosbag-url-extension/content.js:29-30 | Adding `k` seconds to the fields shifts both ends of the window by `k`. |
| TimeWindow.ExampleWindow | rosbag-url-extension/content.js:20-33 | `2025-09-29 05:36:04` gives the window 1759091644 to 1759091884. |
| TimeWindow.ExampleWindowUtc | rosbag-url-extension/content.js:27 | The same window is the UTC instants 2025-09-28 20:34:04 and 20:38:04. |
| TimeWindow.ExampleFields | rosbag-url-extension/content.js:22-24 | The example timestamp parses to its six fields. |
| TimeWindow.ExampleEpoch | rosbag-url-extension/content.js:27 | The example instant is 1759091764 epoch seconds. |
| Decimal.IntToString | rosbag-url-extension/content.js:51 | The template's rendering of an integer: digits with an optional leading minus. |
| Decimal.IntToStringRoundTrip | rosbag-url-extension/content.js:51 | Reading a rendered integer back gives the integer. |
| Decimal.NatToStringRoundTrip | rosbag-url-extension/content.js:51 | Reading a rendered natural number back gives the number. |
| LinkComposer.GenerateUrls | rosbag-url-extension/content.js:35-62 | Null exactly when the project or vehicle identifier is missing or empty, or no timestamp matches. Otherwise one entry per timestamp match, in text order. |
| LinkComposer.EntriesFor | rosbag-url-extension/content.js:46-59 | One entry per match. Each carries the three identifiers, the match's timestamp and the link of that timestamp's window. |
| LinkComposer.EntryFor | rosbag-url-extension/content.js:47-55 | An entry holds its inputs and the link of its timestamp's window. |
| LinkComposer.TimestampOf | rosbag-url-extension/content.js:47 | A match's captured timestamp has the shape `getFromToTs` expects, so its `try` never fails. |
| LinkComposer.TimestampMatches | rosbag-url-extension/content.js:42 | Every element is a match of the timestamp pattern at its own index. |
| LinkComposer.Show | rosbag-url-extension/content.js:50-53 | A missing value is spliced in as `null`, and a present one as itself. |
| LinkComposer.MobUrl | rosbag-url-extension/content.js:50-53 | When the project identifier holds no `?`, the link's first `?` ends the project's rosbag-view path, and the search part follows it. |
| LinkComposer.MobUrlParams | rosbag-url-extension/content.js:50-53 | When no identifier holds `&`, splitting the link at `&` gives the six parameters in template order. |
| LinkComposer.MobSearchParams | rosbag-url-extension/content.js:51-53 | The search part splits at `&` into exactly its parameters. |
| LinkComposer.MobUrlWindowRoundTrip | rosbag-url-extension/content.js:49-51 | The `from_ts` and `to_ts` parameters read back as the window's two ends. |
| LinkComposer.MobUrlIsRosbagPage | rosbag-url-extension/content.js:50 | For a non-empty one-line project identifier, `getPageType` classifies the generated link as the rosbag view, unless the link contains the tracker marker. |
| CaseCollector.SuffixAt | rosbag-url-extension/content.js:85 | When the case pattern's fields for `keys` match at `s`, the result is a block of labelled one-line fields starting at `s`, each at or after the end of the previous one. |
| CaseCollector.LaterFields | rosbag-url-extension/content.js:85 | With two or more keys and the first label at `s`, any result is a block of the keys' fields starting at `s`, each field at or after the end of the previous one. |
| CaseCollector.SuffixComplete | rosbag-url-extension/content.js:85 | Completeness: wherever a block of the four labelled fields exists, the pattern matches at its first label. |
| CaseCollector.FirstStart | rosbag-url-extension/content.js:88 | The leftmost index at or after `lo` where the case pattern matches. There is none before it, and none at all when the result is None. |
| CaseCollector.FirstStartLeftmost | rosbag-url-extension/content.js:88 | Whenever a block exists at or after `from`, the search finds a match and it starts no later than that block. |
| CaseCollector.BlockEnds | rosbag-url-extension/content.js:85 | A block's four fields come in order, not overlapping, within the text. |
| CaseCollector.BlocksFrom | rosbag-url-extension/content.js:88-91 | The blocks of the global search from `from`: each has the four fields of the pattern, and each starts after the previous one ends. |
| CaseCollector.BlocksFromStep | rosbag-url-extension/content.js:88-91 | One `exec` step: the found block, then the blocks of the search resumed at its end, which lies past `from`. |
| CaseCollector.BlocksNoneBefore | rosbag-url-extension/content.js:88-91 | No block of the four labelled fields starts before the first block found, and none at all when nothing is found. |
| CaseCollector.BlocksNoneAfter | rosbag-url-extension/content.js:88-91 | No block starts at or after the end of the last block found. |
| CaseCollector.BlocksNoneBetween | rosbag-url-extension/content.js:88-91 | No block starts between the end of one found block and the start of the next. |
| CaseCollector.CasesOf | rosbag-url-extension/content.js:89-90 | One case per block, in order, built from the block's four groups. |
| CaseCollector.CaseOfFields | rosbag-url-extension/content.js:89-90 | Every field of a case from a block is non-empty and on one line. |
| CaseCollector.CasesOnOneLine | rosbag-url-extension/content.js:83-93 | Every case found has its four fields non-empty and on one line. |
| CaseCollector.ExtractCases | rosbag-url-extension/content.js:83-93 | The loop returns the cases of all the blocks the global search finds, in order. Every field of every case is non-empty and on one line. |
| MobCommand.GetMobCmd | rosbag-url-extension/content.js:111-162 | The first line of the output is the whole rosbag command, and the rest is the lines of the area-map command. When the clipboard text holds no newline, the output is exactly those two lines. |
| MobCommand.RosbagCommandWords | rosbag-url-extension/content.js:156 | When no identifier holds a space, the rosbag command splits at spaces into its ten template words. |
| MobCommand.MapCommandWords | rosbag-url-extension/content.js:157 | When no value holds a space, the area-map command splits at spaces into its ten template words. |
| MobCommand.RosbagCommandOneLine | rosbag-url-extension/content.js:156 | The rosbag command holds no newline when its identifiers hold none. |
| MobCommand.MapCommandOneLine | rosbag-url-extension/content.js:157 | The area-map command holds no newline when its values hold none. |
| MobCommand.MapCommandLines | rosbag-url-extension/content.js:157 | The area-map command is a single line when the map version holds no newline. |
| MobCommand.ShownFieldOneLine | rosbag-url-extension/content.js:133-139 | Every identifier as the template renders it (`null` when missing) is free of newlines. |
| PyText.PyStrip | ros2_graph_inspector.py:19 | `str.strip()` keeps only input characters. It is empty exactly when the input is all white space, it has no white space at either end, and it is the identity on already-stripped text. |
| PyText.PyStripSlice | ros2_graph_inspector.py:19 | `str.strip()` cuts a slice out of its input with only Python white space outside it. |
| PyText.SplitLines | ros2_graph_inspector.py:19 | `str.splitlines()`: no line holds a line break, and there are no lines exactly when the text is empty. |
| PyText.SplitLinesTerminated | ros2_graph_inspector.py:19 | Lines printed one per line come back unchanged from `splitlines`. |
| PyText.BeforeFirst | ros2_graph_inspector.py:46 | `split(c, 1)[0]` is the prefix before the first `c` and holds no `c`. It is the whole string exactly when there is no `c`. |
| PyText.AfterFirst | ros2_graph_inspector.py:65 | `split(c, 1)[1]` is what follows the first `c`: prefix, separator and rest rebuild the string. |
| GraphInspector.NameList | ros2_graph_inspector.py:17-23 | Every name is non-empty and stripped. |
| GraphInspector.NonBlank | ros2_graph_inspector.py:19 | The comprehension yields at most one name per line, and every name is non-empty and stripped. |
| GraphInspector.NameListRoundTrip | ros2_graph_inspector.py:17-23 | Names printed one per line are read back exactly, when each is non-empty, stripped and free of line breaks. |
| GraphInspector.NonBlankConcat | ros2_graph_inspector.py:19 | The filter keeps line order: the names of two runs of lines are the first run's names followed by the second's. |
| GraphInspector.NonBlankSingle | ros2_graph_inspector.py:19 | A line gives its stripped text, or nothing when it is blank. |
| GraphInspector.NonBlankOfStripped | ros2_graph_inspector.py:19 | Stripping and filtering leave non-empty stripped lines unchanged. |
| GraphInspector.NameListEmpty | ros2_graph_inspector.py:10-15 | A failed command, which prints nothing, lists no names. |
| GraphInspector.GetNodeInfo | ros2_graph_inspector.py:25-48 | The loop returns the fold of the one-line step over the output's lines. |
| GraphInspector.NodeInfoEmpty | ros2_graph_inspector.py:25-28 | No output gives three empty lists. |
| GraphInspector.NodeStep | ros2_graph_inspector.py:30-47 | Only a header line changes the current section. Only an entry line changes the lists, and it leaves the section as it is. |
| GraphInspector.BlankStep | ros2_graph_inspector.py:31-32 | A blank line changes nothing. |
| GraphInspector.HeaderStep | ros2_graph_inspector.py:33-42 | A line ending in `:` keeps the lists and selects its key's section: Services for either service header, and none for an unknown key, each as an if-and-only-if. |
| GraphInspector.EntryStep | ros2_graph_inspector.py:43-47 | A non-header line appends its entry name to the current section exactly when it is an entry line, and otherwise changes nothing. The entry count grows by one exactly for an entry line. |
| GraphInspector.DroppedWithoutSection | ros2_graph_inspector.py:41-44 | With no section selected, no line but a header changes anything. |
| GraphInspector.EntryNameShape | ros2_graph_inspector.py:46 | An entry name holds no colon and no white space at either end. |
| GraphInspector.NodeInfoGrows | ros2_graph_inspector.py:29-47 | The lists only grow: after every prefix of the lines, the lists are prefixes of the final ones. |
| GraphInspector.StepGrows | ros2_graph_inspector.py:43-47 | One line only appends to the lists. |
| GraphInspector.NodeEntriesBound | ros2_graph_inspector.py:29-47 | The lists hold at most one entry per line. |
| GraphInspector.StepCount | ros2_graph_inspector.py:47 | One line adds at most one entry. |
| GraphInspector.GetTopicInfo | ros2_graph_inspector.py:50-85 | The loop returns the fold of the one-line step over the output's lines. |
| GraphInspector.TopicInfoEmpty | ros2_graph_inspector.py:52-58 | No output gives empty fields and empty lists. |
| GraphInspector.TopicStep | ros2_graph_inspector.py:63-83 | An endpoint line clears the node name and namespace. No other line changes the two lists, and a line that takes no branch changes nothing. |
| GraphInspector.KindOf | ros2_graph_inspector.py:64-74 | The branch a line takes: a line that takes a branch starts with that branch's prefix. |
| GraphInspector.KindOfExact | ros2_graph_inspector.py:64-74 | A line takes a branch exactly when it starts with that branch's prefix, since no two prefixes can start the same line. |
| GraphInspector.FieldAfterPrefix | ros2_graph_inspector.py:65-75 | `split(':', 1)[1].strip()` of a line that starts with a prefix whose only colon is its last character is the stripped text after the prefix. |
| GraphInspector.PrefixOneColon | ros2_graph_inspector.py:64-74 | Each of the six prefixes has its only colon at its end. |
| GraphInspector.BranchValue | ros2_graph_inspector.py:65-75 | Each branch reads the stripped text after its own prefix. |
| GraphInspector.TypeStep | ros2_graph_inspector.py:64-65 | A `Type:` line sets `Type` to the text after the prefix, and no other line changes it. |
| GraphInspector.PublisherCountStep | ros2_graph_inspector.py:66-67 | A `Publisher count:` line sets `Publisher count`, and no other line changes it. |
| GraphInspector.SubscriberCountStep | ros2_graph_inspector.py:68-69 | A `Subscription count:` line sets `Subscriber count`, and no other line changes it. |
| GraphInspector.TopicFieldsAreLast | ros2_graph_inspector.py:62-69 | The three fields hold the values of the last line with their prefix, or stay empty when there is none. |
| GraphInspector.NodeFieldStep | ros2_graph_inspector.py:70-73 | A `Node name:` or `Node namespace:` line records that value and leaves the result alone. |
| GraphInspector.EndpointStep | ros2_graph_inspector.py:74-83 | An endpoint line adds the node path of the recorded namespace and name as its type says, and clears both. |
| GraphInspector.AddEndpointLists | ros2_graph_inspector.py:78-81 | The path is appended to `Publishers` for `PUBLISHER` and to `Subscribers` for `SUBSCRIPTION`. Neither list changes for any other type, and the three fields are kept. |
| GraphInspector.ListsKept | ros2_graph_inspector.py:64-74 | A line that is not an endpoint line leaves both lists as they are. |
| GraphInspector.TopicEntriesBound | ros2_graph_inspector.py:74-81 | The two lists hold at most one path per endpoint line. |
| GraphInspector.StepEntries | ros2_graph_inspector.py:74-81 | One line adds a path only if it is an endpoint line, and then one. |
| GraphInspector.TopicEntriesNoTrailingSlash | ros2_graph_inspector.py:76-81 | No listed node path ends in `/`. |
| GraphInspector.StepNoTrailingSlash | ros2_graph_inspector.py:76-81 | One line keeps both lists free of paths ending in `/`. |
| GraphInspector.FullNodePath | ros2_graph_inspector.py:76-77 | The joined, de-doubled path never ends in `/`. |
| GraphInspector.ReplaceDoubleSlash | ros2_graph_inspector.py:77 | `replace('//', '/')` never lengthens the text and empties only the empty text. |
| GraphInspector.ReplaceWithoutDouble | ros2_graph_inspector.py:77 | Replacing changes nothing in text without two slashes in a row. |
| GraphInspector.FullNodePathRoot | ros2_graph_inspector.py:76-77 | A node named `name` (no slash) in the root namespace `/` is listed as `/name`. |
| GraphInspector.FullNodePathNested | ros2_graph_inspector.py:76-77 | In a namespace with no doubled or trailing slash, a node `name` without a slash is listed as `namespace/name`. |
| GraphInspector.FullNodePathMissing | ros2_graph_inspector.py:76-77 | With neither a name nor a namespace, the path is empty. |

## Left out

- The page and browser interfaces are not modelled: the DOM, link injection, buttons, `waitForCopyButton`, `injectMOBUI`, alerts and the clipboard. `getPageType` takes the address as a parameter instead of reading `window.location.href`.
- `getMOBCmd` also replaces `navigator.clipboard.writeText` and clicks the page's last copy button to learn the map version. The model takes that clipboard text as the parameter `mapVersionId`.
- In `getMOBCmd`, the address parsing, `decodeURIComponent` and the inner `extractId` (content.js:116-131) are not modelled. Their results are never used.
- `getMOBCmd`'s vehicle identifier (content.js:134) is extracted but used by neither command, so the model does not extract it.
- `generateUrls`'s `catch` branch and the `filter(Boolean)` that removes its nulls are not modelled. Every captured timestamp has the shape `getFromToTs` expects, so the branch cannot be taken; `LinkComposer.TimestampOf` proves that shape.
- Strings are sequences of Unicode scalar values, not ECMAScript's UTF-16 code units. Every character the patterns name lies in the Basic Multilingual Plane, so captures and indices agree for such text.
- The Date arithmetic is exact integer arithmetic in milliseconds:
  - two-digit years are remapped to 1900 + year, and month overflow is normalised, as `Date.UTC` does;
  - `TimeClip`'s range limit is not modelled, because a four-digit year never reaches it;
  - numbers are integers, and `Number`'s floating point is not modelled.
- `run_ros2_cmd` (ros2_graph_inspector.py:10-15) is not modelled: it runs a subprocess and returns its output, or the empty string on any failure. Each parser takes that output text as its input.
- The PyQt window class (from ros2_graph_inspector.py:87) is not modelled.
- `TopicInfo` and `NodeInfo` stand for dictionaries with fixed keys, so adding a key at run time is not modelled.
