# tproj view model, in Dafny

tproj is a macOS control panel for a tmux workspace. The workspace is the tmux
session `tproj-workspace`, window `dev`. It is laid out as numbered columns, one
project per column. Each column has a claude pane and a codex pane. It may also
have a yazi pane and a terminal pane. Every pane carries its tags (`@column`,
`@role`, `@project`, `@remote_host`, `@remote_path`) as tmux pane options.

The model covers the app's `AppViewModel`. That includes:

- how it reads the panes into live columns;
- how it keeps column identities stable across refreshes;
- how it renumbers columns in visual order;
- how it reorders, removes and tears down columns and sessions.

It also covers the quoting helpers and the workspace file, the Ghostty
configuration reader, and the MIDI learn state machine of `MIDIPaneActivator`.

## Modules

- `Text` models the Swift string operations the code relies on:
  - `split` with and without empty pieces, and `maxSplits: 1`;
  - `trimmingCharacters(in:)` for whitespace, and for whitespace and newlines;
  - `replacingOccurrences`;
  - `Int(String)` and `Int32(String)`, bounded to their 64-bit and 32-bit ranges;
  - integer interpolation.

  Strings are sequences of Unicode scalars.
- `Gateway` is the command gateway:
  - Every external effect is a `Command`. That covers each tmux call, the rebalance script, `pkill`, `kill(pid, SIGTERM)`, the orphan scan and the removal of `/tmp/tproj-dead-agents`.
  - The class `Mux` records each command with its result in `log`.
  - Results come from an oracle `respond(logSoFar, cmd)`, fixed for a run.
  - `trimmedError` is modelled here too.
- `PaneReader` parses the `list-panes` records of `loadLiveColumns`, groups them per column into builders, and orders the builders left to right.
- `IdentityMerge` is the merge by project path that keeps existing ids.
- `Renumber` models `normalizeColumnsByVisualOrderAsync` and `remappedRoleColumnSuffix`.
- `Reorder` models the value parts of `moveColumn`:
  - the pane listing and `paneID(forRole:)`;
  - the metadata reads and the moved/not-moved test;
  - `swapProjectTagsAsync` and its effect on a store of pane options;
  - `relocatePaneAboveCodexAsync`;
  - the whole reorder command protocol.
- `Teardown` models the Stop and Kill controller:
  - `getTprojSessions`;
  - the per-pane keys;
  - the process-tree search of `collectSessionDescendants`;
  - polling;
  - the forced kills and the order of the phases.
- `App` is the class `AppViewModel`. Its fields are `liveColumns`, `statusText`, `isBusy`, the id counter `nextToken` and the gateway. Its methods are `loadLiveColumns`, `refreshColumnIdentities`, `moveColumn`, `removeColumn`, `stopSession` and `killSession`.
- `Quoting` models `shellSingleQuote`, `shellDoubleQuote` and `yamlQuote`. Each has a reader of the quoted form: the POSIX shell's quoting rules (section 2.2 of the Shell Command Language) and YAML 1.2 single-quoted scalars (section 7.3.2). Reading a quoted value gives the value back. The shell reader refuses an unescaped `$` or backtick, which would start an expansion.
- `Workspace` models:
  - `WorkspaceProject` and `effectiveAlias`;
  - `renderWorkspaceYAML`;
  - a reader of the rendered file, with the loader's defaults for omitted keys, and the round trip between the two.
- `Ghostty` models `GhosttyConfigParser.parseFile` as a loop, and the settings and palette it produces.
- `Midi` models `MIDILearnStore.load` and the class `MIDIPaneActivator`. The class holds the bindings, the learn step, the learn flag, the debounce memory and the list of callbacks it fired.

A `UUID()` becomes a fresh number from the counter `nextToken`. This is enough
to state what the source relies on: fresh ids differ from every id in use.

## Model

| member | source | states |
|---|---|---|
| Gateway.Mux.Run | apps/tproj/Sources/TprojApp/main.swift:1461-1468 | Running a command appends it and the environment's answer to the log, and returns that answer. |
| Gateway.Mux.RunAllChecked | apps/tproj/Sources/TprojApp/main.swift:1316-1331 | Runs the commands in order. The result is true exactly when every one of them exited with status 0. |
| Gateway.TrimmedErrorSource | apps/tproj/Sources/TprojApp/main.swift:1493-1496 | The error text is stderr, or stdout when stderr is empty, trimmed at both ends. It keeps stderr's first character when that is not whitespace. |
| Gateway.AllSucceededConcat | apps/tproj/Sources/TprojApp/main.swift:1316-1331 | A run of commands all succeeded iff both of its parts did. |
| PaneReader.ParseRecord | apps/tproj/Sources/TprojApp/main.swift:1173-1183 | A record is read only from a line of at least eight fields whose column is a positive integer. Otherwise the line gives nothing. |
| PaneReader.MalformedLineIgnored | apps/tproj/Sources/TprojApp/main.swift:1172-1176 | A line with fewer than eight fields or no positive column changes neither the records nor the grouped columns. |
| PaneReader.ParseRecordsConcat | apps/tproj/Sources/TprojApp/main.swift:1171-1215 | Parsing is line by line: the records of two listings concatenated are the records of each, concatenated. |
| PaneReader.GroupPanes | apps/tproj/Sources/TprojApp/main.swift:1169-1215 | The grouping loop computes the fold `Group` of the parsed records. |
| PaneReader.AbsorbRecord | apps/tproj/Sources/TprojApp/main.swift:1186-1214 | One record updates its column's builder as the fold step `Absorb` says. |
| PaneReader.IdentifyRecord | apps/tproj/Sources/TprojApp/main.swift:1192-1206 | The method computes `Identify`. A remote record sets the remote label and takes the path from the remote path or the `ssh://` project. A local record sets `local` and its project. |
| PaneReader.Identify | apps/tproj/Sources/TprojApp/main.swift:1192-1206 | The host label is `local` iff the record is local. Only the project path and host label change. |
| PaneReader.IdentifyRemote | apps/tproj/Sources/TprojApp/main.swift:1192-1202 | A remote record labels the builder `remote` or `remote@<host>`. Its remote path wins. Else an `ssh://` project gives its part from the first `/`, once every `ssh://` is removed. Else the path is unchanged. |
| PaneReader.AbsorbIdentity | apps/tproj/Sources/TprojApp/main.swift:1191-1206 | A record sets path and label (by `Identify`) only from a claude/codex pane or while the path is empty. Otherwise both are kept. |
| PaneReader.Absorb | apps/tproj/Sources/TprojApp/main.swift:1186-1212 | The column is kept. The left offset never grows, and only a claude/codex pane lowers it. The width is kept or becomes the record's positive width. |
| PaneReader.Group | apps/tproj/Sources/TprojApp/main.swift:1169-1215 | Every builder is filed under its own column number. |
| PaneReader.GroupKeys | apps/tproj/Sources/TprojApp/main.swift:1186-1214 | The grouped columns are exactly the columns of the records, and each builder carries its own column number. |
| PaneReader.GroupLeftBound | apps/tproj/Sources/TprojApp/main.swift:1188 | A column's left offset is at most the offset of each of its claude/codex panes. |
| PaneReader.GroupLeftAttained | apps/tproj/Sources/TprojApp/main.swift:1162-1188 | A column's left offset is the offset of one of its claude/codex panes, or the `Int.max` default when it has none. |
| PaneReader.GroupAbsent | apps/tproj/Sources/TprojApp/main.swift:1186-1214 | A column missing from the grouping has no record. |
| PaneReader.GroupWidth | apps/tproj/Sources/TprojApp/main.swift:1187 | A column's width is the last positive width among its records, or 0. |
| PaneReader.GroupSlot | apps/tproj/Sources/TprojApp/main.swift:1209-1212 | Each pane slot (claude, codex, yazi, terminal) holds the id of the last record of that column whose role starts with the slot's prefix, or none. |
| PaneReader.AuxiliaryKeepsIdentity | apps/tproj/Sources/TprojApp/main.swift:1190-1191 | A yazi or terminal record leaves the path and host of a column that already has a path unchanged. |
| PaneReader.LocalPaneSetsPath | apps/tproj/Sources/TprojApp/main.swift:1203-1206 | A local claude/codex pane, or any local pane while the column has no path yet, makes the column local with the pane's `@project` as its path. |
| PaneReader.RemotePaneSetsPath | apps/tproj/Sources/TprojApp/main.swift:1191-1202 | A remote claude/codex pane, or any remote pane while the column has no path yet, labels the column `remote` or `remote@<host>`. The path comes from the remote path, else from the first `/` of the `ssh://` project with every `ssh://` removed, else stays. Other panes leave path and label alone. |
| PaneReader.SortBuilders | apps/tproj/Sources/TprojApp/main.swift:1217-1222 | The builders are sorted by left offset and then column, and are a permutation of the input. |
| PaneReader.SortColumns | apps/tproj/Sources/TprojApp/main.swift:1217-1222 | Sorting keeps the set of columns, and the columns stay distinct. |
| PaneReader.ListingUnique | apps/tproj/Sources/TprojApp/main.swift:1217-1222 | Two sorted listings of the same distinct builders are equal. The order is total, so the displayed order does not depend on dictionary order. |
| PaneReader.ValuesOf | apps/tproj/Sources/TprojApp/main.swift:1217-1218 | Lists the dictionary's builders, each once. |
| PaneReader.FreshColumns | apps/tproj/Sources/TprojApp/main.swift:1223-1235 | Each sorted builder becomes one `LiveColumn`, in order, with consecutive fresh ids. |
| PaneReader.ReportedLeft | apps/tproj/Sources/TprojApp/main.swift:1229 | A column with no claude/codex pane is shown at left offset 0. Otherwise its left offset is at most each primary pane's. |
| IdentityMerge.FirstUnused | apps/tproj/Sources/TprojApp/main.swift:1242-1244 | Finds the first previous column with the same path whose id is not used yet, or none when no such column exists. |
| IdentityMerge.MergeIdentities | apps/tproj/Sources/TprojApp/main.swift:1237-1259 | The merge loop computes the function `Merge`. |
| IdentityMerge.Merge | apps/tproj/Sources/TprojApp/main.swift:1237-1259 | One merged column per incoming column, in order. Each keeps its data, and only its id may change. |
| IdentityMerge.MergeAll | apps/tproj/Sources/TprojApp/main.swift:1237-1259 | One column per fresh column. Everything but the id is the fresh data. Every taken id is a previous column's id. |
| IdentityMerge.MergeShape | apps/tproj/Sources/TprojApp/main.swift:1240-1257 | Each merged column either keeps its fresh id, or takes a previous column's id with the same non-empty path. |
| IdentityMerge.MergeDistinct | apps/tproj/Sources/TprojApp/main.swift:1238-1245 | Merged ids are distinct when the fresh ids are distinct and unused, because an id is taken at most once. |
| IdentityMerge.StableIdentity | apps/tproj/Sources/TprojApp/main.swift:1237-1257 | A project shown once before and read once again keeps its id. |
| IdentityMerge.UnmatchedMeansTaken | apps/tproj/Sources/TprojApp/main.swift:1241-1256 | A fresh column with a non-empty path keeps its own new id only when every previous column with that path was already taken. |
| IdentityMerge.UsedPaths | apps/tproj/Sources/TprojApp/main.swift:1243-1245 | Every taken id belongs to a previous column that shares its path with some fresh column. |
| Renumber.MatchRoleSplits | apps/tproj/Sources/TprojApp/main.swift:1335-1342 | A role matching `^(.*-p)(\d+)(.*)$` as ICU reads it splits into a prefix ending in `-p`, a non-empty run of decimal digits (Unicode category Nd, not only ASCII), a suffix, and the line end that `$` may match before: nothing, one line terminator or `\r\n`. No part holds a line terminator, because `.` matches none. The prefix is the longest possible (greedy), and the suffix does not start with a digit. |
| Renumber.MatchRoleOfSplit | apps/tproj/Sources/TprojApp/main.swift:1335-1342 | Conversely, every such split, followed by any such line end, is the match of its concatenation. |
| Renumber.RemapRoleSpec | apps/tproj/Sources/TprojApp/main.swift:1334-1348 | A role whose number is missing, not readable as an `Int`, or not remapped is returned unchanged. Otherwise the text before and after the digits is kept, the digits become the new number and a final line terminator is dropped. The result reads back with the new number. |
| Renumber.RemapRole | apps/tproj/Sources/TprojApp/main.swift:1334-1348 | A role changes only when it has a number the remap knows. |
| Renumber.TrailingNumberMatch | apps/tproj/Sources/TprojApp/main.swift:1335-1342 | A role ending in `-p` and ASCII digits, with or without a line end, matches with those digits as its number and an empty suffix. |
| Renumber.ForeignDigitKeepsRole | apps/tproj/Sources/TprojApp/main.swift:1334-1348 | `claude-p2-p٣` stays as it is under 2 → 1: `\d` matches the Arabic-Indic digit after the last `-p`, and `Int` does not read it. |
| Renumber.FinalNewlineDropped | apps/tproj/Sources/TprojApp/main.swift:1334-1348 | `claude-p2` followed by a newline becomes `claude-p1` under 2 → 1: `$` matches before the final newline, which no group holds. |
| Renumber.InnerReturnStopsMatch | apps/tproj/Sources/TprojApp/main.swift:1334-1348 | `claude\r-p2` stays as it is under 2 → 1, because `.` does not match a carriage return. |
| Renumber.RemapRoleKeepsTag | apps/tproj/Sources/TprojApp/main.swift:1334-1348 | Renumbering never changes which role prefix (`claude-p`, `yazi-p`, ...) a role starts with. |
| Renumber.RemapRoleKeepsPrimary | apps/tproj/Sources/TprojApp/main.swift:1334-1348 | Renumbering keeps a pane primary or auxiliary. |
| Renumber.ParseRow | apps/tproj/Sources/TprojApp/main.swift:1279-1288 | A row is read only from a line of at least four fields with an integer left and a positive column. |
| Renumber.MinLeftsSpec | apps/tproj/Sources/TprojApp/main.swift:1292-1306 | A column's left is the minimum left of its eligible rows, which is attained. The keys are exactly the columns that have eligible rows. |
| Renumber.ComputeLeftByColumn | apps/tproj/Sources/TprojApp/main.swift:1292-1306 | The two loops compute `LeftByColumn`: minima over claude/codex rows, or over all rows when there are none. |
| Renumber.OrderColumns | apps/tproj/Sources/TprojApp/main.swift:1308 | Lists every column once, in non-decreasing left order. |
| Renumber.VisualOrderUnique | apps/tproj/Sources/TprojApp/main.swift:1308 | With distinct lefts, the visual order is unique. |
| Renumber.BuildRemap | apps/tproj/Sources/TprojApp/main.swift:1311-1314 | The loop computes `RemapOf(ordered)`. |
| Renumber.RemapOfSpec | apps/tproj/Sources/TprojApp/main.swift:1311-1314 | The remap covers exactly the ordered columns and sends the `i`-th one to `i + 1`. |
| Renumber.RemapBijection | apps/tproj/Sources/TprojApp/main.swift:1308-1314 | The remap is a bijection from the reported columns onto `1..n`. |
| Renumber.NoWritesIff | apps/tproj/Sources/TprojApp/main.swift:1317-1330 | No tag is written iff every row already has its new column and role. |
| Renumber.RenumberIdempotent | apps/tproj/Sources/TprojApp/main.swift:1262-1348 | Running the renumbering a second time, on the tags the first run wrote, writes nothing. This needs distinct column lefts and canonical role numbers. |
| Renumber.ZeroPaddedRemaps | apps/tproj/Sources/TprojApp/main.swift:1343-1347 | A zero-padded role number such as `yazi-p01` is read as 1 and rewritten without the padding. |
| Renumber.LeadingZeroBreaksIdempotence | apps/tproj/Sources/TprojApp/main.swift:1262-1348 | For rows with the role `yazi-p01`, a second run still writes a tag. The canonical-role requirement of `RenumberIdempotent` is needed. |
| Renumber.PlanRenumber | apps/tproj/Sources/TprojApp/main.swift:1267-1314 | Renumbering proceeds iff the listing succeeded and has rows and columns. It then uses the parsed rows, a visual order of their lefts and that order's remap. |
| Renumber.Normalize | apps/tproj/Sources/TprojApp/main.swift:1262-1332 | Runs the listing and then exactly the planned `@column`/`@role` writes. It reports success iff the plan went ahead and every write succeeded. |
| Reorder.PaneLineRoundTrip | apps/tproj/Sources/TprojApp/main.swift:1350-1362 | A printable pane's listing line parses back to the pane. |
| Reorder.ListingRoundTrip | apps/tproj/Sources/TprojApp/main.swift:1350-1362 | A successful listing of printable panes parses back to the same panes, in order. |
| Reorder.ParsePanes | apps/tproj/Sources/TprojApp/main.swift:1353-1361 | A line with fewer than three fields is dropped. A column that is not an integer is kept as none. |
| Reorder.FirstWithRole | apps/tproj/Sources/TprojApp/main.swift:1364-1366 | Finds the first pane with the role, or none when no pane has it. |
| Reorder.PaneIdForRole | apps/tproj/Sources/TprojApp/main.swift:1364-1366 | The id is none iff no pane has the role. Otherwise it is the id of a pane with that role, and no earlier pane has the role. |
| Reorder.MetaRoundTrip | apps/tproj/Sources/TprojApp/main.swift:724-741 | The metadata printed by `display-message` (project, host, path, left) is read back unchanged. |
| Reorder.UnreadableMeansNotMoved | apps/tproj/Sources/TprojApp/main.swift:785-788 | An unreadable left before or after (-1), or an unchanged left, counts as "not moved". With both readable, "not moved" means the left is unchanged. |
| Reorder.RepairEffect | apps/tproj/Sources/TprojApp/main.swift:1378-1398 | After the tag repair, each distinct pane has the other column's project, host and path. Every other pane is untouched. |
| Reorder.RepairKeepsOthers | apps/tproj/Sources/TprojApp/main.swift:1384-1385 | Panes outside the two columns, or with no column, keep every option. |
| Reorder.RepairWritesOnlyTags | apps/tproj/Sources/TprojApp/main.swift:1388-1395 | The repair writes only `@project`, `@remote_host` and `@remote_path`. |
| Reorder.ApplyConcat | apps/tproj/Sources/TprojApp/main.swift:1384-1397 | Option writes compose sequentially. |
| Reorder.Relocate | apps/tproj/Sources/TprojApp/main.swift:1368-1376 | A placeholder is split above the codex pane. An empty or failed placeholder stops the relocation. Otherwise the pane is swapped into it, the placeholder is killed, and success is the swap's status. |
| Reorder.FindPrimaries | apps/tproj/Sources/TprojApp/main.swift:714-721 | The four primary panes are found iff each of the two columns has both a claude and a codex pane. |
| Reorder.ReorderPanes | apps/tproj/Sources/TprojApp/main.swift:700-798 | Runs the reorder command protocol (`ReorderProtocol`) and returns the stop message when it stops early. |
| Reorder.StopTexts | apps/tproj/Sources/TprojApp/main.swift:700-760 | Every early stop reports a "Reorder ..." message. |
| Reorder.RefusalChangesNothing | apps/tproj/Sources/TprojApp/main.swift:700-721 | The protocol issues only read-only commands iff it stops before the swaps. It stops there when agents are active, no panes are found, or a primary pane is missing. |
| Reorder.RefusalStages | apps/tproj/Sources/TprojApp/main.swift:700-721 | A reorder that never swapped issues nothing after the pane listing. It stopped with one of the three refusal texts. |
| Reorder.FailedSwapAborts | apps/tproj/Sources/TprojApp/main.swift:749-760 | The codex swap runs only after a successful claude swap. A failed swap ends the protocol with its error. The protocol continues iff both swaps succeed. |
| Reorder.RepairExactlyWhenNotMoved | apps/tproj/Sources/TprojApp/main.swift:784-798 | A completed reorder repairs the project tags iff the panes did not move. |
| Teardown.SessionOfIff | apps/tproj/Sources/TprojApp/main.swift:1022-1026 | A line names the session `s` iff it is `s:true` and `s` has no colon. |
| Teardown.ParseSessionsIff | apps/tproj/Sources/TprojApp/main.swift:1014-1027 | `s` is a tproj session iff the listing succeeded and has the line `s:true`, with `s` free of colons. |
| Teardown.PaneRoleOfLine | apps/tproj/Sources/TprojApp/main.swift:917-921 | `id:role` is split at the first colon. A line with no colon is dropped. |
| Teardown.SignalWritesIff | apps/tproj/Sources/TprojApp/main.swift:923-930 | C-c goes to exactly the claude/codex/agent panes and `q` to exactly the yazi panes. |
| Teardown.ExitWritesIff | apps/tproj/Sources/TprojApp/main.swift:935-940 | `/exit` goes to exactly the claude and agent panes. |
| Teardown.ExitFollowsInterrupt | apps/tproj/Sources/TprojApp/main.swift:923-940 | Every pane sent `/exit` was first sent C-c. A yazi pane gets `q` and no `/exit`. |
| Teardown.SignalKey | apps/tproj/Sources/TprojApp/main.swift:923-940 | A claude or agent pane, which is sent `/exit`, gets C-c. A pane gets `q` iff its role starts with `yazi`. A pane gets no key iff its role has none of the four prefixes. |
| Teardown.ParsePids | apps/tproj/Sources/TprojApp/main.swift:1037-1039 | The pids read are within the `Int32` range. |
| Teardown.ChildTableOf | apps/tproj/Sources/TprojApp/main.swift:1048-1052 | A process has a child list iff its `pgrep -P` succeeded. |
| Teardown.CollectDescendants | apps/tproj/Sources/TprojApp/main.swift:1043-1059 | The breadth-first search finds exactly the processes reachable from the pane pids. It queries each found process once, after the roots. |
| Teardown.SearchStep | apps/tproj/Sources/TprojApp/main.swift:1046-1057 | One step keeps the search invariant: found processes are reachable, and queried processes have their children found. The unfound processes or the queue shrink. |
| Teardown.AddChildren | apps/tproj/Sources/TprojApp/main.swift:1053-1057 | Exactly the new children are added to the found set and queued, each once. |
| Teardown.ListTprojSessions | apps/tproj/Sources/TprojApp/main.swift:1014-1027 | One `list-sessions` call. The result is its parsed session list. |
| Teardown.ListPanePids | apps/tproj/Sources/TprojApp/main.swift:1031-1041 | One pane-pid listing per session. The pids are those of the successful listings, in order. |
| Teardown.SignalSessions | apps/tproj/Sources/TprojApp/main.swift:908-941 | Per session: a role listing, then the keys to its panes when the listing succeeded. |
| Teardown.Poll | apps/tproj/Sources/TprojApp/main.swift:943-959 | At most `rounds` rounds of `has-session` for every session. Polling stops after the first round in which all are gone. |
| Teardown.SignalEach | apps/tproj/Sources/TprojApp/main.swift:1063-1067 | Sends SIGTERM once to each descendant pid. |
| Teardown.CleanupOrphans | apps/tproj/Sources/TprojApp/main.swift:1070-1082 | One orphan scan, then SIGTERM to each listed pid when the scan succeeded. |
| Teardown.Teardown | apps/tproj/Sources/TprojApp/main.swift:893-1011 | The session list comes first, and an empty list ends teardown. After that come, in order: the descendant search, the graceful phases (Stop only), pkill of the team watcher, `kill-session` for every session, SIGTERM to the descendants, the orphan cleanup and the marker removal. |
| Teardown.TeardownInPhaseOrder | apps/tproj/Sources/TprojApp/main.swift:893-1011 | The commands of a teardown run appear in non-decreasing phase order: listing, keys, polling, team watcher, kill-session, SIGTERMs, marker removal. |
| Teardown.EverySessionKilled | apps/tproj/Sources/TprojApp/main.swift:964-1000 | Every tproj session found gets a `kill-session`. |
| App.RenewedFresh | apps/tproj/Sources/TprojApp/main.swift:1085-1093 | Refreshed columns keep all their data. Their ids are distinct, at least the counter and below the counter advanced by their number, so none is in use. |
| App.IndexOfColumn | apps/tproj/Sources/TprojApp/main.swift:688-689 | Finds the first column with the number, or none. |
| App.OptimisticSwapSpec | apps/tproj/Sources/TprojApp/main.swift:686-695 | When both columns are shown, their rows change places and each position keeps its own column number. Otherwise nothing changes. |
| App.SwapKeepsIds | apps/tproj/Sources/TprojApp/main.swift:686-695 | The optimistic swap introduces no new ids. |
| App.LoadedDeterministic | apps/tproj/Sources/TprojApp/main.swift:1148-1260 | A listing gives exactly one new column list. |
| App.LoadedKeepsIds | apps/tproj/Sources/TprojApp/main.swift:1237-1259 | After a reload, every id is below the counter. |
| App.ReadColumns | apps/tproj/Sources/TprojApp/main.swift:1152-1259 | A failed listing gives no columns. Otherwise the columns are the parsed, grouped, sorted and merged listing. |
| App.PaneKillsSpec | apps/tproj/Sources/TprojApp/main.swift:650-668 | A column's pane is killed iff it is one of its four panes. A column with a claude or codex pane kills at least one. |
| App.PaneKills | apps/tproj/Sources/TprojApp/main.swift:650-668 | At most four kills, all of them `kill-pane`. A column with a claude or codex pane kills at least one. |
| App.ErrorsEmptyIff | apps/tproj/Sources/TprojApp/main.swift:648-668 | No error is collected iff every kill succeeded. |
| App.DropStatusIff | apps/tproj/Sources/TprojApp/main.swift:673-677 | The status is "Removed column N" iff every kill succeeded. |
| App.SwappedOnlyWhenCompleted | apps/tproj/Sources/TprojApp/main.swift:750-808 | The final status is "Swapped #a and #b" exactly when the reorder ran to completion. |
| App.AppViewModel.LoadLiveColumns | apps/tproj/Sources/TprojApp/main.swift:1148-1260 | One pane listing. The columns become the reload of the listing, and nothing else changes. |
| App.AppViewModel.RefreshColumnIdentities | apps/tproj/Sources/TprojApp/main.swift:1085-1093 | Every column gets a fresh id, and the counter advances by their number. |
| App.AppViewModel.MoveColumn | apps/tproj/Sources/TprojApp/main.swift:682-809 | With equal columns or while busy, nothing happens. Otherwise: the optimistic swap, the reorder protocol, and then a renumbering when it completed. Then the reload, and new ids again after a completed swap. The status says "Swapped" or why it stopped, and the busy flag is cleared. |
| App.AppViewModel.RemoveColumn | apps/tproj/Sources/TprojApp/main.swift:639-680 | A column without claude or codex pane only sets "Missing pane info". Otherwise: the kills, the rebalance, the renumbering and the reload, with a status from the collected errors. |
| App.AppViewModel.StopSession | apps/tproj/Sources/TprojApp/main.swift:893-978 | A graceful teardown. The status is "Session stopped" or "No tproj sessions found", and the columns are cleared. |
| App.AppViewModel.KillSession | apps/tproj/Sources/TprojApp/main.swift:980-1011 | A forced teardown without keys or polling. The status is "Session killed" or "No tproj sessions found", and the columns are cleared. |
| Quoting.SingleQuoteRoundTrip | apps/tproj/Sources/TprojApp/main.swift:1412-1414 | The shell reads a single-quoted value back as that value, for every string. |
| Quoting.ShellSingleQuote | apps/tproj/Sources/TprojApp/main.swift:1412-1414 | The result starts and ends with a single quote and is longer than the value. A value without `'` is only wrapped. |
| Quoting.ShellDoubleQuote | apps/tproj/Sources/TprojApp/main.swift:1416-1422 | The four replacements, in their order, put one backslash before each backslash, double quote, dollar and backtick and keep every other character. |
| Quoting.DoubleQuoteRoundTrip | apps/tproj/Sources/TprojApp/main.swift:1416-1422 | Inside double quotes, the shell reads the escaped value back as the value, for every string: no expansion is left in it. |
| Quoting.ExpansionReadsNone | apps/tproj/Sources/TprojApp/main.swift:1416-1422 | A double-quoted word whose inside starts with an unescaped `$` or backtick has no literal value. |
| Quoting.ExpansionNeedsEscape | apps/tproj/Sources/TprojApp/main.swift:1416-1422 | Escaping only backslash and double quote leaves a value such as `$HOME` unreadable, while `shellDoubleQuote` of it reads back as the value. |
| Quoting.YamlQuoteRoundTrip | apps/tproj/Sources/TprojApp/main.swift:1452-1455 | A YAML single-quoted scalar reader gives back, from its quoted form, a value without line feed and carriage return, the line breaks of YAML 1.2 (section 5.4). |
| Quoting.YamlQuoteOneLine | apps/tproj/Sources/TprojApp/main.swift:1452-1455 | Quoting a value without line feed and carriage return adds neither. |
| Quoting.YamlQuote | apps/tproj/Sources/TprojApp/main.swift:1452-1455 | The result starts and ends with a single quote and is longer than the value. A value without `'` is only wrapped. |
| Quoting.CarriageReturnBreaksScalar | apps/tproj/Sources/TprojApp/main.swift:1452-1455 | The quoted form of `a\rb` does not read back as one scalar on its line: a carriage return breaks the line. |
| Workspace.LastPathComponentSpec | apps/tproj/Sources/TprojApp/main.swift:184 | A path of slashes only has the component "/". Otherwise the component is non-empty, free of slashes, and occurs in the path after a slash or at its start, followed only by slashes. |
| Workspace.LastPathComponentIdempotent | apps/tproj/Sources/TprojApp/main.swift:184 | Taking the last component twice changes nothing. |
| Workspace.EffectiveAliasShown | apps/tproj/Sources/TprojApp/main.swift:178-185 | The shown alias is never empty. It is the alias when that is not blank. It is "(unnamed)" for a blank path. Otherwise it is the path's last component, free of slashes or "/". |
| Workspace.RenderWorkspaceYAML | apps/tproj/Sources/TprojApp/main.swift:1424-1450 | The rendering loop produces `WorkspaceYAML`: the header, then per project its path line and optional type/host, alias and enabled lines, joined with newlines plus a final newline. |
| Workspace.WorkspaceRoundTrip | apps/tproj/Sources/TprojApp/main.swift:1424-1455 | Reading the rendered file gives back the projects as saved. A non-remote type becomes `local`, and a host is kept only for a remote project. Host and alias come back trimmed, and `enabled` is kept. |
| Workspace.ProjectReadsBack | apps/tproj/Sources/TprojApp/main.swift:1428-1446 | One project's block reads back to the stored project, whatever blocks follow it. |
| Workspace.EntriesReadBack | apps/tproj/Sources/TprojApp/main.swift:1428-1447 | The blocks of all projects read back to all stored projects, in order. |
| Ghostty.Components | apps/tproj/Sources/TprojApp/main.swift:99 | The lines of the content contain no newline character. |
| Ghostty.ParseFile | apps/tproj/Sources/TprojApp/main.swift:96-116 | No content gives no configuration. Otherwise the line loop computes the fold of the lines' entries. |
| Ghostty.NoPaletteSetting | apps/tproj/Sources/TprojApp/main.swift:105-113 | `palette` itself never becomes a setting. |
| Ghostty.SettingFromSomeLine | apps/tproj/Sources/TprojApp/main.swift:99-113 | A key is set iff some line assigns it. |
| Ghostty.LastSettingWins | apps/tproj/Sources/TprojApp/main.swift:112 | A key holds the value of the last line that assigns it. |
| Ghostty.ColorFromSomeLine | apps/tproj/Sources/TprojApp/main.swift:105-110 | A palette index is set iff some `palette = N=hex` line with an integer `N` sets it. |
| Ghostty.LastColorWins | apps/tproj/Sources/TprojApp/main.swift:109 | A palette index holds the colour of the last line that sets it. |
| Ghostty.SkippedLineIrrelevant | apps/tproj/Sources/TprojApp/main.swift:101-102 | Removing a blank, comment or `=`-less line does not change the configuration. |
| Midi.Loaded | apps/tproj/Sources/TprojApp/main.swift:237-241 | Every loaded slot lies in 1..16. |
| Midi.Load | apps/tproj/Sources/TprojApp/main.swift:232-242 | Missing or undecodable data gives no bindings. Otherwise the loop computes the fold over the stored items. |
| Midi.LoadedSlot | apps/tproj/Sources/TprojApp/main.swift:238-240 | A slot is bound iff it lies in 1..16 and some stored item has it. |
| Midi.LoadedLastWins | apps/tproj/Sources/TprojApp/main.swift:238-240 | A slot holds the binding of its last stored item. |
| Midi.MIDIPaneActivator.constructor | apps/tproj/Sources/TprojApp/main.swift:262-269 | Starts with the loaded bindings, at step 1, not learning, with no debounce memory. |
| Midi.MIDIPaneActivator.ToggleLearn | apps/tproj/Sources/TprojApp/main.swift:325-338 | Cancels learn mode, or starts it at slot 1 with the debounce memory cleared. Fires the matching callbacks and returns the new mode. |
| Midi.Toggle | apps/tproj/Sources/TprojApp/main.swift:325-338 | Flips learn mode and returns the new mode. The step goes to 1 and the bindings are kept. The first event reports the new mode. Starting clears the debounce memory. |
| Midi.MIDIPaneActivator.HandleMessage | apps/tproj/Sources/TprojApp/main.swift:375-408 | Messages other than Note On and CC with a non-zero value change nothing. In learn mode a press is a learn step. Otherwise a matching press triggers a slot bound to it, and a press that matches nothing does nothing. |
| Midi.MIDIPaneActivator.LearnPress | apps/tproj/Sources/TprojApp/main.swift:383-404 | A repeat within 120 ms does nothing. Otherwise the press is bound to the current slot, followed by the "Learned" status. After slot 16 the bindings are saved, learn mode ends and the step returns to 1. Below 16 the step advances with its prompt. |
| Midi.Learn | apps/tproj/Sources/TprojApp/main.swift:383-404 | A press gives no event iff it repeats the last learned one within 120 ms, and then changes nothing. Otherwise it binds the current slot, stamps the debounce memory and first reports "Learned". The bindings are saved iff the step was 16. A step in 1..16 stays in 1..16. |
| Midi.LearnKeepsValid | apps/tproj/Sources/TprojApp/main.swift:391-402 | The step stays in 1..16 and bindings only occupy slots 1..16. |
| Midi.SessionFills | apps/tproj/Sources/TprojApp/main.swift:383-402 | After `k < 16` presses spaced at least 120 ms apart, slots 1..k hold the presses in order, and the machine waits for slot k+1. |
| Midi.SessionCompletes | apps/tproj/Sources/TprojApp/main.swift:383-402 | Sixteen spaced presses fill slots 1..16 in order and save them. Learn mode ends at step 1, with nothing bound outside 1..16. |
| Midi.SessionValid | apps/tproj/Sources/TprojApp/main.swift:383-402 | Any sequence of presses keeps the activator's invariant. |
| Text.JoinSplit | apps/tproj/Sources/TprojApp/main.swift:1173 | Splitting on a separator keeps every piece, so joining the pieces restores the string. |
| Text.ParseIntToString | apps/tproj/Sources/TprojApp/main.swift:1176 | `Int(String)` reads an interpolated integer back within its range. |

## Left out

- Concurrency. The `async` calls, the `Task` used to activate a MIDI pane and the `@MainActor` hops are run one after another, in program order. The `has-session` checks, which the source runs as a task group, are issued in session order.
- Clocks and sleeps. The 0.3 s pauses are not recorded. The 3-second poll deadline becomes a number of poll rounds, `rounds`, given by the caller. The MIDI clock is a parameter `now` in milliseconds, with `distantPast` as none.
- The operating system. The results of tmux, `pgrep -P`, `ps`, `kill(2)` and the file removal come from the gateway's oracle. For the process-tree search, the pgrep replies are a table passed in by the caller.
- The workspace file on disk, `yq`, `NSWorkspace` and `UserDefaults`. `loadWorkspaceProjects`, `saveWorkspace` and `openWorkspaceYAML` are not modelled. The reader in `Workspace` states what the loader's defaults make of the rendered file.
- `MIDILearnStore.save` is recorded as a `Saved` event carrying the bindings. JSON encoding and decoding are left out: `Load` takes the already decoded items, or none.
- CoreMIDI. `start`, `stop`, `connectSources`, packet splitting (`handle(packetList:)`), `displayName` and `isRunning` are left out. `HandleMessage` takes an already split three-byte message.
- The UI, the theme and colours. `GhosttyConfigParser.load`, `loadTheme` and `buildTheme`, `parseHex`, the SwiftUI views and the drag and drop delegate are left out, because they work on floating point colours and views.
- `addColumn`, `toggleYazi`, `toggleTerminal`, `activatePaneForMIDISlot`, `hostForColumn`, `normalizeSelection`, `projectName`, the workspace editor rows and the startup retry are left out. They are outside the reconciliation and teardown core.
- Grapheme clusters. Strings are sequences of Unicode scalars, so `hasPrefix` and `split` work on scalars where Swift compares characters. An input with combining marks right after a separator can split differently.
- `URL(fileURLWithPath:).lastPathComponent` is modelled for absolute and relative paths only: trailing slashes dropped, last component taken. Resolution of `.`, `..`, `~` and the current directory is left out.
- Workspace.WorkspaceRoundTrip: holds for values without line breaks (line feed or carriage return) only. A line break inside a YAML single-quoted scalar is folded by a YAML reader, and that folding is not modelled.
- Quoting.YamlQuoteRoundTrip: holds for one-line values only, for the same reason.
- Midi.MIDIPaneActivator.HandleMessage: the source triggers the first matching slot in dictionary order, which Swift leaves unspecified. The model promises some matching slot.
- Midi.SessionFills: states the slots filled so far and the current step. It does not state that the other slots keep their old bindings.
- Renumber.OrderColumns: Swift's `sorted(by:)` is not stable, and ties between equal lefts are in unspecified order. The model accepts every order that is non-decreasing in left. `VisualOrderUnique` makes the order unique when the lefts are distinct.
- Renumber.RenumberIdempotent: requires distinct column lefts; every row's left below `Int.max`, since a row at `Int.max` never enters `leftByColumn` and its column is then not renumbered; at most `Int.max` columns, so that every new column number is an `Int`; and canonical roles: role numbers without leading zeros and no final line terminator, both of which a rewrite drops. `LeadingZeroBreaksIdempotence` shows why the leading-zero requirement is needed.
- App.AppViewModel.MoveColumn: the "Reorder warning" statuses (a failed yazi or terminal swap, a failed renumbering) are overwritten by the final "Swapped" status before anything reads them. Only the final status is stated.
- Renumber.MatchRole: decimal digits are those of Unicode 15.0 (category Nd); the ICU of a given macOS may know another set. ICU matches code points, as the model matches Unicode scalars.
- Integer widths. `Int` is bounded to 64 bits where the source parses numbers (`Int(String)`, `Int32(String)`). No arithmetic of the model can overflow.
