# GUI PM2 Monitor: a verified model of its core

GUI PM2 Monitor is a desktop application, `main.py`, for watching and
controlling pm2 processes on a remote server over SSH. It lists the
processes in a table. The table can be searched by name and sorted by any
column. The application starts, stops and restarts processes, shows their
logs, and remembers the server details and preferences in `config.json`.

This project models the deterministic parts of the application in Dafny and
proves properties about them. The widgets, the network, the clock and the
decoders that the core only calls are left out; they appear as parameters.

| file | module | models |
|---|---|---|
| `Py.dfy` | `Py` | the Python values and `str` operations the core uses: decoded JSON scalars, `strip`, `lower`, `split`, `int()` and `str()` |
| `Uptime.dfy` | `Uptime` | `format_uptime` and `PM2MonitorApp.parse_uptime` |
| `Collectors.dfy` | `Collectors` | the service records `get_pm2_services` builds, and the memory line of `get_system_resources` |
| `Table.dfy` | `Table` | `filter_services`, the Treeview as a class, and `update_treeview` as a method that updates it in place |
| `Sorting.dfy` | `Sorting` | `sort_column`: the column keys and Python's stable `sorted` |
| `Session.dfy` | `Session` | `SSHClientWrapper`: the retry policy of `execute_command`, `check_required_commands`, `close` |
| `Control.dfy` | `Control` | `control_service` and `LogWindow.fetch_logs` |
| `Settings.dfy` | `Settings` | `ConfigHandler`, the checks of the two configuration windows, zoom, `Translator` |
| `Monitor.dfy` | `Monitor` | the state `PM2MonitorApp` keeps between events, and its handlers |

Modelling choices:

- Time is kept in whole milliseconds. `time.time()` becomes a parameter,
  `nowMs`. The elapsed seconds are never negative, so the source's `int()`
  truncation is Dafny's `/`.
- A decoded JSON value is a `Py.Scalar`: null, a boolean, an integer or a
  string. `json.loads` is a parameter that gives either the decoded entries
  or a decoding error.
- The SSH connection is an oracle:
  - `connect(k)` is the transport left by the k-th connection attempt: none,
    inactive or active;
  - `exec(k)` is what the k-th run of a command gives back: an exception, or
    stdout and stderr.
- The Treeview is a class. Its field `rows` is the ordered list of
  `(iid, values)` items. `update_treeview` changes it through `Insert`,
  `SetValues` and `Delete`, loop by loop. `Table.AfterUpdate` describes the
  resulting rows as a function of the rows before and the services.
- The "Memory (MB)" figure is `round(bytes / 1048576, 2)`. It is kept
  exactly, as a count of hundredths of a megabyte. Python's round-half-even
  rule is proved of `Collectors.RoundHalfEven`.
- Three behaviours of the code that the model keeps:
  - When `client.get_transport()` is None, the source's pre-check raises
    AttributeError. That goes to the single reconnect-and-retry; it does not
    give up straight away.
  - Two filtered services with the same ID that is not yet on screen make
    the second `tree.insert` raise. `update_treeview` then stops before its
    deleting loop: the rows stay as the first loop left them and nothing is
    deleted.
  - Sorting never reorders rows that are already on screen, because the
    sorted list only goes through `update_treeview`. This is proved
    (`Sorting.SortKeepsScreen`) rather than treated as a reordering.

## Model

| member | source | states |
|---|---|---|
| `Uptime.FormatUptime` | main.py:339-352 | "N/A" when the start time is falsy, not a number, or later than now. Otherwise the text is "Dd Hh Mm Ss" with H < 24, M < 60 and S < 60, where D·86400 + H·3600 + M·60 + S is the elapsed whole seconds |
| `Uptime.ParseUptimeText` | main.py:1138-1155 | `parse_uptime` reads any rendered "Dd Hh Mm Ss" back as exactly D·86400 + H·3600 + M·60 + S |
| `Uptime.ParseFormatUptime` | main.py:339-352 | `parse_uptime(format_uptime(t))` is the elapsed whole seconds when the uptime is available, and 0 when it is "N/A" |
| `Uptime.ParseUptimeNotAvailable` | main.py:1138-1155 | `parse_uptime("N/A")` is 0 |
| `Uptime.ReadDays` | main.py:1141-1143 | the days step of `parse_uptime` on rendered text gives the days and the text after "d" |
| `Uptime.ReadHours` | main.py:1144-1146 | the hours step gives the hours and the text after "h" |
| `Uptime.ReadMinutes` | main.py:1147-1149 | the minutes step gives the minutes and the text after "m" |
| `Uptime.ReadSeconds` | main.py:1150-1151 | the seconds step gives the seconds |
| `Uptime.FormatExample` | main.py:339-352 | a process started 90061 seconds ago shows "1d 1h 1m 1s" |
| `Uptime.UptimeOrderExample` | main.py:1120-1124 | "0d 23h 59m 59s" sorts exactly one second before "1d 0h 0m 0s" |
| `Collectors.Get` | main.py:268-284 | `dict.get(key, default)`: the stored value when the key is present, else the default |
| `Collectors.RoundHalfEven` | main.py:270 | the result is within half a step of the exact quotient, and a tie goes to the even neighbour |
| `Collectors.RoundMonotone` | main.py:270 | rounding never reverses the order of two quotients |
| `Collectors.CentiMegabytes` | main.py:269-270 | the "Memory (MB)" figure, in hundredths of a megabyte, as `round(bytes / 1048576, 2)` gives it |
| `Collectors.CentiMegabytesClose` | main.py:269-270 | the figure is within half a hundredth of a megabyte of the exact size, and never negative for a size |
| `Collectors.CentiMegabytesMonotone` | main.py:270 | more bytes never show as fewer megabytes |
| `Collectors.MapEntry` | main.py:267-284 | an entry gives a record exactly when `pm2_env` and `monit` are objects (or absent) and the memory is a number. Each field is then the entry's value or its default: "N/A" for version and PORT, None for status, 0 for CPU and memory, "" for the log paths, and the formatted uptime |
| `Collectors.MapEntries` | main.py:266-285 | every entry is mapped, in order, one record per entry; an entry that raises makes the whole call raise |
| `Collectors.Pm2Services` | main.py:262-289 | an empty or failed `pm2 jlist`, or output that fails to decode, gives the empty list. Otherwise, when no entry raises, one record per decoded entry, in order: the record `MapEntry` builds from it, with its `pm_id`, its fields or their defaults, and its memory as `round(bytes / 1048576, 2)` |
| `Collectors.FirstMemLine` | main.py:322 | the index of the first line that starts with "Mem:", or no index when no line does |
| `Collectors.MemoryUsage` | main.py:318-332 | the reading is "N/A" without output, without a "Mem:" line, or when the line has fewer than three words or non-numeric words. Otherwise it holds the third word as used and the second as total |
| `Collectors.MemoryLineRead` | main.py:318-328 | output whose first "Mem:" line is "Mem:", total, used and possibly more words joined by spaces, with any lines before and after it, reads as exactly that used and total amount |
| `Collectors.FloatWord` | main.py:326-327 | a number `float()` accepts here is one word: no white space, not empty |
| `Collectors.FirstMemLineAfter` | main.py:323 | after lines none of which starts with "Mem:", a "Mem:" line is the one `next(...)` finds |
| `Table.SelectByName` | main.py:1053-1056 | None exactly when some name is not a string (`.lower()` raises). Otherwise the result keeps, in order, exactly the services whose lower-cased name contains the query, each as many times as it occurs |
| `Table.FilterServices` | main.py:1047-1058 | an empty query, or one equal to the placeholder ignoring case, keeps every service in order; any other query selects by name |
| `Table.SetRow` | main.py:1073 | `tree.item(iid, values=v)` replaces the values of that one item and leaves every other item and the order as they were |
| `Table.Without` | main.py:1099 | `tree.delete(iid)` removes exactly that iid and keeps the other rows in order |
| `Table.Treeview.constructor` | main.py:884 | a new table is empty and iids are unique |
| `Table.Treeview.Insert` | main.py:1085-1094 | appends the row exactly when its iid is not in use; otherwise Tk raises and nothing changes |
| `Table.Treeview.SetValues` | main.py:1073-1082 | the table is as `SetRow` describes and iids stay unique |
| `Table.Treeview.Delete` | main.py:1096-1099 | the table is as `Without` describes and iids stay unique |
| `Table.Patched` | main.py:1070-1082 | the updating loop keeps the items and their order, and gives each listed item the values of the last service with its ID |
| `Table.AddedIids` | main.py:1083-1094 | the appended rows carry exactly the filtered IDs that were not on screen |
| `Table.SurvivingKeeps` | main.py:1096-1099 | the deleting loop keeps, in order, exactly the rows whose ID is still listed |
| `Table.FirstCollision` | main.py:1083-1094 | the first position where `tree.insert` would raise, because the ID was already inserted earlier in the same pass. None when there is none |
| `Table.AfterUpdate` | main.py:1060-1103 | the rows `update_treeview` leaves: the reconciliation when no insertion raises, else the rows as the first loop had left them at the raise |
| `Table.AfterUpdateRows` | main.py:1060-1103 | when the update completes, the iids on screen are exactly the filtered IDs. When an insertion raises, they are the old iids and the IDs seen before the raise: nothing has been deleted |
| `Table.UpdateTreeview` | main.py:1060-1103 | the table after the call is `AfterUpdate` of the table before: the reconciliation when no insertion raises, else the rows as the first loop left them |
| `Table.UpdatePass` | main.py:1063-1094 | the first loop completes exactly when no insertion raises. Then the rows are the refreshed old rows followed by the new ones, and `new_ids` holds exactly the filtered IDs |
| `Table.UpdateOne` | main.py:1067-1094 | one step of the first loop: update or append, or stop at the first raising insertion with nothing changed |
| `Table.DeletePass` | main.py:1096-1099 | the second loop deletes exactly the old rows whose ID is no longer listed |
| `Table.DeleteLoop` | main.py:1096-1099 | the loop over `existing_items`, with its invariant that the rows seen so far are the survivors |
| `Table.DeleteOne` | main.py:1097-1099 | one step of the second loop: delete the row when its ID is not in `new_ids`, else keep it |
| `Table.ReconcileIds` | main.py:1063-1099 | after reconciling, the set of iids on screen equals the set of filtered IDs |
| `Table.ReconcileOrder` | main.py:1063-1099 | rows that stay keep their relative order, and new rows follow them in the order of the filtered list |
| `Table.ReconcileShows` | main.py:1063-1099 | with distinct IDs, the table shows exactly the filtered services: one row per ID, each with that service's values |
| `Table.ShowsFixed` | main.py:1063-1099 | a table that already shows the services is left unchanged |
| `Table.ReconcileIdempotent` | main.py:1063-1099 | running the update twice with the same list changes nothing the second time |
| `Table.DistinctIdsComplete` | main.py:1083-1094 | services with distinct IDs never make an insertion raise, so the update always completes |
| `Table.AddedSubsequence` | main.py:1083-1094 | the appended rows follow the filtered list's order |
| `Table.AddedNoDup` | main.py:1083-1094 | with distinct filtered IDs, the appended rows have distinct iids |
| `Sorting.NumericKey` | main.py:1108-1118 | "N/A" and values that are not numbers or strings key as -1, and an integer keys as itself. A string keys as its `int()` value, or raises when `int()` rejects it. The key is never text |
| `Sorting.TextKey` | main.py:1126-1130 | a string keys as its lower-cased text; any other value as `str(x).lower()` |
| `Sorting.TextLeTotal` | main.py:1126-1130 | comparing text keys is total and reflexive |
| `Sorting.TextLeTrans` | main.py:1126-1130 | comparing text keys is transitive |
| `Sorting.KeyLeTotal` | main.py:1106-1131 | the order on column keys is total and reflexive |
| `Sorting.KeyLeTrans` | main.py:1106-1131 | the order on column keys is transitive |
| `Sorting.KeyOf` | main.py:1107-1130 | the key of each column: text exactly for the name, version and status; the `parse_uptime` seconds for the uptime. Only the numeric columns can have a key that raises |
| `Sorting.SortServices` | main.py:1105-1136 | the sort succeeds exactly when every key of the column converts |
| `Sorting.SortServicesSpec` | main.py:1105-1131 | the result is a permutation, ordered by the column key in the chosen direction, and stable: services with equal keys keep their relative order |
| `Sorting.InsertSorted` | main.py:1106-1131 | inserting one service keeps the same multiset plus that service |
| `Sorting.InsertSortedKeepsOrder` | main.py:1106-1131 | inserting into an ordered list keeps it ordered |
| `Sorting.InsertSortedStable` | main.py:1106-1131 | inserting keeps the order among services with equal keys |
| `Sorting.SortWith` | main.py:1106-1131 | Python's `sorted` returns a permutation of its input |
| `Sorting.SortWithOrdered` | main.py:1106-1131 | the result is ordered by the key, ascending, or descending when `reverse` is set |
| `Sorting.SortWithStable` | main.py:1106-1131 | for every key, the services with that key appear in their original order |
| `Sorting.PermutationIds` | main.py:1132 | reordering services keeps the set of IDs and their distinctness |
| `Sorting.ShowsPermutation` | main.py:1132 | a table that shows a list also shows any reordering of it |
| `Sorting.SortKeepsScreen` | main.py:1105-1133 | after sorting, the table is exactly as before: rows on screen never move |
| `Sorting.NotAvailableFirst` | main.py:1108-1112 | an "N/A" CPU figure sorts strictly before any non-negative one in ascending order |
| `Session.Accepted` | main.py:219-227 | a run counts as successful when it did not raise and either wrote nothing to stderr or was a pm2 command |
| `Session.Retry` | main.py:228-247 | reconnects exactly once. The command runs once more only on an active transport, and the output is returned exactly when that run is accepted |
| `Session.Execute` | main.py:210-247 | the command is issued at most twice, with at most two connection attempts. The result is the stdout of the last run, returned exactly when that run was accepted. A second run happens only after the first failed. An inactive client still inactive after the reconnect gives None without running the command |
| `Session.FirstRun` | main.py:219-229 | on an active client, an accepted first run returns its stdout without reconnecting; anything else goes to the retry |
| `Session.Pm2IgnoresStderr` | main.py:219-227 | a pm2 command that replies on a live connection returns its stdout even when it writes to stderr |
| `Session.StderrTriggersRetry` | main.py:224-247 | any other command writing to stderr goes through exactly one reconnect and retry |
| `Session.ExecuteWhenDown` | main.py:214-218 | when no connection becomes active, the result is None and no active client is left |
| `Session.SshSession.constructor` | main.py:165-181 | after `__init__`, which calls `connect`, the client always exists, whatever the transport |
| `Session.SshSession.Connect` | main.py:174-196 | a fresh client replaces the old one, with the transport of the attempt |
| `Session.SshSession.ExecuteCommand` | main.py:210-247 | the output and the new client are those `Execute` describes |
| `Session.SshSession.CheckRequiredCommands` | main.py:198-208 | the reported list is exactly the required commands whose probe gave None or only white space, in list order. The client is the one the probes left |
| `Session.SshSession.Close` | main.py:249-253 | the client is dropped |
| `Session.Absences` | main.py:203 | each probe counts as absent exactly when its output is None or only white space |
| `Session.Missing` | main.py:199-204 | the reported commands are some of the list, in its order |
| `Session.MissingMembers` | main.py:199-204 | a command is reported exactly when one of its probes counts as absent |
| `Session.Probes` | main.py:200-202 | one probe output per required command |
| `Session.NoneMissing` | main.py:199-204 | when every probe finds its command, nothing is reported |
| `Session.AllMissing` | main.py:199-204 | when no probe finds its command, every command is reported, in order |
| `Session.ProbesWhenDown` | main.py:198-247 | with the connection down for good, every probe gives None, no active client is left, and every required command is reported missing |
| `Control.ControlCommand` | main.py:357-361 | the command is "pm2 action " followed by "all" when the ID reads "all" in any case, else by the ID's text |
| `Control.ControlService` | main.py:356-376 | no ID means no command; a declined confirmation means no command. Otherwise the command is run, success means the output is not None, and the refresh runs exactly on success with a callable callback |
| `Control.AllInAnyCase` | main.py:358-359 | "ALL", "All" and "all" all address every process |
| `Control.NumericIdRoundTrip` | main.py:360-361 | a numeric ID is never taken for "all", and the command ends in text that reads back as that ID |
| `Control.ControlIgnoresStderr` | main.py:370 | a control command that replies on a live connection succeeds at once, even with stderr output |
| `Control.FetchLogs` | main.py:427-436 | without a path, the pane shows "not found" with the upper-cased log type. With a path, it shows the output of `tail -n 100 "<path>"` exactly when that output is non-empty |
| `Control.LogCommandQuotesPath` | main.py:429 | a path without double quotes reaches `tail` as exactly one quoted argument |
| `Settings.WithServerDetails` | main.py:141-146 | after `set_server_details`, the configuration is complete and holds the new details. The preferences and every other key are unchanged |
| `Settings.WithPreferences` | main.py:155-158 | after `set_preferences`, it holds the new interval and theme. The server details and the font size are unchanged |
| `Settings.WithFontSize` | main.py:770-771 | storing a font size changes only the font size |
| `Settings.ConfigHandler.constructor` | main.py:109-125 | the configuration is the decoded file, or empty when the file is missing or does not parse |
| `Settings.ConfigHandler.SetServerDetails` | main.py:141-146 | the configuration becomes `WithServerDetails` of the old one: complete, with the new details and the old preferences |
| `Settings.ConfigHandler.SetPreferences` | main.py:155-158 | the configuration becomes `WithPreferences` of the old one; the server details are unchanged |
| `Settings.ConfigHandler.SetFontSize` | main.py:770-771 | the configuration becomes `WithFontSize` of the old one |
| `Settings.SaveConfig` | main.py:513-544 | an unreadable port raises. Blank host, username or password, a port outside 1..65535, or a bad or negative interval is invalid input. Otherwise an unknown theme is rejected, and anything else is saved with the stripped fields |
| `Settings.SaveAndConnect` | main.py:590-613 | the same server checks. It saves exactly when they pass, with the default interval and theme |
| `Settings.SaveConfigValid` | main.py:513-537 | a saved configuration has trimmed non-blank credentials, a valid port, a non-negative interval and a known theme |
| `Settings.SaveAndConnectValid` | main.py:590-613 | the same holds for the first-run window |
| `Settings.InitialWindowAgrees` | main.py:513-537 | the first-run window accepts exactly what the preferences window accepts with the default preferences |
| `Settings.StripTrimmed` | main.py:514-517 | stripped text neither starts nor ends with white space |
| `Settings.SaveConfigWindow` | main.py:513-541 | the outcome is `SaveConfig`'s. On success, the configuration gets the server details and then the preferences; otherwise it is unchanged |
| `Settings.ZoomedIn` | main.py:767-772 | one point larger below 20, unchanged at 20 or above |
| `Settings.ZoomedOut` | main.py:774-779 | one point smaller above 8, unchanged at 8 or below |
| `Settings.ZoomStaysInRange` | main.py:767-779 | zooming keeps a size between 8 and 20 in that range |
| `Settings.ZoomInverse` | main.py:767-779 | away from the limits, zooming in then out, or out then in, restores the size |
| `Settings.ZoomInSaturates` | main.py:767-772 | twelve or more steps in reach 20 from anywhere in range |
| `Settings.ZoomedInTimesValue` | main.py:767-772 | n steps in give min(size + n, 20) |
| `Settings.Translate` | main.py:95-102 | the translated text when the key is known, else the key itself |
| `Settings.DetectLanguage` | main.py:51-78 | the result is always a supported language. When the current locale starts with a known prefix, the result is that language. Otherwise, when the default locale contains a known code, the result is the first such language in the order pt, es, fr, de, en. Otherwise the result is "en" |
| `Settings.DetectFromDefault` | main.py:65-76 | with no current locale, a default locale "de" selects German |
| `Settings.DetectBrazilian` | main.py:55-58 | a locale starting with "pt" selects Brazilian Portuguese |
| `Monitor.FailureUnnoticed` | main.py:736 | the connection test as written passes on a refused connection, and the first command then has to reconnect |
| `Monitor.ConnectionFailedMeans` | main.py:736 | the intended test passes exactly when the next command runs at once on the connection held |
| `Monitor.MonitorApp.constructor` | main.py:701-711 | the application starts with no services, an empty table and no sorted headings. Its font size is the one the preferences hold: the stored `font_size`, else 12 |
| `Monitor.MonitorApp.InitializeApplication` | main.py:722-748 | the application is initialised exactly when its connection is active (with the intended connection test of the Findings row); nothing else changes |
| `Monitor.MonitorApp.FilterServices` | main.py:1047-1058 | on success, the filtered list is `filter_services`' result and the table is updated from it. If a name raises, nothing changes |
| `Monitor.MonitorApp.ShowServices` | main.py:1034-1045 | the services are stored and then filtered as above |
| `Monitor.MonitorApp.SortColumn` | main.py:1105-1136 | on success, the filtered list is the sorted one, the table is updated from it, and the heading's next click sorts the other way. If a key raises, nothing changes |
| `Monitor.MonitorApp.ClickHeading` | main.py:895-900 | a heading click sorts in the direction the heading holds (ascending at first), and the direction then flips. On success the filtered list is the sorted one and the table is updated from it; if a key raises, the list and the table are unchanged. The full service list and the font size never change |
| `Monitor.MonitorApp.ZoomIn` | main.py:767-772 | the font size is `ZoomedIn` of the old one, stored in the configuration when it changed |
| `Monitor.MonitorApp.ZoomOut` | main.py:774-779 | the font size is `ZoomedOut` of the old one, stored in the configuration when it changed |
| `Monitor.MonitorApp.ResetZoom` | main.py:781-785 | the font size becomes 12 and is stored |
| `Py.ParseInt` | main.py:1116 | `int()` of base-10 text: blank text and text with a decimal point raise |
| `Py.StripEmptyIff` | main.py:203 | `s.strip()` is empty exactly when every character is white space |
| `Py.ParseDecimal` | main.py:1142 | `int()` reads a number rendered in decimal back, even after leading white space |
| `Py.StrIntRoundTrip` | main.py:359-361 | `int(str(n)) == n` for every integer |
| `Py.JoinSplit` | main.py:322 | joining the pieces of `split` with the separator gives the original text |
| `Py.SplitJoin` | main.py:322 | splitting the join of pieces free of the separator gives the pieces back |
| `Py.WordsJoin` | main.py:325 | `split()` of words joined by single spaces gives the words back |
| `Py.WordsCons` | main.py:325 | a word ended by white space or by the end of the text is the first word `split()` gives |

## Left out

- The tkinter and ttkbootstrap user interface is not modelled. This covers the windows, `setup_ui`, `update_fonts`, `apply_preferences`, the context menus, message boxes and placeholder focus handlers, `zoom_with_mousewheel` and the terminal window. They only present data. Dialog answers, such as the confirmation in `control_service`, are parameters.
- paramiko is not modelled: how a connection is made, `exec_command`, the keepalive and the timeouts. It is network I/O, and it is represented by the `connect` and `exec` oracles.
- The initial `check_required_commands` that `connect` runs is modelled as a separate method (`Session.SshSession.CheckRequiredCommands`), not as part of `Connect`.
- The lock, the daemon threads and `auto_refresh` scheduling are not modelled, because they are concurrency. A reconnect inside `execute_command` calls `check_required_commands`, which runs `execute_command` again under the same non-reentrant lock. That deadlock is outside the model.
- Reading and writing `config.json` and the translation files is I/O. The decoded contents are parameters of `Settings.ConfigHandler.constructor` and `Settings.Translate`.
- `json.loads`, `locale.getlocale`, `locale.getdefaultlocale`, `time.time()` and `datetime.now()` are library calls. Their results are parameters.
- The CPU figure of `get_system_resources` is not modelled. It is parsed from mpstat or top output with regular expressions and `float`.
- `Collectors.Pm2Services`: one `nowMs` stands for every entry of a listing, where `format_uptime` reads `time.time()` afresh for each entry (main.py:343). A `pm2 jlist` whose top level is not a list of objects cannot be represented, so the AttributeError a non-object entry raises at main.py:267 is not modelled.
- `Collectors.MemoryUsage`: keeps the two words as text. It does not model `float()` of exponents, "inf", "nan" or underscore groups such as "1_000", or the float repr in the message.
- `Sorting.NumericKey`: reads integer text only. Text such as "12.5", which `float()` accepts for the CPU, memory and PORT columns, is treated as unreadable. Decoded values are never floats, because the model has no floating point.
- `Monitor.MonitorApp.constructor`: takes the font size as an integer that agrees with the preferences. A stored `font_size` that is not an integer is not modelled; the source keeps such a value as it is.
- `Translate`'s format arguments (`text.format(**kwargs)`) are not modelled; only the fallback to the key is.
- `Lower` and `Upper` map ASCII letters only; `int()` accepts ASCII digits only.
- Tk's conversion of the stored values back into Python values (`tree.item(item)['values'][0]`) is not modelled. An item's iid is compared directly with the service IDs.
- The view-logs and terminal windows are not modelled beyond the command `fetch_logs` builds.
- The threads started by `service_control` and `control_all` are not modelled. Each thread is one call of `Control.ControlService`.

## Findings

| source | as written | input that shows it | evidently intended | confidence | as-written member | corrected member |
|---|---|---|---|---|---|---|
| main.py:736 (also main.py:617) | after building `SSHClientWrapper`, the test `self.ssh_client.client is None` reports a failed connection. But `connect` assigns a fresh `paramiko.SSHClient()` before connecting and catches every exception, so the client is never None and the test never fires | a server that refuses the connection: the transport left by `connect` is not active, yet initialisation goes ahead and `save_and_connect` reports success | test whether the client's transport is active | not executed | `Monitor.FailureUnnoticed` | `Monitor.ConnectionFailedMeans`, used by `Monitor.MonitorApp.InitializeApplication` |
