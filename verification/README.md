# WebDAV backup and plugin reload: a Dafny model

This project models two MoviePilot plugins.

**WebDAV backup.** The backup plugin zips a few configuration files and names the archive
`MoviePliot-Backup-YYYY-MM-DD_HH-MM-SS.zip` from the clock. It uploads the archive to a
WebDAV server and then removes the local copy. Then it prunes old archives on the server:
1. list the root,
2. keep the names an archive pattern admits,
3. sort them by the timestamp parsed back out of each name,
4. delete all but the newest `max_count`.

It can send a notification at the end. It reads `max_count` and the rest of its settings
in `init_plugin`, and it offers one cron service when enabled.

**Plugin reload.** The reload plugin saves a small configuration mapping. It reloads the
selected plugin into memory and then re-registers that plugin's scheduled jobs. Its form
lists the running local plugins, numbered from 1.

The model is functional. Python values, truthiness, `dict.get`, `int()` and slicing are
spelled out in `Py`. Clock readings, directory listings and the success or failure of
every call into the WebDAV library, the file system, the plugin manager and the scheduler
are inputs. What the plugins ask of the outside world is an ordered trace of events or
actions.

Modules:

| module | file | models |
|---|---|---|
| `Decimal` | decimal.dfy | decimal digit strings, zero padding, `str(n)` |
| `Py` | py.dfy | configuration values, truthiness, `dict.get`, `int()`, `s[:stop]` |
| `DateTime` | datetime.dfy | `datetime` field validity and chronological order |
| `ArchiveName` | archive_name.dfy | `strftime` of the archive name, the pruner's `re.match` and `strptime` |
| `Retention` | retention.dfy | `__clean_old_backups`: filter, keys, stable sort, `[:-max_count]`, delete requests |
| `WebDavBackup` | webdav_backup.dfy | `init_plugin`, `get_service`, `__backup_and_zip_file`, `__backup_files_to_webdav`, `backup` |
| `PluginReload` | plugin_reload.dfy | `__update_config`, `init_plugin`, `__reload`, the option list of `get_form` |

## Model

| member | source | states |
|---|---|---|
| ArchiveName.ArchiveFileName | plugins/webdavbackup/__init__.py:432-435 | The generated basename is exactly 41 characters: the `MoviePliot-Backup-` prefix, the 19-character timestamp, then `.zip`. |
| ArchiveName.MatchIsAnchoredAtStart | plugins/webdavbackup/__init__.py:468-474 | `re.match` anchors only at the start: a name matches iff it is at least 41 characters long and its first 41 characters match. |
| ArchiveName.ParseStampIsStrptime | plugins/webdavbackup/__init__.py:476-478 | On an admitted name, the parse succeeds iff all three stages of `strptime` pass: the `%m %d %H %M %S` directive patterns, the "no unconverted data" check and the `datetime` range check. It then yields the name's fields. |
| ArchiveName.SecondRange | plugins/webdavbackup/__init__.py:476-478 | `%S` admits exactly the two-digit seconds up to 61, so leap seconds pass the pattern. |
| ArchiveName.LeapSecondRefusedByConstructor | plugins/webdavbackup/__init__.py:468-478 | A name with second 60 passes the archive pattern and the `%S` directive, and only the `datetime` constructor refuses it. |
| ArchiveName.ArchiveFileNameRoundTrip | plugins/webdavbackup/__init__.py:432-435 | The name a backup generates at any valid time passes the pruner's pattern, and `strptime` with the pruner's format gives back exactly that time. |
| ArchiveName.ArchiveFileNameMatches | plugins/webdavbackup/__init__.py:468 | The pattern is anchored only at the start, so a generated name followed by any text still matches, and its digit fields spell the generating time. |
| ArchiveName.TrailingTextMatchesButDoesNotParse | plugins/webdavbackup/__init__.py:474-478 | A generated name with text appended passes the filter but fails the timestamp parse. |
| ArchiveName.ParsedNameIsCanonical | plugins/webdavbackup/__init__.py:476-478 | A name that parses is exactly the name generated from its timestamp, so equal sort keys mean equal names. |
| ArchiveName.PatternAdmitsMonthThirteen | plugins/webdavbackup/__init__.py:468-478 | A name with month 13 is admitted by the pattern but refused by the parser. |
| ArchiveName.PatternAdmitsNonLeapFebruary29 | plugins/webdavbackup/__init__.py:468-478 | 29 February of a non-leap year is admitted by the pattern but refused by the parser. |
| Retention.Matching | plugins/webdavbackup/__init__.py:474 | Every kept name matches the pattern, and the result is no longer than the listing. |
| Retention.MatchingMembers | plugins/webdavbackup/__init__.py:474 | A name survives the filter iff it is listed and matches the pattern. |
| Retention.MatchingConcat | plugins/webdavbackup/__init__.py:474 | The filter keeps listing order: filtering a concatenation concatenates the filtered parts. |
| Retention.Keyed | plugins/webdavbackup/__init__.py:476-478 | Keys are computed for every admitted name. The result fails iff some admitted name does not parse; otherwise each entry pairs its name with its parsed timestamp. |
| Retention.SortByStamp | plugins/webdavbackup/__init__.py:476-478 | The result is ordered oldest first and is a permutation of the input. |
| Retention.AscendingOrderIsUnique | plugins/webdavbackup/__init__.py:476-478 | When timestamps identify entries, two oldest-first orderings of the same multiset are equal, so this sort agrees with Python's `sorted`. |
| Retention.KeyedStampsIdentify | plugins/webdavbackup/__init__.py:476-478 | Among the keyed admitted names, no two different names share a timestamp. |
| Retention.StampsIdentifyPermuted | plugins/webdavbackup/__init__.py:476-478 | Reordering the keyed entries keeps timestamps identifying them. |
| Retention.PlannedOrderIsTheSortedOrder | plugins/webdavbackup/__init__.py:476-482 | Any oldest-first arrangement of the keyed admitted names equals the plan's order, so the plan sorts as Python's `sorted` does, and the deleted names are the front of that arrangement. |
| Retention.PlanPrune | plugins/webdavbackup/__init__.py:463-482 | A failed listing or one unparsable admitted name aborts the plan. Otherwise the plan deletes a prefix of the oldest-first order. That prefix is empty when there are at most `max_count` names or `max_count` is 0. For 0 < K < N it holds exactly N − K names and K are kept. For negative K it holds the oldest min(−K, N). |
| Retention.NonMatchingNeverSelected | plugins/webdavbackup/__init__.py:468-482 | Whatever `max_count` is, every name chosen for deletion was listed and matches the pattern. |
| Retention.SelectedAreOldest | plugins/webdavbackup/__init__.py:476-482 | Each deleted name is no later than every kept name. |
| Retention.UnparsableNameAborts | plugins/webdavbackup/__init__.py:471-490 | One listed name that matches but does not parse makes the whole prune abort. |
| Retention.CleanEach | plugins/webdavbackup/__init__.py:482-488 | After the listing there is one delete request per selected name, in order, on path `/name`. A refused delete does not stop the loop. |
| Retention.PruneCalls | plugins/webdavbackup/__init__.py:471-490 | An aborted prune sends only the listing request. Otherwise it sends the listing and then the deletes of the plan. |
| Retention.AfterCleaning | plugins/webdavbackup/__init__.py:482-488 | A stored name disappears iff it was selected and its delete was not refused. |
| Retention.PruneOutcome | plugins/webdavbackup/__init__.py:463-490 | After a prune, a remote name is gone iff the plan selected it and its delete succeeded. Names the pattern does not admit always stay. |
| Py.ParseIntTextComplete | plugins/webdavbackup/__init__.py:84 | Every integer literal is accepted, with the value it denotes: surrounding blanks, an optional sign, then digit groups with single underscores between digits, at most 4300 digits. |
| Py.ParseIntTextSound | plugins/webdavbackup/__init__.py:84 | Only such literals are accepted: whatever text `int()` turns into a number is, once stripped, a sign and digit groups that denote that number. |
| Py.DecimalPointRefused | plugins/webdavbackup/__init__.py:84 | `int("5.0")` raises ValueError. |
| Py.WordRefused | plugins/webdavbackup/__init__.py:84 | `int("five")` raises ValueError. |
| Py.BlanksIgnored | plugins/webdavbackup/__init__.py:84 | A blank on each side of the text does not change what `int()` gives. |
| Py.PlusSignAccepted | plugins/webdavbackup/__init__.py:84 | `int("+3")` is 3. |
| Py.UnderscoresDropped | plugins/webdavbackup/__init__.py:84 | `int("1_000")` is 1000. |
| Py.ParseIntTextOfNat | plugins/webdavbackup/__init__.py:84 | `int(str(n))` gives back `n` and `int("-" + str(n))` gives `-n`, for every number within the 4300-digit limit. |
| Py.ToInt | plugins/webdavbackup/__init__.py:84 | `int(None)` is a TypeError and nothing else is. An integer is kept, a boolean reads as 0 or 1, and text raises ValueError iff `int()` refuses it, giving its parse otherwise. |
| WebDavBackup.MaxCount | plugins/webdavbackup/__init__.py:83-87 | A missing key gives 0. An integer is kept, and a boolean reads as 0 or 1. Text is parsed as `int()` does, and unparsable text gives 0. A stored `None` raises a TypeError that the handler does not catch. |
| WebDavBackup.MaxCountOfText | plugins/webdavbackup/__init__.py:83-87 | A decimal string reads back as its number, and any text `int()` refuses reads as 0. |
| WebDavBackup.MaxCountOfNonIntegers | plugins/webdavbackup/__init__.py:83-87 | A stored count of `"5.0"` or `"five"` reads as 0. |
| WebDavBackup.Init | plugins/webdavbackup/__init__.py:71-127 | A missing or empty configuration changes nothing. A stored `None` count raises, and so does a client constructor that raises. Otherwise every setting takes its stored value or its default: enabled, cron, notify, count, host, login, password and digest flag. A one-shot run is queued iff the connection works and "run once" is set. Queuing it clears the flag; otherwise the flag keeps its stored value. |
| WebDavBackup.Services | plugins/webdavbackup/__init__.py:347-362 | There is exactly one cron service, `WebDAVBackup`, with the configured cron, iff the plugin is enabled and the cron is non-empty; otherwise there is none. |
| WebDavBackup.ServiceAfterInit | plugins/webdavbackup/__init__.py:79-80 | After initialisation, the service exists iff the stored configuration has a truthy `enabled` and a truthy `cron`. |
| WebDavBackup.ArchiveContents | plugins/webdavbackup/__init__.py:441-451 | The archive holds exactly the listed configuration files that exist; missing ones are skipped. |
| WebDavBackup.MakeArchive | plugins/webdavbackup/__init__.py:428-461 | An archive is produced iff file I/O succeeds. It is named from the clock and holds the existing configuration files. |
| WebDavBackup.UploadArchive | plugins/webdavbackup/__init__.py:400-425 | With an archive, the upload comes first and the local removal follows whether or not the upload succeeded. The step raises iff there is an archive and its removal fails. It returns the archive's basename and success iff the upload and the removal both succeed; otherwise it returns no file and failure. |
| WebDavBackup.PruneStep | plugins/webdavbackup/__init__.py:384-385 | A zero `max_count` sends no pruning request; otherwise the pruner's requests are sent. |
| WebDavBackup.Backup | plugins/webdavbackup/__init__.py:379-425 | The run reports success iff archiving, upload and local removal all succeed. With an archive, the run begins with exactly one upload of it and then exactly one removal of it. Only the archive named from the clock is uploaded and removed, and no other local step follows. Pruning requests come next, and at most one notification comes last. A failed removal raises into the outer handler, which skips pruning. Otherwise pruning happens whatever the upload result. A notification is sent iff notifications are on; it is the last event and reports the run's result. |
| PluginReload.UpdateConfig | plugins/pluginreload/__init__.py:171-181 | When this plugin is selected, the mapping is empty. Otherwise `previous_state` is always kept, and `plugin_id` is kept iff `previous_state` is truthy. No other key appears. |
| PluginReload.Reload | plugins/pluginreload/__init__.py:150-169 | The plugin is loaded first and exactly once: a failed load is not retried. The scheduler is updated iff the load succeeds. The reload completes iff both steps succeed. |
| PluginReload.Init | plugins/pluginreload/__init__.py:33-42 | A missing or empty configuration does nothing. Otherwise the two fields are read and the configuration is saved first. With a falsy selection, the save is the only action. With a truthy one, the save is followed by exactly the actions of reloading it. The run completes iff that reload completes. |
| PluginReload.RestartFromSaved | plugins/pluginreload/__init__.py:33-42 | Restarting from the saved mapping saves the same mapping again. It reloads again iff the switch and the selection were both truthy. A mapping emptied by selecting this plugin does nothing. |
| PluginReload.FormDefaultsReloadNothing | plugins/pluginreload/__init__.py:135-138 | Saving the form's initial data stores it unchanged and reloads nothing. |
| PluginReload.RunningPlugins | plugins/pluginreload/__init__.py:59-61 | A local plugin is listed iff its id is running. |
| PluginReload.RunningPluginsConcat | plugins/pluginreload/__init__.py:61 | The filter keeps the plugin manager's order. |
| PluginReload.Numbered | plugins/pluginreload/__init__.py:62-66 | Entry i is built from the i-th plugin with number i + 1. |
| PluginReload.PluginOptions | plugins/pluginreload/__init__.py:58-66 | There is one option per running local plugin, in order, titled with its 1-based position. Its value is the plugin id and its name is the plugin name. Every running local plugin is offered. |
| PluginReload.TitleNumber | plugins/pluginreload/__init__.py:63 | The digits in front of a title's first `.` read back as its position. |
| PluginReload.TitlesDistinct | plugins/pluginreload/__init__.py:62-66 | Options at different positions have different titles. |

## Left out

- Python's `\d` also matches non-ASCII decimal digits, and `strptime` accepts some of them. The model treats digits as ASCII only.
- Py.ParseIntTextSound: `int()` also accepts any Unicode decimal digit (a fullwidth `５` reads as 5), while `Py.ParseIntText`, and with it `WebDavBackup.MaxCount`, accepts ASCII digits only and reads such text as 0.
- `int()` on a float stored as `max_count` is not modelled, because configuration values are `None`, booleans, integers or strings here.
- ArchiveName.ArchiveFileNameRoundTrip: it holds for years 1 to 999 only because `ArchiveName.StampText` pads the year to four digits. glibc's `strftime` prints such years with fewer digits, and then the name would fail `\d{4}`. `ArchiveName.ArchiveFileNameMatches`, `ArchiveName.ArchiveFileName` and `WebDavBackup.MakeArchive` share this padding. The current clock never reads such a year.
- The WebDAV client's internals (construction, connect, list, upload, clean) are not modelled: whether each call returns normally is an input.
- The host's `update_config`, `PluginManager` and `Scheduler` are not modelled; their calls are recorded as actions, and a reload step only succeeds or fails. Restarting from the saved mapping assumes `update_config` replaces the stored configuration.
- APScheduler, cron-expression parsing, the `threading` event and `stop_service` are not modelled: they are scheduling and concurrency plumbing.
- Copying, zipping and directory removal are one success flag. The upload's URL join only feeds a log line.
- The notification text, `datetime.now()` in it, and all logging are not modelled; a notification carries only success or failure.
- The outer `except` of `backup` is reached in the model only by a failing `os.remove` in the upload's `finally`. The logging of `e.response.text` is taken not to raise, and neither is the notification's `post_message`; either would also reach that handler.
- WebDavBackup.Init: the `if not self._client` branch is not modelled, because a constructed client object is always truthy.
- WebDavBackup.Init: when `int(None)` or the client's constructor raises, the fields assigned before it keep their new values; the model returns only `Raised`.
- The layout dictionaries of both `get_form` methods, `get_page`, `get_api`, `get_command` and `get_state` are not modelled: they are UI or empty.
- A negative `max_count` deletes the |max_count| oldest archives, because Python reads `s[:-(-3)]` as `s[:3]`. This is modelled as written; the intended meaning of a negative count is unclear.
