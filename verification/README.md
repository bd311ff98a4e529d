# Verified model of the Azure Linux extensions

A Dafny model of the logic in the Azure Linux extensions that decides something: which table rows a
monitoring cycle fetches, which configuration files a watcher leaves on disk, where a metric ends up,
whether a configuration runs twice.  Files, clocks, services and child processes are values or
parameters; what the extensions do with them is modelled branch by branch and proved.

Check it with `dafny verify dfyconfig.toml` (Dafny 4.11).

| file | part of the repository | main results |
|---|---|---|
| `Text.dfy` | the string operations the others use | split and join are inverse exactly when no part holds the separator; padded numbers sort as numbers |
| `Calendar.dfy`, `StorageKeys.dfy`, `Scheduler.dfy` | storage metrics of `AzureEnhancedMonitor` | the Gregorian clock is inverse to the closed formula; string order of keys is time order; no row is fetched twice, and with punctual cycles of at most a minute every row is fetched once |
| `PartitionKeys.dfy` | diagnostics tables | one modular reduction of the hash polynomial is enough; a key range selects one hash and one time window |
| `PerfCounters.dfy` | the event file | a decoder, and exactly when it inverts the printer |
| `HardwareChange.dfy` | the HwInfo file | every report is the time of the latest change, over any run |
| `StorageStats.dfy` | read and write statistics | conservation; latencies are means; statistics of two lists combine |
| `SyslogConfig.dfy` | `AzureMonitorAgent` syslog watcher | what holds of the config files over every run, and exactly when a port goes stale; what causes a restart |
| `SshdConfig.dfy`, `SshdBackup.dfy` | `VMAccess`, sshd_config | what every keyword reads after a rewrite, for the rewrite and for the daemon; what the backup holds at any point of any run |
| `Sudoers.dfy` | `VMAccess`, sudoers | over every run the text file is a map from users to entries |
| `Sinks.dfy`, `LadRouting.dfy`, `Durations.dfy` | `Diagnostic` | the compiled graph delivers exactly what the settings ask for; the duration scanner is its regular expression, and which intervals are accepted |
| `LogScanner.dfy`, `Heartbeat.dfy` | `OmsAgent` self-monitoring | exactly when the incremental scan agrees with rescanning; restart rates |
| `SequenceNumbers.dfy` | `Utils/HandlerUtil.py` | exactly when each configuration launches at most once, with crashes anywhere |

Code that changes something step by step (config files, markers, counters, lists) is a class or a
method with a loop, proved equal to a function of the old state; the results above are lemmas about
those functions.

## Where the code does less than it seems to

Each of these is a lemma with the condition under which the code does what is expected, and none of
them changes the model.

- The comment on the host hash gives the modulus as the reason why 64 bits are enough, but 2^64 is not
  a multiple of 100: the hash is the polynomial modulo 100 only when its part above 64 bits is a
  multiple of 25 (`HashDropsHighWords`).  For `web-server-01` they differ (`HashOfWebServer`).
- An empty list of adapters is stored as one blank line, so two empty lists in a row count as a change
  (`DetectsExactly`, `EmptyListsAlwaysChange`).
- `remove_localsyslog_configs` leaves the `.bak` file that a port rewrite makes (`BackupsStay`,
  `BackupLeftExactly`), and the syslog-ng config keeps its old port if its daemon has gone when the
  port changes (`StalePortLeft`, `RunCarriesPort`).
- The sshd_config rewrite knows a keyword, and `Match`, only in its own spelling.  A line above that
  spells the keyword otherwise keeps deciding for the daemon (`AliasDecides`, `LowerCaseDecides`), and
  below a Match line in lower case the entry holds for that block alone (`EntryInsideBlock`); there are no other cases
  (`DaemonObeysExactly`, `UpdateObeyedExactly`).  An update is skipped if the pair stands in a Match
  block (`UpdateTakesEffect`, `MatchBlockHidesUpdate`); a restore without a backup installs the
  default (`RestoreReturnsOriginal`).
- A user name goes into the sudoers pattern as it is, so a dot matches other users' lines and a dollar
  sign none at all (`PatternExact`, `DotTakesOthers`, `DollarTakesNone`); an account command that gives up early doubles everybody else's
  lines (`FailureHarmlessExactly`, `FailureDoublesOthers`).
- `IntervalToSeconds` documents a ValueError for malformed text, but skips what it does not know
  (`JunkSkipped`) and accepts whatever holds one non-zero part (`AcceptedExactly`, `MalformedAccepted`).
- A fatal line on a rotated log leaves the position of the old log behind, and the scanner may be deaf
  until the new log has outgrown it (`DeafAfterReplacement`).  Every other run of calls answers as
  rescanning does (`AgreesWithRescan`, `ReliableExactly`).
- The mrseq file is truncated and then written.  A crash in between makes it forget, and a number the
  host goes back to is launched again (`TornWriteRelaunches`); if numbers never go down, that
  takes a launched number above the stored one and not below those to come (`MonotoneExactly`).

## Model

| member | source | states |
|---|---|---|
| Calendar.GmTimeInverse | AzureEnhancedMonitor/ext/aem.py:795-802 | the broken-down time, turned back by the closed Gregorian formula, is the time without its seconds |
| Calendar.GmTimeOrder | AzureEnhancedMonitor/ext/aem.py:797 | broken-down times compare by year, month, day, hour and minute exactly as their minutes do |
| StorageKeys.TimestampReads | AzureEnhancedMonitor/ext/aem.py:795-802 | the key of a time is eight digits, a T and four digits, which name the valid civil time of its minute |
| StorageKeys.KeysCompare | AzureEnhancedMonitor/ext/aem.py:805-819 | keys of that form, whoever wrote them, compare as strings exactly as the minutes they name |
| StorageKeys.RangeSelectsMinutes | AzureEnhancedMonitor/ext/aem.py:805-819 | the ge/lt filter returns exactly the rows whose minute is in the window |
| StorageKeys.RangeSelectsKeys | AzureEnhancedMonitor/ext/aem.py:805-819 | the filter returns a row of any such key exactly if the minute it names is in the window |
| Scheduler.Daemon | AzureEnhancedMonitor/ext/handler.py:89-108 | each cycle starts where the previous one ended plus its wait, and computes its window at its query time |
| Scheduler.CycleExactly | AzureEnhancedMonitor/ext/aem.py:805-810 | in every run, late cycles included, a window is the latest whole minute that ended five minutes before the query, and the next start is whole minutes later, within a minute of the cycle's end |
| Scheduler.NextStartIsLeastMultiple | AzureEnhancedMonitor/ext/handler.py:104-108 | the wait is in [0, 60) and ends at the least multiple of the interval not before the cycle's end, past the start exactly for positive elapsed time |
| Scheduler.NoDrift | AzureEnhancedMonitor/ext/handler.py:89-108 | all starts of a run are whole intervals apart |
| Scheduler.WindowsMeet | AzureEnhancedMonitor/ext/aem.py:805-810 | the gap between successive windows, which is zero exactly when the cycle between took more than nothing and at most an interval |
| Scheduler.WindowsTile | AzureEnhancedMonitor/ext/aem.py:117-121 | with short punctual cycles window i is the i-th minute after the first window |
| Scheduler.FetchedAtItsSlot | AzureEnhancedMonitor/ext/aem.py:805-819 | in every punctual run a row is fetched by the cycles that start in its minute, the minutes gone by being counted from the elapsed times; by at most one if cycles take time |
| Scheduler.EveryRowFetchedOnce | AzureEnhancedMonitor/ext/aem.py:805-819 | with short cycles a row stamped between the first and the last window is returned by the string-range query of exactly one cycle |
| PartitionKeys.EasyHash | AzureEnhancedMonitor/ext/aem.py:89-99 | reducing modulo 2^64 at each character gives the once-reduced base-37 polynomial, modulo 100 |
| PartitionKeys.HashDropsHighWords | AzureEnhancedMonitor/ext/aem.py:97-99 | when the hash is the unreduced polynomial modulo 100, exactly |
| PartitionKeys.HashOfWebServer | AzureEnhancedMonitor/ext/aem.py:89-99 | a host name for which it is not |
| PartitionKeys.TicksOfCivilTime | AzureEnhancedMonitor/ext/aem.py:101-107 | the tick count names the civil time of the calendar, counted from the year 1 |
| PartitionKeys.TicksCount | AzureEnhancedMonitor/ext/aem.py:101-107 | ten million ticks a second from the tick count of 1970 on |
| PartitionKeys.TicksFit | AzureEnhancedMonitor/ext/aem.py:104-115 | every date up to the year 10000 fits the 19 digits, and ticks order as seconds |
| PartitionKeys.PartitionKeyOrder | AzureEnhancedMonitor/ext/aem.py:113-115 | keys compare as pairs of hash and ticks, for values below 10^19 |
| PartitionKeys.PartitionKeyReads | AzureEnhancedMonitor/ext/aem.py:113-115 | a key is nineteen digits with the hash, three underscores, and nineteen digits with the ticks |
| PartitionKeys.RangeSelectsPartitionKeys | AzureEnhancedMonitor/ext/aem.py:117-137 | a row of any such key is in the range exactly if its fields hold the hash and ticks in the window |
| PartitionKeys.RangeSelectsHostAndTicks | AzureEnhancedMonitor/ext/aem.py:117-137 | the key range returns exactly the rows with the host's hash and ticks in the window |
| PartitionKeys.DiagnosticRange | AzureEnhancedMonitor/ext/aem.py:117-137 | the same from host names and times: rows of other hosts come along exactly when the hashes meet |
| PerfCounters.DecodeExactly | AzureEnhancedMonitor/ext/aem.py:1295-1306 | decoding the written file gives the counters back exactly when no field holds a semicolon or a newline |
| PerfCounters.FileDeterminesCounters | AzureEnhancedMonitor/ext/aem.py:1346-1348 | equal files come from equal lists, missing values told apart from empty ones |
| PerfCounters.PrintedRecord | AzureEnhancedMonitor/ext/aem.py:1295-1306 | the ten fields of a record, in order, each with its semicolon |
| HardwareChange.SameList | AzureEnhancedMonitor/ext/aem.py:367-375 | the loop decides equality of two lists, either of which may be None |
| HardwareChange.SortEqualsMultiset | AzureEnhancedMonitor/ext/aem.py:461-462 | sorted lists are equal exactly when the multisets are |
| HardwareChange.HwInfoRoundTrip | AzureEnhancedMonitor/ext/aem.py:445-454 | the file reads back what was written exactly for non-empty lists of newline-free addresses |
| HardwareChange.HardwareChangeInfo.GetLastHardwareChange | AzureEnhancedMonitor/ext/aem.py:456-471 | one call: the file afterwards and the reported time, or the ValueError of a damaged file |
| HardwareChange.ReportsLatestChange | AzureEnhancedMonitor/ext/aem.py:441-471 | over any run each report is the time of the latest observation whose multiset differed from the stored one |
| HardwareChange.FileSays | AzureEnhancedMonitor/ext/aem.py:441-471 | over any run the first line of the file is the time of the latest change, and the other lines are the addresses, sorted |
| HardwareChange.ChangesAreDifferences | AzureEnhancedMonitor/ext/aem.py:461-462 | with non-empty lists a change is exactly a difference from the previous multiset |
| HardwareChange.DetectsExactly | AzureEnhancedMonitor/ext/aem.py:448-453 | the pairs of lists about which the detector is wrong |
| HardwareChange.EmptyListsAlwaysChange | AzureEnhancedMonitor/ext/aem.py:451-454 | a run in which nothing changes and a change is reported |
| StorageStats.NeverBoth | AzureEnhancedMonitor/ext/aem.py:890-906 | no operation is a user read and a user write |
| StorageStats.ReadsPlusWrites | AzureEnhancedMonitor/ext/aem.py:908-931 | bytes and operations of reads, writes and the rest add up to the totals, so reads and writes do not exceed them |
| StorageStats.LatencyIsMean | AzureEnhancedMonitor/ext/aem.py:924-930 | a latency is present exactly for non-zero operations, and between any bounds on the averages of the rows that served a request |
| StorageStats.StatsCombine | AzureEnhancedMonitor/ext/aem.py:908-931 | for two lists of rows totals and throughput add, and means combine by operation counts |
| StorageStats.OneRow | AzureEnhancedMonitor/ext/aem.py:908-931 | the statistics of one counted row: bytes both ways, requests, its two averages, and megabytes a second over a minute |
| StorageStats.NoRow | AzureEnhancedMonitor/ext/aem.py:908-921 | a row that is not counted contributes nothing, and a failed query has no statistics |
| StorageStats.ReadsExactly | AzureEnhancedMonitor/ext/aem.py:890-897 | the row keys that count as user reads, by their beginnings |
| StorageStats.WritesExactly | AzureEnhancedMonitor/ext/aem.py:899-906 | the row keys that count as user writes, by their beginnings |
| SyslogConfig.PortsCanonical | AzureMonitorAgent/agent.py:3319-3341 | a port is accepted exactly in 1..65535, validation is idempotent, and accepted ports are equal as strings exactly when equal as numbers |
| SyslogConfig.PortsAccepted | AzureMonitorAgent/agent.py:3319-3341 | a text is accepted exactly if it is a number in 1..65535 with a sign or none and any blanks around it |
| SyslogConfig.SyslogAgent.GenerateLocalSyslogConfigs | AzureMonitorAgent/agent.py:2204-2342 | the files, the remembered port and the restarts after a generate step |
| SyslogConfig.SyslogAgent.InstallRsyslogTcp | AzureMonitorAgent/agent.py:2258-2290 | the rsyslog files after the TCP branch, in closed form |
| SyslogConfig.SyslogAgent.InstallNgTcp | AzureMonitorAgent/agent.py:2292-2320 | the syslog-ng files after the TCP branch, in closed form |
| SyslogConfig.SyslogAgent.InstallUnixSocket | AzureMonitorAgent/agent.py:2322-2342 | both daemons' files after the unix socket branch |
| SyslogConfig.SyslogAgent.RemoveLocalSyslogConfigs | AzureMonitorAgent/agent.py:2344-2367 | the files, the remembered port and the restarts after a remove step |
| SyslogConfig.SyslogAgent.Watch | AzureMonitorAgent/agent.py:2140-2160 | a turn of the watcher generates or removes, by the marker file and the control plane |
| SyslogConfig.WatchExactly | AzureMonitorAgent/agent.py:2140-2160 | one turn: the word `true` anywhere in the marker, or without a marker the control plane, leaves a config with a daemon that is there; anything else leaves no file and no remembered port |
| SyslogConfig.GenerateKeeps | AzureMonitorAgent/agent.py:2204-2342 | generate keeps TCP and unix configs apart and the loader beside one; installed TCP configs carry the remembered port exactly unless syslog-ng has vanished and left another port |
| SyslogConfig.RemoveClears | AzureMonitorAgent/agent.py:2344-2367 | from exclusive files, remove leaves none of the five |
| SyslogConfig.GenerateInstallsChoice | AzureMonitorAgent/agent.py:2235-2342 | a step past the early returns leaves each present daemon with the chosen transport and port, and without the other |
| SyslogConfig.TransportExactly | AzureMonitorAgent/agent.py:2212-2342 | each daemon gets TCP on the port handed over, or the unix socket exactly if none is or SELinux is in the way |
| SyslogConfig.RunKeepsLoader | AzureMonitorAgent/agent.py:2322-2342 | over every run a unix socket config has the loader of its module beside it |
| SyslogConfig.RunKeepsExclusive | AzureMonitorAgent/agent.py:2128-2160 | after every turn of every run TCP and unix configs are apart, the loader is beside one, and after a remove nothing is left |
| SyslogConfig.RunCarriesPort | AzureMonitorAgent/agent.py:2128-2342 | installed TCP configs carry the remembered port all through a run exactly if no turn changes the port while syslog-ng is gone and its config is not |
| SyslogConfig.StalePortLeft | AzureMonitorAgent/agent.py:2292-2320 | two turns from a clean machine that leave a config with a port other than the remembered one |
| SyslogConfig.GenerateTwice | AzureMonitorAgent/agent.py:2223-2230 | repeating a generate step changes nothing and restarts nothing, from any state |
| SyslogConfig.RestartHasCause | AzureMonitorAgent/agent.py:2204-2342 | a restarting generate step is the first step, follows a remove or a step for no control plane, or since the previous one the port has changed or a daemon has appeared |
| SyslogConfig.RestartsIffChanged | AzureMonitorAgent/agent.py:2258-2367 | a daemon is restarted exactly when its files have changed |
| SyslogConfig.BackupsStay | AzureMonitorAgent/agent.py:2128-2367 | over every run a `.bak` file is there exactly if it was at first or some turn has rewritten a port |
| SyslogConfig.BackupLeftExactly | AzureMonitorAgent/agent.py:2280-2285 | when generate and remove together leave a clean machine clean |
| SshdConfig.SetSshdConfig | VMAccess/vmaccess.py:405-419 | the loop with its break and its late insertion computes the section-wise rewrite |
| SshdConfig.InsertedAboveMatch | VMAccess/vmaccess.py:411-418 | a new entry goes right above the first Match line |
| SshdConfig.InsertedAboveLast | VMAccess/vmaccess.py:405-418 | without a Match line it goes above the last line, so that a final line feed stays final |
| SshdConfig.ReplacedInPlace | VMAccess/vmaccess.py:408-410 | if lines before the first Match line begin with the name, each of them becomes the entry and nothing else changes |
| SshdConfig.UpdateSetsLookup | VMAccess/vmaccess.py:405-419 | before the first Match line, as the rewrite tells keywords and Match lines, the name reads the value, longer keywords that begin with it are gone, all others read as before; the Match blocks are untouched |
| SshdConfig.UpdateSetsDaemonLookup | VMAccess/vmaccess.py:405-419 | what the daemon reads for the name for all users, after any rewrite: what an alias above the entry says, nothing if the daemon sees a Match line above it, and otherwise the value |
| SshdConfig.DaemonObeysExactly | VMAccess/vmaccess.py:405-419 | the daemon reads the value for all users exactly if no other value and no Match line, in the daemon's spelling, stands above the entry |
| SshdConfig.AliasDecides | VMAccess/vmaccess.py:408 | files on which a line behind a blank keeps deciding for the daemon |
| SshdConfig.LowerCaseDecides | VMAccess/vmaccess.py:408 | a file on which a line in lower case keeps deciding for the daemon |
| SshdConfig.EntryInsideBlock | VMAccess/vmaccess.py:411-418 | files whose Match line is in lower case: the entry goes into its block |
| SshdConfig.UpdateKeepsOthers | VMAccess/vmaccess.py:405-419 | all lines that do not begin with the name are kept, in order |
| SshdConfig.UpdateIdempotent | VMAccess/vmaccess.py:405-419 | rewriting twice is rewriting once |
| SshdBackup.SshdFiles.BackupAndUpdateSshdConfig | VMAccess/vmaccess.py:386-402 | both files after an update: skipped, or backed up at most once and rewritten |
| SshdBackup.SshdFiles.BackupSshdConfig | VMAccess/vmaccess.py:502-514 | an existing backup is never overwritten |
| SshdBackup.SshdFiles.ResetSshdConfig | VMAccess/vmaccess.py:441-499 | both files after a reset or a restore |
| SshdBackup.UpdateExactly | VMAccess/vmaccess.py:386-402 | an update is skipped exactly if some line begins with the name and holds the value in lower case; else it backs up once and rewrites |
| SshdBackup.ConfigIsReplayed | VMAccess/vmaccess.py:386-499 | at every point of every run the configuration is that of the start, or what the last reset or restore put in place, rewritten by the updates since |
| SshdBackup.ResetAnywhere | VMAccess/vmaccess.py:441-494 | at any point of a run a reset puts its default in place and leaves the backup |
| SshdBackup.RestoreAnywhere | VMAccess/vmaccess.py:450-499 | at any point of a run a restore puts back the text before the first write since the last restore, or the default, and uses the backup up |
| SshdBackup.WrittenUpdateSets | VMAccess/vmaccess.py:398-402 | the rewritten text, split again, reads as the rewrite promises for every keyword |
| SshdBackup.UpdateTakesEffect | VMAccess/vmaccess.py:391-402 | an update leaves the keyword set exactly when its guard let it through or it was set before |
| SshdBackup.UpdateObeyedExactly | VMAccess/vmaccess.py:386-419 | after an update the daemon reads the value for all users exactly if it was written with no other value and no Match line, in the daemon's spelling, above the entry, or was skipped and read before |
| SshdBackup.MatchBlockHidesUpdate | VMAccess/vmaccess.py:393-396 | files on which the guard stops an update that is needed |
| SshdBackup.WritesOnce | VMAccess/vmaccess.py:393-402 | for a lower-case value a written update changes the text and is not written again |
| SshdBackup.BackupIsFirstWrite | VMAccess/vmaccess.py:386-402 | at every point of every run the backup is the text just before the first written update since the last restore, and is absent if there was none |
| SshdBackup.RestoreReturnsOriginal | VMAccess/vmaccess.py:450-499 | updates and then a restore return the exact original and no backup, exactly when an update was written or the default is the original |
| Sudoers.PatternExact | VMAccess/vmaccess.py:361-362 | the pattern finds just a user's own lines exactly for names without dot and dollar sign |
| Sudoers.DotTakesOthers | VMAccess/vmaccess.py:356-363 | a name with a dot takes the entries of all users along whose names differ only there |
| Sudoers.DollarTakesNone | VMAccess/vmaccess.py:356-363 | a name with a dollar sign spares every line, its own included |
| Sudoers.SudoersFile.SetUserAccount | VMAccess/vmaccess.py:237-241 | the file after a set-user operation that goes through, fails before the file is written, or fails after it |
| Sudoers.SudoersFile.CreateAccount | Utils/distroutils.py:200-248 | the file holds the new entry alone, also when an error follows the write, or is untouched on an early error |
| Sudoers.SudoersFile.RemoveUserAccount | VMAccess/vmaccess.py:185-191 | the file after a remove-user operation that goes through, and after one that gives up |
| Sudoers.StepLines | VMAccess/vmaccess.py:356-371 | the lines after an operation: the new entry, then the spared lines in order |
| Sudoers.StepRefinesMap | VMAccess/vmaccess.py:356-371 | an operation replaces or drops its user's lines and changes nobody else's |
| Sudoers.RunRefinesMap | VMAccess/vmaccess.py:356-371 | over every run a user's lines are what the last operation on that user made them, and at most one line a user stays at most one |
| Sudoers.RunKeepsOrder | VMAccess/vmaccess.py:360-371 | over every run the lines of all other users are kept in order |
| Sudoers.RunTerminated | VMAccess/vmaccess.py:360-371 | over every run a final newline is preserved |
| Sudoers.FailureHarmlessExactly | VMAccess/vmaccess.py:185-191 | when an operation that gives up leaves the file as it was |
| Sudoers.FailureDoublesOthers | VMAccess/vmaccess.py:237-241 | an operation that gives up doubles the lines of every other user |
| Sinks.SinkConfiguration.InsertFromConfig | Diagnostic/Utils/LadDiagnosticUtil.py:112-126 | every name means its last accepted definition, or what it meant before; exactly the definitions without a name or a type are reported as ignored |
| Sinks.LastDefinitionIs | Diagnostic/Utils/LadDiagnosticUtil.py:119-125 | the last accepted definition, said by position |
| Sinks.NoDefinition | Diagnostic/Utils/LadDiagnosticUtil.py:119-125 | a name has no definition exactly if no item has that name and a type |
| Sinks.RejectedExactly | Diagnostic/Utils/LadDiagnosticUtil.py:119-126 | an item is reported, at its place, exactly if its name or its type is missing |
| Sinks.SinkListReads | Diagnostic/Utils/LadDiagnosticUtil.py:85-94 | names with any blanks around them, written with commas, read back as the names |
| Sinks.SinkListRoundTrip | Diagnostic/Utils/LadDiagnosticUtil.py:85-94 | a list of trimmed, comma-free names written with commas reads back as it was |
| Sinks.GetAggregationPeriods | Diagnostic/Utils/LadDiagnosticUtil.py:68-82 | the given periods in order |
| Sinks.GivenExactly | Diagnostic/Utils/LadDiagnosticUtil.py:75-82 | a period comes in at its place, and an item without one makes no difference |
| LadRouting.EventNames.MakeUniqueEventName | Diagnostic/Utils/ProviderUtil.py:63-73 | the count of one prefix goes up by one and is in the name |
| LadRouting.UniqueNames | Diagnostic/Utils/ProviderUtil.py:66-73 | different counts make different names |
| LadRouting.UniqueNameReads | Diagnostic/Utils/ProviderUtil.py:66-73 | a name is the prefix and the count in at least six digits |
| LadRouting.LadConfigAll.UpdateMetricCollectionSettings | Diagnostic/lad_config_all.py:181-208 | the nested loops compile the plugins and intervals pair by pair |
| LadRouting.LadConfigAll.HandleAlternateSinks | Diagnostic/lad_config_all.py:210-232 | the event to the WAD table, then the parts of every sink in order |
| LadRouting.LadConfigAll.HandleSink | Diagnostic/lad_config_all.py:221-232 | what one sink adds, by its type |
| LadRouting.AddPairDelivers | Diagnostic/lad_config_all.py:195-208 | compiling one pair adds exactly what is wanted for it to the deliveries, with and without sinks |
| LadRouting.CompileDelivers | Diagnostic/lad_config_all.py:181-232 | end to end the compiled graph delivers what the graph before did and what the settings ask for, as a multiset |
| LadRouting.EachPairReaches | Diagnostic/lad_config_all.py:181-232 | for distinct plugins and intervals a pair reaches its WAD table once and a sink once per listing that resolves to it |
| LadRouting.RoutesExactly | Diagnostic/lad_config_all.py:181-232 | everything that is delivered, said of the settings alone: WAD tables by interval, hubs by the listings with their URL, blobs by their listings, and nothing else |
| LadRouting.LocalTablesInvisible | Diagnostic/lad_config_all.py:189-191 | going through local tables does not change what is delivered |
| LadRouting.DerivedEventCount | Diagnostic/lad_config_all.py:195-228 | the number of derived events, with and without sinks |
| LadRouting.LocalTablesUnmixed | Diagnostic/lad_config_all.py:199-202 | no two events fill the same local table |
| Durations.IntervalToSeconds | Diagnostic/Utils/ProviderUtil.py:35-61 | the seconds of an interval, and which exception a bad one raises |
| Durations.FindsLeftmost | Diagnostic/Utils/ProviderUtil.py:49 | the scanner returns the leftmost match of the regular expression and then those of the rest, and nothing exactly if there is no match |
| Durations.RenderedInterval | Diagnostic/Utils/ProviderUtil.py:42-61 | `PT` and any list of segments reads as the weighted sum, and fails exactly when that is zero |
| Durations.UnitsCount | Diagnostic/Utils/ProviderUtil.py:48-56 | an hour counts 3600, a minute 60 and a second 1, wherever it stands |
| Durations.TooShortExactly | Diagnostic/Utils/ProviderUtil.py:42-46 | the index error is that of the empty text and a lone P |
| Durations.SecondsAdd | Diagnostic/Utils/ProviderUtil.py:48-56 | seconds add up over a cut that is not behind a digit |
| Durations.AdditiveExactly | Diagnostic/Utils/ProviderUtil.py:49 | a cut loses no match, whatever follows, exactly when it is not behind a digit |
| Durations.AcceptedExactly | Diagnostic/Utils/ProviderUtil.py:35-61 | an interval is accepted exactly if it begins with `PT` and somewhere behind that the expression matches at a digit other than zero |
| Durations.MalformedAccepted | Diagnostic/Utils/ProviderUtil.py:39-49 | `PT1X5M` is no interval and reads as 300 seconds |
| Durations.JunkSkipped | Diagnostic/Utils/ProviderUtil.py:49 | text without a match between two parts is passed over, if no digits run on behind it |
| LogScanner.CheckForFatalOmsLogs | OmsAgent/watcherutil.py:424-498 | the marker and the answer after a call, fatal or not |
| LogScanner.FirstLineAndRest | OmsAgent/watcherutil.py:435-470 | a log is its first line and the lines of the rest, each ending at its only line feed, but for the last |
| LogScanner.CheckKeepsSync | OmsAgent/watcherutil.py:451-470 | a non-fatal call reads exactly the new part of a grown log, and everything behind the first line of a replaced one |
| LogScanner.ExaminesEveryLineOnce | OmsAgent/watcherutil.py:435-470 | over every run the calls on one log together examine every line but its first, once, in order |
| LogScanner.AgreesWithRescan | OmsAgent/watcherutil.py:424-498 | over every run, fatal calls included, an answer is that of rescanning from scratch as long as no earlier call has lost track |
| LogScanner.ReliableExactly | OmsAgent/watcherutil.py:451-486 | after every call of a run the next answer is right however the log grows, exactly if no call was fatal on a log with a new first line while a position was kept behind which nothing is fatal |
| LogScanner.FatalReportedAgain | OmsAgent/watcherutil.py:486 | a reported line is reported by every later call while its log is still there |
| LogScanner.NextAfterReplacement | OmsAgent/watcherutil.py:451-486 | after a fatal call on a replaced log the next one is fatal exactly if there was no position, or something fatal stands behind it in the new log |
| LogScanner.DeafAfterReplacement | OmsAgent/watcherutil.py:451-486 | so nothing is found until the new log outgrows the old position |
| Heartbeat.Watcher.MonitorHeartbeat | OmsAgent/watcherutil.py:253-294 | counters, restart and log marker after a tick, with the scan done only where the source does it |
| Heartbeat.StaysBounded | OmsAgent/watcherutil.py:262-294 | between ticks the error count is at most 3 and the restart count at most 5 |
| Heartbeat.TickExactly | OmsAgent/watcherutil.py:253-294 | from bounded counters a missed beat restarts exactly if it is the fourth or comes with a fatal log, and fewer than five restarts were in vain; both counters after any tick |
| Heartbeat.RestartRate | OmsAgent/watcherutil.py:278-287 | any n consecutive ticks of any run hold at most n - floor(n/6) restarts |
| Heartbeat.FatalRun | OmsAgent/watcherutil.py:272-287 | n ticks with a fatal log make exactly n - floor(n/6) restarts, so the rate is attained |
| Heartbeat.SilentRun | OmsAgent/watcherutil.py:262-287 | n silent ticks without fatal logs make floor(n/4) - floor(n/24) restarts, and what the counters then are |
| Heartbeat.EightMissesRestart | OmsAgent/watcherutil.py:262-287 | any eight consecutive missed beats of any run hold a restart |
| SequenceNumbers.GetCurrentSeqNo | Utils/HandlerUtil.py:135-153 | the number of the freshest numbered file, the first on ties, or -1 exactly if there is none |
| SequenceNumbers.SeqOfName | Utils/HandlerUtil.py:141-143 | the number of a file is what stands before the first dot of its name, if that is all digits |
| SequenceNumbers.FreshestUnique | Utils/HandlerUtil.py:141-151 | at most one file is that one |
| SequenceNumbers.HandlerUtility.ExitIfSeqSmaller | Utils/HandlerUtil.py:310-327 | stops exactly for a number not above the stored one, and otherwise stores it |
| SequenceNumbers.HandlerUtility.SaveSeq | Utils/HandlerUtil.py:313-315 | the number stored reads back |
| SequenceNumbers.EnableRuns | CustomScript/customscript.py:101-109 | undisturbed, enable launches a number above the stored one and nothing else |
| SequenceNumbers.UnreadableStops | Utils/HandlerUtil.py:310-327 | a stored text that is no number stops every command |
| SequenceNumbers.LaunchesIncrease | Utils/HandlerUtil.py:320-347 | with crashes between any two steps except inside the write, launches strictly increase and never pass the stored number |
| SequenceNumbers.SafeExactly | Utils/HandlerUtil.py:310-337 | every future launches at most once exactly when the stored number is at least every launched one |
| SequenceNumbers.TornWriteRelaunches | Common/WALinuxAgent-2.0.16/waagent:2533-2545 | a crash inside the write, after which a number is launched twice |
| SequenceNumbers.MonotoneExactly | Utils/HandlerUtil.py:310-347 | with writes torn anywhere, numbers that never go down launch at most once in every future, exactly if the stored number is at least every launched one or all launched ones are below those to come |

## Left out

- Daemon: the endless loop is cut after any finite number of cycles, clock readings are exact reals and `sleep` is taken to last as long as asked.
- GetCurrentSeqNo: the config folder is flat, and `int()` is modelled on plain ASCII digits (no sign, blanks or underscores).
- LaunchesIncrease: one enable process at a time; two at once are not modelled.
- PortsCanonical: `int()` is modelled with blanks and a sign, not with underscores between digits.
- SetSshdConfig: names prefix-related to `Match` are excluded; the two names the extension uses are not.
- UpdateSetsLookup: keywords and Match lines are told as the rewrite tells them; the daemon's reading is UpdateSetsDaemonLookup.
- UpdateSetsDaemonLookup: the `keyword=value` form, quotes and Include lines are not modelled, and every Match line counts as one for some users only.
- ReportsLatestChange: addresses are free of newlines; with one inside, the file does not read back (HwInfoRoundTrip).
- RunRefinesMap: user names consist of letters, digits, `_`, `-`, `.` and `$`, other characters of regular expressions are not modelled, and runs are of operations that go through.
- AgreesWithRescan: the log grows by whole lines or gets a new first line; a log cut short under the same first line is not covered.
- CheckForFatalOmsLogs: the digest of the first line is taken to be injective, and the test of one line, which needs regular expressions and the clock, is a parameter. The byte strings of Python 2 are assumed.
- StorageStat: averages are real numbers, so rounding and the integer division of Python 2 are not modelled.
- The templates of the syslog configs are not part of this model; a TCP config is known by the port it carries, and the template by its default port.
- Unicode: characters other than ASCII have no case, are no digits and no white space, and neither are the separators U+001C to U+001F.
- The XML of the metric configuration, escaping in it, and the encryption of SAS URLs: the graph is a list of events and annotations.
- `monitor_resource`, telemetry and the heartbeat file itself: the tick sees whether a heartbeat was received.
- Writes that fail: the utilities log the error and go on; here a write goes through.
- Shell commands, service managers, SELinux queries, account commands: inputs that say how they went.
- CoreOS and FreeBSD variants, the cloud-init side file, file modes and owners: further cases of the same operations.
- The other extensions (DSC, OSPatching, VMBackup, the Diagnostic supervisor): thin wrappers or code outside this repository.
