# sys-API core, modelled in Dafny

A model of the logic at the heart of sys-API, a server that reports host
telemetry. It covers six pieces:

- **MonitorMechanism** (`Monitoring.dfy`): the four-state machine that raises
  debounced threshold events. It keeps a state-change timestamp and an event
  id shared by a START and the STOP that ends the same episode.
- **CpuTemperatureMonitor** (`CpuTemperatureMonitor.dfy`): picks the value a
  monitor checks (the first CPU temperature, truncated) and applies the strict
  threshold test. Two verified scenarios feed its readings to the mechanism's `Check`.
- **History store and HistoryManager** (`History.dfy`): record-then-purge on
  every query event, and date-bounded queries with strict open bounds.
- **DefaultInfoProvider.cpuLoad** (`CpuLoad.dfy`): per-core load computed from
  tick deltas against a stored baseline. The baseline is resampled, with a
  sleep, when it is missing or older than 10 s.
- **DefaultProcessesMetrics** (`Processes.dfy`): the PID-keyed snapshot map
  replaced on each tick, the per-PID load map updated against the previous
  snapshot, and sorted, limited listings. The sort is an in-place insertion
  sort on an array.
- **MetricsProvider.create** (`MetricsProvider.dfy`): picks the platform
  factory and applies the optional cache wrapper.

`Wrappers.dfy` holds `Option` and `Result`. `Option` stands for Java's
nullable values; `Result` stands for the exceptions the code throws.

Inputs taken as parameters:

- clock readings;
- the UUID a START event would get;
- the oshi tick and process reads;
- the per-process CPU load between snapshots;
- each factory's `prerequisitesFilled()` answer;
- the Raspbian qualifier string;
- the seven process comparators;
- `LocalDateTime.MIN`/`MAX` in the system zone.

Time is an integer count of milliseconds. Load percentages are exact reals.

Points of the code the model keeps as written:

- The monitor has four states: INSIDE, OUTSIDE_BEFORE_INERTIA, OUTSIDE and
  INSIDE_BEFORE_INERTIA (MonitorMechanism.kt:19-21).
- Past inertia means strictly more time than the inertia has passed (MonitorMechanism.kt:81).
- A STOP also waits out the inertia after the value comes back inside (MonitorMechanism.kt:124-135).
- A CPU tick delta that goes negative is used as it is (DefaultInfoProvider.java:169-178).

## Model

| member | source | states |
|---|---|---|
| Monitoring.InitialState | server/src/main/java/com/krillsson/sysapi/core/monitoring/MonitorMechanism.kt:14-17 | a fresh mechanism is INSIDE with no timestamp and satisfies the state invariant |
| Monitoring.MonitorMechanism.constructor | server/src/main/java/com/krillsson/sysapi/core/monitoring/MonitorMechanism.kt:13-17 | the fields start as INSIDE, no timestamp, no event id |
| Monitoring.PastInertiaIsStrict | server/src/main/java/com/krillsson/sysapi/core/monitoring/MonitorMechanism.kt:81 | past inertia holds exactly when now exceeds the timestamp plus the inertia; equality is not enough |
| Monitoring.StepInv | server/src/main/java/com/krillsson/sysapi/core/monitoring/MonitorMechanism.kt:83-145 | a check keeps "timestamp set iff in a before-inertia state" and "event id set while OUTSIDE or INSIDE_BEFORE_INERTIA", so the `eventId!!` cannot fail |
| Monitoring.StepEvent | server/src/main/java/com/krillsson/sysapi/core/monitoring/MonitorMechanism.kt:82-146 | at most one event per check; START iff an episode opens, STOP iff it closes; the event carries monitor id, now, type, threshold and value |
| Monitoring.InsideStep | server/src/main/java/com/krillsson/sysapi/core/monitoring/MonitorMechanism.kt:84-92 | INSIDE: an outside value moves to OUTSIDE_BEFORE_INERTIA stamped now; an inside value changes nothing; no event |
| Monitoring.OutsideBeforeInertiaStep | server/src/main/java/com/krillsson/sysapi/core/monitoring/MonitorMechanism.kt:93-114 | outside and past inertia: OUTSIDE, timestamp cleared, fresh event id, one START; outside within inertia: no change; inside: back to INSIDE silently, timestamp cleared |
| Monitoring.OutsideStep | server/src/main/java/com/krillsson/sysapi/core/monitoring/MonitorMechanism.kt:115-123 | OUTSIDE: an inside value moves to INSIDE_BEFORE_INERTIA stamped now, keeping the event id; an outside value changes nothing; no event |
| Monitoring.InsideBeforeInertiaStep | server/src/main/java/com/krillsson/sysapi/core/monitoring/MonitorMechanism.kt:124-144 | inside and past inertia: INSIDE and one STOP with the stored event id; within inertia: no change; outside: back to OUTSIDE silently, timestamp cleared |
| Monitoring.MonitorMechanism.Check | server/src/main/java/com/krillsson/sysapi/core/monitoring/MonitorMechanism.kt:76-147 | the imperative check keeps the invariant and updates the three fields and returns the event exactly as one step of the state machine |
| Monitoring.Run | server/src/main/java/com/krillsson/sysapi/core/monitoring/MonitorMechanism.kt:82-146 | any sequence of checks keeps the state invariant and emits at most one event per check |
| Monitoring.WellPairedExtend | server/src/main/java/com/krillsson/sysapi/core/monitoring/MonitorMechanism.kt:99-101 | appending an event of the expected type (and, for a STOP, the open START's id) keeps the event list well paired |
| Monitoring.PairingStep | server/src/main/java/com/krillsson/sysapi/core/monitoring/MonitorMechanism.kt:95-135 | one check keeps the events well paired, keeps "episode open iff odd event count" and keeps the open START's id stored in the mechanism |
| Monitoring.RunPairsEvents | server/src/main/java/com/krillsson/sysapi/core/monitoring/MonitorMechanism.kt:95-135 | from a fresh mechanism, events alternate START, STOP, ... starting with START; each STOP has its START's id; an odd count means an open episode whose id is stored |
| Monitoring.GracePeriodWitness | server/src/main/java/com/krillsson/sysapi/core/monitoring/MonitorMechanism.kt:84-123 | in a before-inertia state the timestamp is the time of an earlier reading from which every reading was on the new side of the threshold |
| Monitoring.EventsNeedSustainedCondition | server/src/main/java/com/krillsson/sysapi/core/monitoring/MonitorMechanism.kt:93-135 | a START needs the value outside on every reading of a window longer than the inertia, a STOP needs it inside on every reading of such a window |
| CpuTemperatureMonitor.MonitorTypeOf | server/src/main/java/com/krillsson/sysapi/core/monitoring/monitors/CpuTemperatureMonitor.kt:11 | the monitor's type is CPU_TEMP |
| CpuTemperatureMonitor.TruncateTowardZero | server/src/main/java/com/krillsson/sysapi/core/monitoring/monitors/CpuTemperatureMonitor.kt:14 | the double-to-long conversion truncates toward zero: the result is within one of the value, on the zero side |
| CpuTemperatureMonitor.SelectValue | server/src/main/java/com/krillsson/sysapi/core/monitoring/monitors/CpuTemperatureMonitor.kt:13-14 | 0 for an empty temperature list, otherwise the first temperature truncated |
| CpuTemperatureMonitor.SelectValueIgnoresLaterEntries | server/src/main/java/com/krillsson/sysapi/core/monitoring/monitors/CpuTemperatureMonitor.kt:14 | only the first temperature matters; later entries are ignored |
| CpuTemperatureMonitor.IsPastThresholdIsStrict | server/src/main/java/com/krillsson/sysapi/core/monitoring/monitors/CpuTemperatureMonitor.kt:16-17 | a value equal to the threshold is not past it; one above is |
| CpuTemperatureMonitor.IsPastThresholdIsMonotone | server/src/main/java/com/krillsson/sysapi/core/monitoring/monitors/CpuTemperatureMonitor.kt:16-17 | a value above one that is past the threshold is past it too |
| CpuTemperatureMonitor.PastThresholdOnTemperature | server/src/main/java/com/krillsson/sysapi/core/monitoring/monitors/CpuTemperatureMonitor.kt:13-17 | for a non-negative threshold the monitor fires iff the first temperature is at least threshold + 1 (truncation) |
| CpuTemperatureMonitor.ReadingOf | server/src/main/java/com/krillsson/sysapi/core/monitoring/MonitorMechanism.kt:77-80 | the check's input: clock reading, selected value, and outside-threshold exactly when that value exceeds the threshold |
| CpuTemperatureMonitor.ShortSpikeScenario | server/src/main/java/com/krillsson/sysapi/core/monitoring/MonitorMechanism.kt:93-113 | 90 degrees for 3 s against threshold 80 and inertia 5 s, then 50: no event |
| CpuTemperatureMonitor.SustainedBreachScenario | server/src/main/java/com/krillsson/sysapi/core/monitoring/MonitorMechanism.kt:93-135 | held above the threshold, START fires at the first reading more than 5 s later (not at exactly 5 s); recovery held 6 s gives one STOP with the same id |
| History.Keep | server/src/main/java/com/krillsson/sysapi/core/history/HistoryManager.java:58-61 | a stream filter: every element kept passes the test and the result is no longer than the input |
| History.KeepAppend | server/src/main/java/com/krillsson/sysapi/core/history/HistoryManager.java:58-61 | filtering distributes over concatenation |
| History.KeepMembers | server/src/main/java/com/krillsson/sysapi/core/history/HistoryManager.java:58-61 | an entry is in the filtered list iff it is in the input and passes the test |
| History.KeepIsSubsequence | server/src/main/java/com/krillsson/sysapi/core/history/HistoryManager.java:58-61 | the filtered list is an order-preserving subsequence of the input |
| History.KeepAgree | server/src/main/java/com/krillsson/sysapi/core/history/HistoryManager.java:58-61 | two tests agreeing on every entry filter identically |
| History.Purged | server/src/test/java/com/krillsson/sysapi/core/history/HistoryTest.java:49-51 | after a purge every entry is not older than the cutoff |
| History.PurgedMembers | server/src/test/java/com/krillsson/sysapi/core/history/HistoryTest.java:40-51 | an entry survives a purge iff it was stored and is not older than the cutoff |
| History.PurgeDropsPrefix | server/src/test/java/com/krillsson/sysapi/core/history/HistoryTest.java:40-51 | on a date-ordered history purge removes exactly a prefix of entries older than the cutoff |
| History.History.constructor | server/src/test/java/com/krillsson/sysapi/core/history/HistoryTest.java:20-24 | a new store is empty |
| History.History.Record | server/src/test/java/com/krillsson/sysapi/core/history/HistoryTest.java:29-36 | record appends one entry stamped with the current clock reading |
| History.History.Purge | server/src/test/java/com/krillsson/sysapi/core/history/HistoryTest.java:49-51 | purge keeps exactly the entries not older than clock minus amount times unit, in order |
| History.HistoryManager.constructor | server/src/main/java/com/krillsson/sysapi/core/history/HistoryManager.java:21-25 | the manager holds the given store and retention settings |
| History.HistoryManager.OnEvent | server/src/main/java/com/krillsson/sysapi/core/history/HistoryManager.java:32-35 | the event's load is appended stamped with the first clock reading, then the configured purge runs against the second clock reading |
| History.PurgeAfterRecord | server/src/main/java/com/krillsson/sysapi/core/history/HistoryManager.java:33-34 | a purge right after a record keeps the new entry, at the end, iff it is not older than the cutoff, and purges the older entries as before |
| History.HistoryManager.GetHistoryLimitedToDates | server/src/main/java/com/krillsson/sysapi/core/history/HistoryManager.java:51-62 | no bounds: the whole history; otherwise the entries strictly between the bounds, a missing bound replaced by MIN or MAX |
| History.LimitedToDatesMembers | server/src/main/java/com/krillsson/sysapi/core/history/HistoryManager.java:55-61 | with a bound given, an entry is returned iff stored and strictly inside the bounds (entries at a bound excluded), as an order-preserving subsequence |
| History.MissingBoundFiltersNothing | server/src/main/java/com/krillsson/sysapi/core/history/HistoryManager.java:55-56 | when all dates lie strictly inside MIN..MAX, only the given bound filters |
| History.RecordTwiceScenario | server/src/test/java/com/krillsson/sysapi/core/history/HistoryTest.java:27-37 | two records at increasing clock times give two entries, the first earlier |
| History.PurgeScenario | server/src/test/java/com/krillsson/sysapi/core/history/HistoryTest.java:40-52 | purge one minute back removes the entry 4 minutes old and keeps the one stamped now |
| CpuLoad.Deltas | server/src/main/java/com/krillsson/sysapi/core/DefaultInfoProvider.java:169-176 | each of the 8 tick-type deltas is current minus baseline at that tick index |
| CpuLoad.CoreLoadOf | server/src/main/java/com/krillsson/sysapi/core/DefaultInfoProvider.java:181-191 | each state's load is 100 * delta / total |
| CpuLoad.CoreLoads | server/src/main/java/com/krillsson/sysapi/core/DefaultInfoProvider.java:164-196 | the cores succeed iff every core does; then exactly one load per logical processor in core order; otherwise the error of the first failing core |
| CpuLoad.FirstFailureDecides | server/src/main/java/com/krillsson/sysapi/core/DefaultInfoProvider.java:192-195 | the first core with a zero total (or a missing tick row) decides the error |
| CpuLoad.AllCoresDecide | server/src/main/java/com/krillsson/sysapi/core/DefaultInfoProvider.java:167-196 | when every core succeeds the result is exactly their loads |
| CpuLoad.SharesSumToHundred | server/src/main/java/com/krillsson/sysapi/core/DefaultInfoProvider.java:178-191 | the eight unrounded shares of a core sum to 100 |
| CpuLoad.SharesArePercentages | server/src/main/java/com/krillsson/sysapi/core/DefaultInfoProvider.java:178-191 | with non-negative deltas each share lies in 0..100 |
| CpuLoad.DefaultInfoProvider.constructor | server/src/main/java/com/krillsson/sysapi/core/DefaultInfoProvider.java:71-72 | no baseline, sampled-at -1 |
| CpuLoad.DefaultInfoProvider.CpuLoad | server/src/main/java/com/krillsson/sysapi/core/DefaultInfoProvider.java:156-200 | a missing or stale baseline is replaced by fresh ticks stamped now and the clock advances by the 1000 ms sleep; the result is the per-core loads against the baseline; on success the baseline becomes this sample and its time, on failure it is left as it was after any resample |
| Processes.SortInPlace | server/src/main/java/com/krillsson/sysapi/core/metrics/defaultimpl/DefaultProcessesMetrics.kt:53-61 | the process array is sorted by the comparator and is a permutation of what it was |
| Processes.InsertAt | server/src/main/java/com/krillsson/sysapi/core/metrics/defaultimpl/DefaultProcessesMetrics.kt:53-61 | one insertion step extends the sorted prefix by one, touching nothing past it and keeping the elements |
| Processes.Limit | server/src/main/java/com/krillsson/sysapi/core/metrics/defaultimpl/DefaultProcessesMetrics.kt:62-63 | a limit of at most 0 keeps everything; otherwise the first min(limit, n) elements |
| Processes.LimitOfSorted | server/src/main/java/com/krillsson/sysapi/core/metrics/defaultimpl/DefaultProcessesMetrics.kt:53-63 | the limited list of a sorted list is sorted and a sub-multiset of it |
| Processes.SortAndLimit | server/src/main/java/com/krillsson/sysapi/core/metrics/defaultimpl/DefaultProcessesMetrics.kt:48-64 | sorts in place by the chosen comparator (a permutation) and returns the limited prefix |
| Processes.SnapshotKeys | server/src/main/java/com/krillsson/sysapi/core/metrics/defaultimpl/DefaultProcessesMetrics.kt:100-105 | the snapshot's keys are exactly the listed PIDs, each mapped to a process with that PID |
| Processes.SnapshotLastWins | server/src/main/java/com/krillsson/sysapi/core/metrics/defaultimpl/DefaultProcessesMetrics.kt:102-104 | a PID maps to the last listed process with that PID |
| Processes.OrderOfSpec | server/src/main/java/com/krillsson/sysapi/core/metrics/defaultimpl/DefaultProcessesMetrics.kt:100-105 | the map's iteration order lists every key exactly once |
| Processes.LoadsAfterFrame | server/src/main/java/com/krillsson/sysapi/core/metrics/defaultimpl/DefaultProcessesMetrics.kt:91-98 | updateCurrentLoad adds exactly the listed PIDs to the load map and leaves other PIDs' loads untouched |
| Processes.LoadsAfterValue | server/src/main/java/com/krillsson/sysapi/core/metrics/defaultimpl/DefaultProcessesMetrics.kt:94-97 | a listed PID's load is 100 * (load between ticks against its prior snapshot entry) / cpu count |
| Processes.DefaultProcessesMetrics.constructor | server/src/main/java/com/krillsson/sysapi/core/metrics/defaultimpl/DefaultProcessesMetrics.kt:31-36 | construction seeds the snapshot from the initial list; the load map is empty |
| Processes.DefaultProcessesMetrics.UpdateMap | server/src/main/java/com/krillsson/sysapi/core/metrics/defaultimpl/DefaultProcessesMetrics.kt:100-105 | the snapshot is cleared and refilled from the new list, discarding all previous entries |
| Processes.DefaultProcessesMetrics.UpdateCurrentLoad | server/src/main/java/com/krillsson/sysapi/core/metrics/defaultimpl/DefaultProcessesMetrics.kt:91-98 | the load map is updated against the current snapshot; the snapshot is unchanged |
| Processes.DefaultProcessesMetrics.OnTick | server/src/main/java/com/krillsson/sysapi/core/metrics/defaultimpl/DefaultProcessesMetrics.kt:85-89 | loads are computed against the prior snapshot, then the snapshot is replaced |
| Processes.DefaultProcessesMetrics.GetProcessByPid | server/src/main/java/com/krillsson/sysapi/core/metrics/defaultimpl/DefaultProcessesMetrics.kt:38-46 | empty iff the PID is not in the snapshot; otherwise its process with the recorded load, 0.0 when none |
| Processes.DefaultProcessesMetrics.ProcessesInfo | server/src/main/java/com/krillsson/sysapi/core/metrics/defaultimpl/DefaultProcessesMetrics.kt:48-79 | the result is `take(limit)` (everything when `limit <= 0`) of a permutation of the snapshot's values sorted by the chosen comparator; each entry is a stored process with its load, and no PID is listed twice |
| MetricsProvider.ToLower | server/src/main/java/com/krillsson/sysapi/core/metrics/MetricsProvider.java:84 | lower-casing keeps the length and maps each upper-case letter to its lower-case one |
| MetricsProvider.ToLowerIdempotent | server/src/main/java/com/krillsson/sysapi/core/metrics/MetricsProvider.java:84 | lower-casing twice is lower-casing once |
| MetricsProvider.RaspbianIgnoresCase | server/src/main/java/com/krillsson/sysapi/core/metrics/MetricsProvider.java:84 | the family's letter case does not matter to the Raspbian check |
| MetricsProvider.UpperCaseQualifierNeverMatches | server/src/main/java/com/krillsson/sysapi/core/metrics/MetricsProvider.java:84 | only the family is lower-cased, so a qualifier holding an upper-case letter matches no family |
| MetricsProvider.Wrap | server/src/main/java/com/krillsson/sysapi/core/metrics/MetricsProvider.java:78 | the factory is wrapped in the cache iff the cache flag is set |
| MetricsProvider.WindowsChosenIff | server/src/main/java/com/krillsson/sysapi/core/metrics/MetricsProvider.java:65-82 | the Windows factory is chosen iff on Windows, the windows config is absent or enables the OHM wrapper, and its prerequisites are filled |
| MetricsProvider.RaspbianChosenIff | server/src/main/java/com/krillsson/sysapi/core/metrics/MetricsProvider.java:83-98 | the Raspbian factory is chosen iff on Linux, the lower-cased family contains the qualifier, and its prerequisites are filled |
| MetricsProvider.MacOsChosenIff | server/src/main/java/com/krillsson/sysapi/core/metrics/MetricsProvider.java:99-112 | the macOS factory is chosen iff on macOS and its prerequisites are filled |
| MetricsProvider.OtherPlatformsFallBack | server/src/main/java/com/krillsson/sysapi/core/metrics/MetricsProvider.java:113-119 | FreeBSD, Solaris and unknown platforms go to the default fallback |
| MetricsProvider.ThrowsIff | server/src/main/java/com/krillsson/sysapi/core/metrics/MetricsProvider.java:119-131 | create fails iff no platform factory applies and the default lacks prerequisites |
| MetricsProvider.MetricsProvider.constructor | server/src/main/java/com/krillsson/sysapi/core/metrics/MetricsProvider.java:51 | the cache flag starts true |
| MetricsProvider.MetricsProvider.SetCache | server/src/main/java/com/krillsson/sysapi/core/metrics/MetricsProvider.java:135-137 | setCache sets the flag and nothing else |
| MetricsProvider.MetricsProvider.Create | server/src/main/java/com/krillsson/sysapi/core/metrics/MetricsProvider.java:63-132 | fails exactly when nothing is selectable; otherwise returns the selected factory, cached iff the flag is set, and initializes that factory and no other |

## Left out

- Logging, Guava `EventBus` registration (`start`/`stop`) and `Ticker.register`: plumbing with no effect on the modelled state.
- Concurrency: every operation is modelled as running alone.
- oshi hardware reads (`cpuInfo`, `systemInfo`, sensors, motherboard, process lists) and `getSystemCpuLoadBetweenTicks`/`getSystemCpuLoad`: foreign calls. Their results are inputs, and the two system-wide loads in `CpuLoad` are not modelled.
- `Utils.round` to two decimals: not shown. Loads are the exact, unrounded reals.
- The source of `Utils.isOutsideMaximumDuration` and `Utils.currentSystemTime` is not available. `CpuLoad.IsOutsideMaximumDuration` assumes staleness means `now - sampledAt > 10000`, and the clock readings are inputs.
- CpuLoad.DefaultInfoProvider.CpuLoad: the clock advances only by the 1000 ms sleep. The time the tick reads themselves take is not modelled.
- CpuLoad.DefaultInfoProvider.CpuLoad: ticks are unbounded integers. 64-bit overflow of the deltas and their sum is not modelled, since it cannot happen with real counters.
- The source of the `History` store class is not available. `History.History` is modelled on its uses in HistoryManager.java and HistoryTest.java. Its purge is assumed to keep entries dated exactly at the cutoff.
- History.History.Purge: only the fixed-length `ChronoUnit` values from MILLIS to WEEKS are modelled. Sub-millisecond units and the calendar units (MONTHS and longer) need a calendar and a finer clock.
- History.HistoryManager.OnEvent: the clock readings for the record and for the purge are separate inputs, with no order assumed between them.
- The `Monitor` base class is not part of this model. The selected value and the outside-threshold flag are inputs of `Check`; `ReadingOf` assumes the base class's check is `isPastThreshold(selectValue(...))`.
- Only numerical monitored values are used in the scenarios. The mechanism is generic in the value type.
- CpuTemperatureMonitor.TruncateTowardZero: NaN, infinities and saturation at the `long` range of Java's conversion are not modelled.
- `OSProcessComparators` are not part of this model. The seven comparators are parameters, each required to be a total preorder.
- Processes.SortInPlace: stability is not stated, although the insertion sort is stable like Java's list sort.
- Processes.DefaultProcessesMetrics.UpdateCurrentLoad: the CPU count is required to be positive. A zero count would give a non-finite double (plus or minus infinity, or NaN for an idle process) in the source.
- The memory percent at DefaultProcessesMetrics.kt:123 and the other `Process` DTO fields: floating point and data copying. A `Process` keeps the OS process and its CPU percent.
- `processesInfo`'s own process id, thread count and process count: foreign calls.
- MetricsProvider.ToLower: Java's locale-sensitive Unicode lower-casing is reduced to ASCII.
- MetricsProvider.MetricsProvider.Create: the factories' construction and the cache configuration passed to `Cache.wrap` are not modelled. The result records which factory kind was chosen and whether it was wrapped.
- UUID generation: each reading carries the id a fresh UUID would get.
- HTTP resources, DTOs, mDNS, the jar location helper and the network provider: outside the core.
