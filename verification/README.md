# go-motd in Dafny

go-motd prints a "message of the day": one block per module (system
information, updates, systemd units, Docker or Podman containers, disk and
CPU temperatures, ZFS pools, btrfs filesystems), each block a header with a
coloured status token (`OK`, `warning`, `critical`, `unavailable`, ...) over
one line per item. This project models what each collector does once its
data has arrived, how the entry points decide which collectors run and in
which order their results are printed, the shared utilities, and the tool
that migrates a first-generation configuration file to the second format.

The repository holds two or three generations of the same code, and the
model keeps each file's rule as written:

- `main.go` with `types/`, `temps/`, `docker/`, `systemd/` and `zfs/` is
  the first generation (`MainProgram`, `Types`, `SystemdOld`, and the older
  readers inside `DiskTemps`, `CpuTemps`, `Docker`, `Zfs`);
- `motd.go` with `datasources/` and `utils/` is the second (`Motd`,
  `AppConf`, `Containers`, `Docker`, `Systemd`, `DiskTemps`, `CpuTemps`,
  `Zfs`, `Btrfs`, `Utils`, `CommonVars`);
- `tools/` converts configurations (`OldConfigs`, `NewConfigs`, `Migrate`).

Every probe (the Docker API, `docker ps` / `podman ps`, DBus, the hddtemp
socket, `zpool list`, btrfs sysfs or `btrfs filesystem usage`, lm-sensors,
gopsutil) is a parameter: a sequence of records, a string of command output,
or a function from a command line to its output, with `None` or a failure
constructor for the error path.

Shared modules:

- `Severity`: the three-level status, the threshold band every collector
  writes inline, and the sticky "critical dominates warning dominates OK"
  fold (`Settle`), proved to be the maximum over the readings.
- `Report`: a header or content line (`Item`, `Plain`, `Raw`), its
  rendering with the `$`/`%` pad markers and colours, and a collector's
  `Output`.
- `Tally`: the good and failed maps and the sorted name list that the
  container, Docker and systemd collectors share, with duplicate names
  kept once per occurrence.
- `Text`, `Sorting`, `Wrappers`: the Go library behaviour the collectors
  rely on (`strings.Split`, `Trim`, `TrimPrefix`, `TrimSpace`, `ToLower`,
  `Replace` once, `strconv.Atoi`/`Itoa`, `sort.Strings`, `sort.Ints`,
  `sort.Slice`).

## Model

| member | source | states |
|---|---|---|
| Severity.Classify | datasources/zfs.go:56-66 | with warn ≤ crit, a value is OK exactly below warn, Critical exactly at or above crit, Warning exactly in between |
| Severity.Band | datasources/zfs.go:56-66 | the inline branch chain only hides a reading under warn-only when it is below warn, and never shows an OK line under warn-only |
| Severity.BandIsClassify | datasources/zfs.go:56-66 | with warn ≤ crit the branch chain contributes exactly the classification of the value, hides a reading exactly when warn-only and below warn, and warn-only never changes a shown reading |
| Severity.CrossedThresholdsWarnOnly | datasources/zfs.go:56-66 | with warn above crit the chain's order matters: 80 against warn 90 / crit 70 is shown OK normally but Critical under warn-only |
| Severity.Raise | datasources/zfs.go:53-65 | one step of the status update never lowers the status |
| Severity.RaiseIsMax | datasources/zfs.go:53-65 | the update ('e' stays 'e', 'w' only over OK) is the worse-of of the status and the reading |
| Severity.SettleIsWorst | datasources/zfs.go:42-74 | the final status over a run of readings is the worst reading, OK for none |
| Severity.SettleSticky | datasources/zfs.go:53-65 | further readings never lower the status already reached |
| Severity.MaxOfAppend | datasources/zfs.go:53-65 | folding one more reading is the worse-of of the fold so far and that reading |
| Report.SeverityHeaderInjective | datasources/zfs.go:68-74 | a severity header determines the severity it reports |
| Report.SeverityHeaderIsNotNotice | datasources/zfs.go:38-41 | a severity header is never the "unavailable" notice and never empty |
| Report.RenderItemShape | datasources/container_common.go:56-62 | a content line is the name between `$` and `%`, a colon, the token and a newline; without colours the token is verbatim |
| Report.RenderLinesEmpty | datasources/zfs.go:18-31 | rendered content is empty exactly when there are no lines |
| Utils.Wrap | utils/utils.go:6-8 | the result has the three lengths summed, starts with start and ends with end |
| Utils.UnwrapWrap | utils/utils.go:6-8 | removing start and end again gives back the wrapped text |
| Utils.WrapInjective | utils/utils.go:6-8 | equal wrappings with the same start and end come from equal texts |
| Utils.WrapEmptyIsIdentity | utils/utils.go:6-8 | wrapping with empty start and end changes nothing |
| Utils.FromList | utils/types.go:43-50 | a string is a member exactly when it occurs in the list, and the set is no larger than the list |
| Utils.ContainsFromList | utils/types.go:37-50 | Contains on the built set holds exactly when some list entry equals the string |
| Utils.FromListDuplicate | utils/types.go:43-50 | repeating an entry of the list does not change the set |
| Utils.PadNoDelims | utils/types.go:17-31 | without delimiters the content comes back with one trailing newline removed, or unchanged when it has none |
| Utils.Color | utils/colors.go:23-32 | with colours off the text is returned as is; otherwise it is the colour's prefix, the text, then the reset suffix |
| Utils.PaintRoundTrip | utils/colors.go:5-32 | removing the colour prefix and the reset code recovers the text; with colours off painting is the identity |
| Utils.PaintDistinguishesTones | utils/colors.go:5-16 | the good, warning and error colours never produce the same coloured text |
| CommonVars.Init | datasources/common_vars.go:18-22 | both pad pairs become [0, 0] (one shared value) and the failed-only override is untouched |
| Types.Init | types/types.go:20-24 | both pad pairs become [0, 0] (one shared value) and the failed-only override is untouched |
| Text.TrimPrefix | datasources/docker.go:67 | a present prefix is removed exactly once, an absent one changes nothing |
| Text.JoinSplit | datasources/container_exec.go:29 | joining the pieces of a split with its separator gives back the string |
| Text.SplitJoin | datasources/container_exec.go:29 | splitting a join of separator-free pieces gives back the pieces |
| Text.TrimWrapped | datasources/container_exec.go:30 | trimming quotes from a quote-free text wrapped in quotes gives the text |
| Text.TrimSpaceLine | datasources/btrfs.go:188-194 | trimming a line read from a file removes exactly its newline, white space being that of unicode.IsSpace |
| Text.ToLower | datasources/container_common.go:34 | lower-casing keeps the length and maps each character on its own |
| Text.IndexFrom | systemd/systemd.go:91-95 | the result is the leftmost occurrence at or after the start, or none when there is none |
| Text.RemoveFirstLength | systemd/systemd.go:91-95 | replacing the first occurrence with nothing removes exactly the pattern's length, or nothing without an occurrence |
| Text.RemoveFirstBetween | systemd/systemd.go:91-95 | cutting a name between markers that cannot start or end a match is cutting the bare name |
| Text.Atoi | datasources/temp_disks.go:55 | a parse succeeds only on a string with a digit and yields a 64-bit value; the empty string fails |
| Text.AtoiIntToString | datasources/temp_disks.go:55 | every 64-bit integer printed in decimal, as strconv.Itoa prints it, parses back to itself |
| Sorting.LessEqTotal | datasources/systemd.go:138-140 | byte-wise string order compares every two strings |
| Sorting.LessEqTrans | datasources/systemd.go:138-140 | the string order is transitive |
| Sorting.LessEqAntisym | datasources/systemd.go:138-140 | the string order is antisymmetric |
| Sorting.SortBy | datasources/systemd.go:138-140 | sorting by a key gives a key-ordered permutation of the input |
| Sorting.SortStrings | datasources/container_common.go:40-42 | sort.Strings gives an ordered permutation of the input |
| Sorting.SortInts | datasources/temp_cpu_exec.go:57 | sort.Ints gives an ascending permutation of the input |
| Sorting.KeepOnlySorted | datasources/container_common.go:56-62 | skipping names of an ordered list keeps it ordered |
| Tally.GoodMap | datasources/container_common.go:35-36 | a name is in the good map exactly when some item of that name was good |
| Tally.FailedMap | datasources/container_common.go:37-38 | a name is in the failed map exactly when some item of that name failed |
| Tally.GoodMapAppend | datasources/container_common.go:35-36 | a later good item of the same name overwrites the stored line; a failed item leaves the good map as it was |
| Tally.FailedMapAppend | datasources/container_common.go:37-38 | a later failed item of the same name overwrites the stored line; a good item leaves the failed map as it was |
| Tally.GoodMapFrom | datasources/container_common.go:35-36 | every stored good line is the line of some good item of that name |
| Tally.FailedMapFrom | datasources/container_common.go:37-38 | every stored failed line is the line of some failed item of that name |
| Tally.MapSizes | datasources/container_common.go:29-41 | the two maps together have no more entries than there were items |
| Tally.FailedSmallerWhenSomeGood | datasources/container_common.go:45-54 | with something good, fewer names failed than items were seen, so the last header branch is only reached when nothing is good |
| Tally.ListingNothingFailed | datasources/container_common.go:56-62 | with good lines hidden and nothing failed, nothing is printed |
| Tally.ListingFromMaps | datasources/container_common.go:56-62 | every printed line is a stored failed line, or a stored good line when good lines are shown |
| Tally.ListingLabels | datasources/container_common.go:56-62 | the printed names are the listed names that have a shown entry, in list order, under their display names |
| Tally.ListingOfMarks | datasources/container_common.go:29-62 | a listed name is printed exactly when some item of that name was seen (a failed one under failed-only) |
| Tally.ShownIsListed | datasources/container_common.go:56-62 | a name has a shown entry exactly when some item of that name qualifies |
| Tally.LinesSorted | datasources/container_common.go:40-62 | the printed names are in ascending order |
| Tally.LinesNames | datasources/container_common.go:40-62 | a name is printed exactly when some qualifying item has it, and then as many times as items of that name were seen |
| Tally.LinesFrom | datasources/container_common.go:56-62 | every printed line is the line of some item (a failed one under failed-only) |
| Tally.MapsEmpty | datasources/container_common.go:34-47 | the good map is empty exactly when nothing seen was good, the failed map exactly when nothing failed |
| Tally.MarkMapsEmpty | datasources/container_common.go:34-47 | for any classified items, the good map is empty exactly when none is good and the failed map exactly when none failed |
| Tally.SeenNames | datasources/container_common.go:40-62 | the printed names are ordered and are exactly the seen names that qualify |
| Tally.SeenLine | datasources/container_common.go:56-62 | every printed line is the coloured line of something seen |
| Tally.NothingFailedNoLines | datasources/container_common.go:47-51 | with nothing failed, failed-only prints nothing |
| Tally.StatusHeaderSpec | datasources/docker.go:80-90 | with a total at least the number of items classified, the header is critical exactly when nothing is good, OK exactly when something is good and nothing failed, warning exactly when both occur; it is always some header, and the same as with the total equal to the item count |
| Containers.Counted | datasources/container_common.go:24-33 | the containers counted are exactly those whose name is not on the ignore list |
| Containers.SeenOf | datasources/container_common.go:34-39 | each container is seen with its lower-cased status, good exactly for "up", "created" or "running" in any case |
| Containers.SeenOfAny | datasources/container_common.go:34-39 | something seen is good exactly when some container is up, and failed exactly when some is not |
| Containers.HeaderOfSeen | datasources/container_common.go:44-54 | critical exactly when nothing is good and something failed; OK exactly when nothing failed (including no containers); warning exactly when both |
| Containers.ContainerHeader | datasources/container_common.go:22-54 | the header rule in terms of the counted containers, always some header, and no content for an OK header under failed-only |
| Containers.ContentNames | datasources/container_common.go:22-62 | printed names are sorted, are exactly the counted names that qualify (failed ones under failed-only), and never an ignored name |
| Containers.ContentLines | datasources/container_common.go:56-62 | each printed line is some counted container's name, colour and lower-cased status; under failed-only only failed lines appear |
| Containers.DuplicateNameListedPerOccurrence | datasources/container_common.go:35-62 | a name listed "Up" and then "Exited" gives a warning header and the "up" line twice: the name list keeps both occurrences, the good map wins the lookup |
| Containers.Command | datasources/container_exec.go:19-23 | the command is the lower-cased runtime with the fixed `ps` format arguments, preceded by "sudo" exactly when sudo is set |
| Containers.ParseLines | datasources/container_exec.go:29-40 | no more containers than lines, each from some line that parses |
| Containers.GetContainersExec | datasources/container_exec.go:10-42 | Root is the sudo flag, Runtime is Podman or Docker by the flag, the listing fails exactly when the command does, and then holds no containers |
| Containers.ParseLineFields | datasources/container_exec.go:29-39 | a quoted line "name status more…" gives the name and the first status word; later words are dropped |
| Containers.ParsePsLine | datasources/container_exec.go:29-39 | a line printed from a container parses back to it |
| Containers.ParseLineNoSpace | datasources/container_exec.go:30-33 | a line without a space inside its quotes is skipped |
| Containers.ParsePsOutput | datasources/container_exec.go:29-40 | the output printed for a list of containers parses back to the same list, in order |
| Containers.Prefixed | datasources/podman.go:59-71 | each name gets the prefix (removable again) and keeps its status |
| Containers.Merge | datasources/podman.go:57-71 | the merged list is a root Podman list whose length is the sum of the two listings |
| Containers.MergeOrigin | datasources/podman.go:57-71 | root containers come first with "# ", then user containers with "$ ", each otherwise unchanged |
| Containers.PodmanAsRoot | datasources/podman.go:39-44 | running as uid "0" behaves as if sudo and include-sudo were both off |
| Containers.PodmanWarnOnlyDefault | datasources/podman.go:30-33 | an unset warn-only override takes the global flag, whatever the global flag is later |
| Containers.PodmanSingleUnavailable | datasources/podman.go:45-52 | a single listing gives "unavailable" exactly when its command fails |
| Containers.PodmanMergedUnavailable | datasources/podman.go:53-77 | the merged listing gives "unavailable" exactly when both lists are empty and at least one command failed |
| Containers.MergedIgnoreSeesMarkedNames | datasources/podman.go:57-76 | the ignore list is matched against the marked names, so ignoring "web" does not hide the root container "# web" |
| Docker.CleanName | datasources/docker.go:67 | the name is the first name with one leading "/" removed |
| Docker.ApiSeen | datasources/docker.go:59-77 | exactly the containers whose cleaned name is not ignored are seen, good exactly in state "running" |
| Docker.HeaderOfSeen | datasources/docker.go:80-90 | critical exactly when nothing is good (even with no containers), OK exactly when something is good and nothing failed, warning exactly when both; counting the ignored ones in the total changes nothing |
| Docker.ClassifyContent | datasources/docker.go:80-98 | the content is the shared sorted listing; under failed-only with nothing failed it is empty |
| Docker.ApiAny | datasources/docker.go:66-77 | something seen is good exactly when some non-ignored container runs, failed exactly when one does not |
| Docker.CheckContainersHeader | datasources/docker.go:47-90 | "unavailable" with no content exactly when the listing fails; otherwise the header by running and non-running non-ignored containers |
| Docker.CheckContainersNames | datasources/docker.go:59-98 | printed names are sorted and are exactly the non-ignored cleaned names that qualify |
| Docker.CheckContainersLine | datasources/docker.go:91-98 | each printed line is some container's line; under failed-only its state is not "running" |
| Docker.EmptyListingDiffers | datasources/docker.go:81-82 | an empty API listing gives "critical" here while the shared container rule gives "OK" |
| Docker.ExecSeen | datasources/docker_exec.go:30-45 | every seen entry comes from a line with two or more fields, is not ignored, and is good exactly when its status field is "Up" |
| Docker.ExecLineFields | datasources/docker_exec.go:30-35 | a template line gives the name after its opening quote and the first status word |
| Docker.CheckContainersExecHeader | datasources/docker_exec.go:14-58 | "unavailable" exactly when the command fails; otherwise critical, OK or warning by what was seen |
| Docker.CheckContainersExecContent | datasources/docker_exec.go:23-66 | printed names are sorted, exactly the seen names that qualify, never an ignored name |
| Docker.ExecCreatedIsFailed | datasources/docker_exec.go:30-43 | on a two-field line the closing quote stays on the status: `"db Created"` is read as name `db` with status `Created"` |
| CpuTemps.CoreLine | datasources/temp_cpu.go:66-79 | a core's line carries its name and is missing exactly when the band hides it |
| CpuTemps.ErrCount | datasources/temp_cpu.go:64-79 | every core counted as an error is also counted as a warning |
| CpuTemps.HeaderIsWorst | datasources/temp_cpu.go:64-86 | the header from the two counters is the worst level any core reached |
| CpuTemps.HeaderByTemperature | datasources/temp_cpu.go:64-86 | with warn ≤ crit: OK exactly when every core is below warn, Critical exactly when some core is at or above crit, Warning otherwise |
| CpuTemps.LinesAll | datasources/temp_cpu.go:66-79 | without warn-only every core gets one line, in order |
| CpuTemps.LinesWarnOnly | datasources/temp_cpu.go:66-79 | under warn-only exactly the cores at or above warn get a line, none of them good |
| CpuTemps.LastOf | datasources/temp_cpu.go:56-62 | a key is in the map exactly when some reading has it |
| CpuTemps.LastOfIsLast | datasources/temp_cpu.go:56-62 | the stored value is the last reading for that key |
| CpuTemps.FindCoreKey | datasources/temp_cpu.go:53-58 | a match is the digit group of the leftmost `coretemp_core<digits>_input`; no match means no such key |
| CpuTemps.CoreKeyRoundTrip | datasources/temp_cpu.go:53-61 | the key of core d is matched and d read back |
| CpuTemps.CoreReadings | datasources/temp_cpu.go:53-62 | every matching sensor gives a reading under its digits, and nothing else does |
| CpuTemps.SortedCores | datasources/temp_cpu.go:63-68 | one core per sorted key, named "Core " and the key, at the last temperature read for it |
| CpuTemps.GopsutilOrder | datasources/temp_cpu.go:53-68 | the cores are the matching keys sorted as strings, each at its last reading |
| CpuTemps.StringOrderOfCores | datasources/temp_cpu.go:63 | string order puts core "10" before core "2" |
| CpuTemps.FindCoreName | datasources/temp_cpu_exec.go:32-47 | a match is a non-empty digit group; no match means no "Core N" anywhere |
| CpuTemps.CoreNumber | datasources/temp_cpu_exec.go:47 | the core number read is a non-negative 64-bit value |
| CpuTemps.CoreOfFeatureRoundTrip | datasources/temp_cpu_exec.go:43-47 | "Core N" is read back as N |
| CpuTemps.FeatureReadings | datasources/temp_cpu_exec.go:44-50 | every reading of one entry is filed under that entry's core |
| CpuTemps.ChipReadings | datasources/temp_cpu_exec.go:41-53 | every reading comes from an entry named for its core |
| CpuTemps.FirstCoretemp | datasources/temp_cpu_exec.go:38-56 | the chip used is a `coretemp` chip; none is used only when no chip is one |
| CpuTemps.GetCPUTemp | datasources/temp_cpu.go:26-33 | a failed read lists no core; otherwise the report is the summary of the cores the chosen path read |
| CpuTemps.CpuTempFailed | datasources/temp_cpu.go:26-33 | a failed read is reported "unavailable", or as the "sensors parse failed" warning when the sensors output could not be parsed |
| CpuTemps.CpuTempByReadings | datasources/temp_cpu.go:26-86 | with warn ≤ crit: OK exactly when every core read is below warn, Critical exactly when one reached crit; all cores listed in order without warn-only, only those at or above warn under it |
| CpuTemps.FirstChipOnly | datasources/temp_cpu_exec.go:38-56 | chips after the first `coretemp` chip never contribute |
| CpuTemps.SensorsOrder | datasources/temp_cpu_exec.go:57-81 | cores are sorted numerically and named "Core N"; with no cores the header is OK and the content empty |
| DiskTemps.ReplySplit | datasources/temp_disks.go:52-53 | a reply framed from well-formed records splits on the double bar into one piece per record, each the record's fields after trimming its leading bar |
| DiskTemps.RecordsOfReply | datasources/temp_disks.go:52-55 | each record has three fields or more, field 0 its device and field 2 its temperature |
| DiskTemps.DisksOfReply | datasources/temp_disks.go:52-56 | each record gives a disk named by its device (without "/dev/" in the newer reader) with its parsed temperature |
| DiskTemps.DiskLine | datasources/temp_disks.go:60-71 | an unreadable temperature gives an error line "--"; otherwise the line is missing exactly when the band hides it; a line carries the disk's name |
| DiskTemps.NotOKThreshold | datasources/temp_disks.go:60-72 | with warn ≤ crit a disk is not OK exactly when its temperature is unreadable or at least warn |
| DiskTemps.Kept | datasources/temp_disks.go:56-59 | exactly the disks not on the ignore list are kept |
| DiskTemps.NotOKCount | datasources/temp_disks.go:60-72 | the count is 0 exactly when no disk is not OK, and the total exactly when all are |
| DiskTemps.LinesFrom | datasources/temp_disks.go:60-71 | each line is the line of some disk |
| DiskTemps.HeaderSpec | datasources/temp_disks.go:74-80 | OK exactly when no disk is not OK; Warning exactly when some are and some are not; Critical exactly when there are disks and all are not OK |
| DiskTemps.IgnoredNotListed | datasources/temp_disks.go:50-59 | an ignored name is never printed |
| DiskTemps.GetFromHddtempSpec | datasources/temp_disks.go:35-81 | a refused socket gives "unavailable", an empty reply "failed", otherwise the header over the kept disks and their lines |
| DiskTemps.LinesAll | datasources/temp_disks.go:60-71 | without failed-only every disk gets one line, in reply order |
| DiskTemps.LinesFailedOnly | datasources/temp_disks.go:60-71 | under failed-only exactly the not-OK disks get a line, none of them good |
| DiskTemps.ReadersNameDisks | temps/disks.go:43-48 | the older reader names each disk by its device exactly as sent, the newer one without "/dev/", both in reply order |
| DiskTemps.AsWrittenBelow256 | datasources/temp_disks.go:47-80 | below 256 counted disks the 8-bit counters give the same result as unbounded ones |
| DiskTemps.AsWrittenWrapsAt256 | datasources/temp_disks.go:47-80 | with 256 counted disks all not OK, the 8-bit counters report OK where Critical is meant |
| DiskTemps.WrapExample | datasources/temp_disks.go:47-80 | a concrete reply of 256 unreadable disks is reported OK as written and Critical when corrected |
| Zfs.ReadPool | datasources/zfs.go:43-53 | a line is read as a pool exactly when it has four tab-separated fields or more, named by field 0 with health field 3 |
| Zfs.ReadPoolAsWritten | datasources/zfs.go:44-53 | the `< 3` guard lets a line with exactly three fields reach the read of field 3 |
| Zfs.ReadPoolsAsWritten | datasources/zfs.go:43-53 | the reading panics exactly when some line has exactly three fields |
| Zfs.AsWrittenAgrees | datasources/zfs.go:43-53 | when the reading does not panic it gives the same pools as the corrected reading |
| Zfs.AsWrittenPanics | datasources/zfs.go:44-53 | the output "tank\t1024\t2048" makes the reading panic |
| Zfs.ReadPoolsCover | datasources/zfs.go:43-47 | every line with four fields or more gives a pool, and every pool comes from such a line |
| Zfs.PoolReading | datasources/zfs.go:53-55 | a pool that is not ONLINE is Critical whatever its usage |
| Zfs.HeaderByPools | datasources/zfs.go:42-74 | Critical exactly when some pool is not ONLINE or at or above crit; OK exactly when every pool is ONLINE and below warn |
| Zfs.OfflineListed | datasources/zfs.go:53-55 | a pool that is not ONLINE is always listed as an error |
| Zfs.PoolLinesOrder | datasources/zfs.go:43-66 | without warn-only every pool is listed once, in order; under warn-only no good line appears |
| Btrfs.Args | datasources/btrfs.go:90-98 | the mount point is the last of at least two arguments |
| Btrfs.CommandArgs | datasources/btrfs.go:44-98 | "sudo" leads the arguments exactly when sudo is set and not running as uid "0"; an empty command means the default one |
| Btrfs.DefaultArgs | datasources/btrfs.go:50-51 | the default command runs `btrfs filesystem usage --raw` on the mount point |
| Btrfs.ProbedFrom | datasources/btrfs.go:91-96 | only btrfs partitions not yet checked are probed, each device at most once |
| Btrfs.ProbedFirst | datasources/btrfs.go:91-96 | the first btrfs partition of a device is probed |
| Btrfs.ProbedCovers | datasources/btrfs.go:91-96 | every btrfs device of the table is probed through some partition |
| Btrfs.ExecReading | datasources/btrfs.go:103-145 | a mount whose run, match or parse fails changes nothing |
| Btrfs.Probes | datasources/btrfs.go:98-108 | each probed mount is run with its own argument list; a failed run is skipped, and an output is read by Measure |
| Btrfs.Find | datasources/btrfs.go:110-125 | a capture is a non-empty run of digits, or of non-space characters for the ratio |
| Btrfs.FindLined | datasources/btrfs.go:110-125 | lines the pattern does not match at their start are passed over: the first matching line gives the capture |
| Btrfs.SizeLine | datasources/btrfs.go:85 | a `Device size:` line captures its digits |
| Btrfs.FreeLine | datasources/btrfs.go:87 | a `Free (estimated):` line captures its digits |
| Btrfs.RatioLine | datasources/btrfs.go:89 | a `Data ratio:` line captures the ratio text |
| Btrfs.AllocatedIsNotSize | datasources/btrfs.go:85 | a `Device allocated:` line does not match the size pattern |
| Btrfs.StatfsIsNotFree | datasources/btrfs.go:87 | a `Free statfs (df):` line does not match the free-space pattern |
| Btrfs.MetadataIsNotData | datasources/btrfs.go:89 | a `Metadata ratio:` line does not match the data ratio pattern |
| Btrfs.MatchPieces | datasources/btrfs.go:85-89 | text cut into pieces, each consumed by its token, is matched and the group after it captured |
| Btrfs.ParseDecimal | datasources/btrfs.go:141-145 | a negative value is read only from text with a leading minus |
| Btrfs.ParseFixed | datasources/btrfs.go:141 | a ratio printed with two decimals reads back as its value |
| Btrfs.Trunc | datasources/btrfs.go:149 | the conversion truncates toward zero |
| Btrfs.ToInt | datasources/btrfs.go:149 | the conversion stays in the 64-bit range |
| Btrfs.UsedPercent | datasources/btrfs.go:148-149 | with free × ratio ≤ total the percentage is the used share of the corrected total rounded down, between 0 and 100; more free than the corrected total gives at most 0; a zero ratio gives 100; a zero total gives the smallest int |
| Btrfs.Measure | datasources/btrfs.go:110-156 | a mount is measured exactly when all three patterns match and the ratio parses |
| Btrfs.MeasureFields | datasources/btrfs.go:131-156 | sizes printed in decimal and a positive ratio with free × ratio ≤ size give the used share of the corrected total rounded down, and format the corrected total, the used bytes and the free bytes |
| Btrfs.ExecStatus | datasources/btrfs.go:157-176 | Critical exactly when some measured mount is at or above crit, OK exactly when every measured mount is below warn |
| Btrfs.ExecListed | datasources/btrfs.go:157-167 | without warn-only exactly the measured mounts are listed, in order; every line names a measured mount |
| Btrfs.Percent | datasources/btrfs.go:216 | the percentage is the truncated quotient: at most 100 when used ≤ total |
| Btrfs.FsReading | datasources/btrfs.go:211-214 | a read error changes no status |
| Btrfs.SysfsHeader | datasources/btrfs.go:185-241 | Critical exactly when some readable filesystem is at or above crit, OK exactly when every readable one is below warn |
| Btrfs.ReadErrorListed | datasources/btrfs.go:211-213 | an unreadable filesystem is always listed with "read error" |
| Btrfs.LabelOf | datasources/btrfs.go:188-194 | a missing label file gives "Unlabelled"; a label line loses only its newline |
| Btrfs.GetBtrfsHeader | datasources/btrfs.go:42-80 | there is no header and no content exactly in exec mode with an unreadable partition table |
| Systemd.ExtensionsWellFormed | datasources/systemd.go:151-155 | every listed unit suffix is a dot and letters, and no two suffixes share the two letters after the dot, so none is a prefix of another |
| Systemd.ExtensionAt | datasources/systemd.go:151-155 | a match is a suffix the text starts with; no match means none does |
| Systemd.StripExtensionsDropsSuffix | datasources/systemd.go:151-155 | a listed suffix at the end of a name is removed |
| Systemd.StripExtensionsNoDot | datasources/systemd.go:151-155 | a name without a dot is shown unchanged |
| Systemd.StripCutsOne | datasources/systemd.go:151-155 | a suffix between dot-free parts is removed and the parts kept |
| Systemd.StripSinglePass | datasources/systemd.go:151-155 | text left after a removal is not matched again |
| Systemd.DisplayWrapped | datasources/systemd.go:150-155 | removing suffixes from the marked-up name equals marking up the stripped name |
| Systemd.GetProperties | datasources/systemd.go:47-77 | a complete unit is left alone; otherwise only empty fields are filled; the error is reported exactly when DBus fails on an incomplete unit, which then stays unchanged |
| Systemd.GetPropertiesOfNamed | datasources/systemd.go:52-76 | a bare configured unit takes each of the four properties DBus returns |
| Systemd.GetPropertiesIdempotent | datasources/systemd.go:47-77 | fetching again adds nothing |
| Systemd.Judge | datasources/systemd.go:157-176 | good exactly when loaded and active, or exited with status "0" while inactive is accepted; a warning tone exactly for status "0" while it is not; the shown value is the load state, result or active state accordingly |
| Systemd.UnitMarks | datasources/systemd.go:145-177 | exactly the units with some property known are classified, shown under their display names |
| Systemd.UnitMarksSome | datasources/systemd.go:145-177 | something is good (failed) exactly when some known unit is judged good (failed) |
| Systemd.Collected | datasources/systemd.go:107-127 | the failed units listed by DBus (when shown) come first with their states, then each configured unit bare |
| Systemd.Refreshed | datasources/systemd.go:128-136 | each unit, in place and in order, gets its missing properties from DBus |
| Systemd.Errors | datasources/systemd.go:128-136 | one error line per unit whose fetch failed, and none when no fetch failed |
| Systemd.PermutedUnits | datasources/systemd.go:138-140 | reordering the units changes no verdict and no listing question |
| Systemd.CheckedSorted | datasources/systemd.go:138-140 | the units are checked in name order |
| Systemd.ServiceStatusNotices | datasources/systemd.go:96-106 | no DBus gives "DBus failed"; no units and no failed listing gives "unconfigured"; both without content |
| Systemd.ServiceStatusHeader | datasources/systemd.go:178-189 | critical exactly when no unit is good (even with none), OK exactly when some are good and none failed, warning exactly when both; OK under warn-only has no content |
| Systemd.ServiceStatusErrorsLast | datasources/systemd.go:198-200 | the property-error lines close the content |
| Systemd.UnitMarksListed | datasources/systemd.go:145-177 | a name is listed exactly when some known unit of that name qualifies |
| Systemd.ServiceStatusNames | datasources/systemd.go:190-197 | the unit lines are in sorted name order under display names, exactly the units that qualify |
| Systemd.ServiceStatusLines | datasources/systemd.go:190-197 | each unit line is the line of a known unit; under warn-only a failed one |
| SystemdOld.Record | systemd/systemd.go:72-80 | strings and 32-bit integers are stored as text; every other type gives one "Unrecognized type" line and is not stored |
| SystemdOld.Stats | systemd/systemd.go:64-81 | a failed fetch leaves no properties; otherwise exactly the recognised properties are stored |
| SystemdOld.UnitErrors | systemd/systemd.go:67-71 | a failed fetch gives exactly one error line |
| SystemdOld.AllErrors | systemd/systemd.go:64-81 | there are no error lines exactly when no unit produced one |
| SystemdOld.Judge | systemd/systemd.go:97-112 | good exactly when loaded and active or with status "0"; never a warning tone |
| SystemdOld.JudgeIsInactiveOK | systemd/systemd.go:97-112 | the older classification is the newer one with inactive units accepted |
| SystemdOld.DisplayWrapped | systemd/systemd.go:91-95 | the cuts on the marked-up name equal marking up the cut name |
| SystemdOld.HideExtCutsOnce | systemd/systemd.go:91-95 | only the first ".service" is removed |
| SystemdOld.UnitMarksMember | systemd/systemd.go:86-113 | exactly the units with stored properties are classified |
| SystemdOld.UnitMarksSomeGood | systemd/systemd.go:86-113 | something is good exactly when some known unit is judged good |
| SystemdOld.UnitMarksSomeFailed | systemd/systemd.go:86-113 | something failed exactly when some known unit is judged failed |
| SystemdOld.ServiceStatusHeader | systemd/systemd.go:54-123 | no units gives "unconfigured"; otherwise critical, OK or warning by the known units; OK under failed-only has no content |
| SystemdOld.UnitMarksListed | systemd/systemd.go:86-131 | a name is listed exactly when it is a known unit that qualifies |
| SystemdOld.ServiceStatusContent | systemd/systemd.go:86-134 | error lines close the content; the unit lines before them are sorted, exactly the qualifying known units, each as often as it is configured |
| SystemdOld.FetchFailureSkipped | systemd/systemd.go:64-89 | a unit whose fetch failed is skipped and leaves exactly one error line |
| AppConf.Named | motd.go:258-276 | a name dispatches to the module of that name, and an unknown name to none |
| AppConf.NamedName | motd.go:258-276 | every module's name dispatches back to it |
| AppConf.Defaults | main.go:213-233 | CPU 70/90, disk 40/50, ZFS 70/90, the updates cache file and a 24 hour check; every override kept; every pad pair of length two |
| AppConf.Prepare | main.go:46-124 | a wrapper hands its collector the configuration with that module's unset override taken from the global flag; a set override and every other module are kept |
| MainProgram.CheckCfgLen | main.go:135-143 | no error exactly when both pad arrays have two entries; a short header is reported before a short content |
| MainProgram.NewConfSound | main.go:213-233 | the defaults pass the pad check, every module follows the global flag, and warn ≤ crit everywhere |
| MainProgram.ScreenOrder | main.go:197-205 | every module is printed exactly once at its fixed place, and one with its own override prints the same whatever the global flag |
| Motd.DefaultOrderIsModules | motd.go:22 | the default order names exactly the modules the dispatch knows |
| Motd.Init | motd.go:40-59 | the column padding is 4 and the module defaults are applied; the order settings are kept |
| Motd.CheckSetIsKnown | motd.go:186-187 | the check set holds exactly the names of the default order |
| Motd.KeepKnown | motd.go:205-212 | only known names from the input remain |
| Motd.KeepKnownCounts | motd.go:205-212 | each known name remains as often as it occurs |
| Motd.KeepKnownAppend | motd.go:205-212 | filtering keeps order: a filtered concatenation is the concatenation of the filtered parts |
| Motd.VerifiedCols | motd.go:190-204 | every rewritten row is non-empty and holds only known names |
| Motd.FlattenVerified | motd.go:188-204 | flattening the rewritten rows is filtering the flattened rows, so empty rows vanish and order is kept |
| Motd.MakePrintOrder | motd.go:183-219 | every name run is known, and every name in the rewritten colDef is run |
| Motd.ColDefFirst | motd.go:188-205 | with a colDef, showOrder is ignored and the run order is the row-major flattening of the rewritten colDef |
| Motd.UnknownColDefRunsNothing | motd.go:188-204 | a colDef naming only unknown modules runs nothing and lays out nothing |
| Motd.ShowOrderKept | motd.go:205-217 | without colDef a showOrder keeps its order and repeats, unknown names dropped; with neither the default order runs |
| Motd.Results | motd.go:254-283 | there is a result for exactly the names run |
| Motd.PresentAll | motd.go:165-176 | when every name of a row has a result, the row's cells are those results in row order |
| Motd.FlatInOrder | motd.go:284-292 | flat output lists the results in print order, whatever order they arrived in |
| Motd.TableComplete | motd.go:150-178 | the table has one block per rewritten row: a single-name row alone, any other row as columns in row order |
| Motd.TableRows | motd.go:154-177 | a row of one name prints that result alone; any other row prints its present names' results in order |
| OldConfigs.CommonInit | tools/old_configs.go:56-60 | both pad pairs become [0, 0] and the override is kept |
| OldConfigs.Init | tools/old_configs.go:23-47 | every base initialised; BTRFS, CPU and ZFS 70/90, disk 40/50, padding 4, ShowFailed on, a 24 hour check and the cache file; everything else kept |
| NewConfigs.BaseInit | tools/new_configs.go:63-67 | both pad pairs become [0, 0] and the override is kept |
| NewConfigs.Init | tools/new_configs.go:17-40 | every base initialised; BTRFS, CPU and ZFS 70/90, disk 40/50, padding 4, ShowFailed on and the cache file; everything else kept |
| NewConfigs.InitIdempotent | tools/new_configs.go:17-40 | initialising twice is initialising once |
| Migrate.Base | tools/migrate.go:84-86 | a base converts without loss: failed-only becomes warn-only, header and content the pad pairs |
| Migrate.ConvertCfgAsWritten | tools/migrate.go:129-134 | as written, the updates section is the corrected one with its base taken from the podman section |
| Migrate.RestoreConvert | tools/migrate.go:76-142 | with the updates base taken from its own section, converting loses nothing but the check interval |
| Migrate.ConvertRestore | tools/migrate.go:76-142 | every field of the new format is written by the conversion: any new configuration is the conversion of its own restoration |
| Migrate.ConvertDefaults | tools/migrate.go:76-77 | converting the old defaults gives the new defaults, as written too |
| Migrate.AsWrittenLosesUpdates | tools/migrate.go:130-132 | an updates override of the old file is lost, replaced by the podman section's |
| Migrate.AsWrittenAgrees | tools/migrate.go:130-132 | the written conversion is right exactly when the old updates and podman sections have the same base |

## Left out

- Acquisition: command execution, the hddtemp socket, DBus, the Docker API,
  gopsutil, `/sys` and `/proc` reads, YAML and JSON decoding. Each is a
  parameter: an input sequence, a command-runner function, or a failure
  constructor.
- Goroutines, channels, the wait group and the timing output in `motd.go`
  and `main.go`. Collection is a name-keyed map (`Motd.Results`) or the
  fixed sequence (`MainProgram.Screen`), read back in print order.
- Floating point: the ZFS usage percentage, the GB/TB and `FormatBytes`
  formatting, and float-to-int truncation of temperatures. ZFS percentages
  and temperatures arrive as integers. Usage text comes from a formatting
  parameter. The btrfs exec arithmetic is computed on exact reals (see
  `Btrfs.UsedPercent` below).
- `Pad.Do` alignment (text/tabwriter, and random iteration over the
  delimiter map) and `tablewriter` rendering in `mapToTable`. Only the
  empty-delimiter case and the choice of cells are modelled.
- `sysinfo.go`, `updates.go`, `temp_disks_sys.go` and `docker/docker-exec.go`
  are not part of this model: they are file and socket plumbing, wall-clock
  arithmetic, or a build-tagged duplicate. `MainProgram.Screen` and
  `Motd.Results` take their output as a collector parameter.
- `tools/migrate.go` `readCfg`, the dump functions and `main` (file
  handling). The old updates check interval has no counterpart in the new
  format and is dropped.
- Regular expressions are hand-written matchers that recognise the same
  strings: `coretemp_core(\d+)_input`, `Core\s(\d+)`, `temp(\d+)_input`,
  and the systemd suffix pattern. The three btrfs usage patterns are
  modelled token by token (`Btrfs.MatchHere`, `Btrfs.Find`).
- `datasources/podman.go` lines 51 and 76 pass four arguments to
  `toHeaderContent`, which is declared with two. The two-parameter version
  is modelled (runtime, root flag, containers; ignore list and failed-only
  flag), with the `$`/`%` markers of `datasources/common_vars.go`.
- The `Init` methods of `ConfBtrfs`, `ConfPodman`, `ConfSystemd` and
  `ConfTempCPU`, and `ConfBase` in `datasources`: they only set pad pairs
  and defaults, and the modelled collectors take thresholds and flags as
  parameters.
- `sort.Slice` in `datasources/systemd.go` is modelled as a stable sort
  (insertion by key). Go does not promise stability, so units of equal
  name may be ordered differently there.
- Go's random map iteration over `lm-sensors` chips is a given chip order
  (`CpuTemps.FirstCoretemp` takes the chips in the order supplied).
- `checkCfgLen` (`MainProgram.CheckCfgLen`) is modelled, but `main` never
  calls it, so `MainProgram.Screen` does not check pads.
- DiskTemps.Disks: requires every record to have three fields or more. The
  source indexes field 2 without a check and panics on a shorter record;
  the panic itself is not modelled.
- Zfs.ReadPool: the corrected reading needs four fields. The
  reading as written is modelled separately, with its panic
  (`Zfs.ReadPoolAsWritten`).
- Btrfs.Percent: byte counts are integers and the percentage is their exact
  truncated quotient. The float64 division and the rounding before `int()`
  truncates are not modelled, so a quotient just below a whole percent may
  land one higher in Go.
- Btrfs.ParseDecimal: reads optionally signed decimal notation only.
  Exponents, hexadecimal floats, underscores, "inf" and "nan" are treated
  as parse failures, where Go's ParseFloat accepts them. Byte counts longer
  than float64's range are read exactly, where Go reports a range error
  and skips the mount.
- Btrfs.UsedPercent: computed on exact reals. float64 rounding of the
  division and the subtraction is not modelled, so a share just below a
  whole percent may come out one higher in Go. Negative zero is not
  modelled. The conversion of NaN, the infinities and out-of-range values
  to the smallest int follows amd64; Go leaves that conversion
  implementation-defined.
- Btrfs.Find: the matcher is built for the shape of these three patterns:
  literal words that start with a non-space character, each preceded by
  `\s+`. It is not a general regular-expression engine.
- Btrfs.MeasureFields: `utils.FormatBytes` is the `format` parameter, so
  the used, free and total strings are stated as its results on the exact
  values.
- Text.ToLower: lowers ASCII letters only. Go's `strings.ToLower` also
  lowers other Unicode letters (for example 'Ä'). This matters for the
  container status words (`datasources/container_common.go:34`) only on
  non-ASCII input.
- Text.TrimSpace: removes exactly `unicode.IsSpace`'s characters. Invalid
  UTF-8, which Go decodes as U+FFFD, does not arise, because strings here
  are sequences of characters.
- Docker.CleanName: requires the container to have at least one name.
  `container.Names[0]` (`datasources/docker.go:67`, `docker/docker.go:70`)
  panics on a container without names; that panic is not modelled.
- Docker.HeaderOfSeen: the total is any number at least the count of
  containers seen, because `len(allContainers)` includes ignored ones. The
  "fewer failed than total" test therefore always holds when reached.
- Systemd.Judge: models `datasources/systemd.go`. The older rule is
  `SystemdOld.Judge`, and `SystemdOld.JudgeIsInactiveOK` relates the two.
- CpuTemps: the four CPU files (`datasources/temp_cpu.go`,
  `datasources/temp_cpu_exec.go`, `temps/cpu.go`, `temps/cpu-exec.go`)
  share one model, since their branches, counters and headers are the same.
  The sensors path's "parse failed" notice is a constructor of the run's
  result.
- Zfs and Docker model `zfs/zfs.go` and `docker/docker.go` through the
  newer files, whose status chain and header rule they repeat line for line.

## Findings

| source | as written | input that shows it | evidently intended | confidence | as-written member | corrected member |
|---|---|---|---|---|---|---|
| datasources/zfs.go:45-53 | lines with fewer than 3 tab-separated fields are skipped, then field 3 is read | the zpool output line `tank\t1024\t2048` (exactly three fields) reaches the index of field 3 and panics | skip lines with fewer than 4 fields | not executed | Zfs.AsWrittenPanics | Zfs.ReadPoolsCover |
| datasources/temp_disks.go:47-80 | the total and not-OK counters are `uint8` | 256 unreadable disks: both counters wrap to 0 and the header says OK | Critical when every disk is not OK, whatever the count | not executed | DiskTemps.WrapExample | DiskTemps.HeaderSpec |
| tools/migrate.go:130-132 | the new updates section takes warn-only and both pad pairs from the old podman section | an old file whose updates section sets failed-only to true and pads [1,2]/[3,4] migrates to an unset override and [0,0] pads | take them from the old updates section | not executed | Migrate.AsWrittenLosesUpdates | Migrate.RestoreConvert |
