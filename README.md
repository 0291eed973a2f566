# jpoller, modelled in Dafny

jpoller is a Java library that watches directories for incoming files. A
`DirectoryPoller` thread runs a polling *cycle* over its controlled
directories:

- it lists each directory through a filename filter (optionally
  time-based);
- with *auto-move* on, it sweeps the post-process markers (`.~name~`
  sidecar files) of the quarantine directory (`received` by default);
- it moves every stable candidate into the quarantine directory;
- it sends lifecycle signals (`CycleStart`, `DirectoryLookupStart`,
  `FileSetFound`, `FileFound`, `FileMoved`, `DirectoryLookupEnd`,
  `CycleEnd`) and exception signals to registered *poll managers*, through
  a `DefaultListener` per manager.

Around the cycle sit:

- **Processing pipeline.** The opinionated `BasePollManager` of
  `com.levelsbeyond.jpoller` hands each found file to a working folder,
  has a user hook process it, and routes the result to a completed or a
  failed folder, with a `.log` beside a failed file.
- **Managed poller.** The JMX-manageable `ManagedDirectoryPoller` reads
  and writes its configuration as strings.
- **Small collaborators:**
  - the post-process marker manager;
  - the suspendable manager decorator;
  - `MovedFile`;
  - the comparators, including the textual `GenericFileComparator`;
  - the event classes and the sequence-number generator;
  - the JMX `NotificationMonitor`.

The model works on an abstract disk. Module `Files` gives a map from
absolute path (a sequence of components) to node: a directory, or a
regular file with length, modification time, hidden/readable flags and
lines of text. It also holds a set of *pinned* paths whose deletion or
renaming the operating system refuses. `Text` gives the few
`java.lang.String`/`StringTokenizer` operations the code uses.

The model takes the source's own form:

- **Classes with `modifies` frames** for every class that updates fields in place:
  - `Poller.DirectoryPoller`, `Pipeline.PipelineManager`,
    `ManagedPolling.ManagedDirectoryPoller`, `MovedFiles.MovedFile`;
  - `Suspendable.SuspendablePollManager`,
    `PostProcessMarkers.PostProcessMarkerManager`,
    `Notifications.NotificationMonitor`,
    `Events.CoreSequenceNumberGenerator`, `Files.FileSystem`.
- **Loops stay loops.** Each loop is a method proved equal to a
  specification function over the state it changes: the cycle
  (`PollerCycle`), the pipeline steps (`Pipeline`), and the directory and
  token folds (`ManagedPolling`).
- **Lemmas prove what the source promises about those functions.** They
  sit in `PollerProperties`, `PollerDirectories`, `Pipeline`,
  `ManagedPolling`, `Notifications` and the smaller modules.
- **Pure code becomes datatypes and functions:**
  - the listener dispatch;
  - the comparators;
  - marker naming and parsing;
  - the expiry predicates.

Quirks of the code are modelled as written and stated as lemmas:

- the poller's expiry test is inverted and its pending test looks at the
  file, not its marker;
- a marker with no `action` makes the `switch` throw;
- the `DirectoryFilter` rejects every subdirectory when there are no system
  names, and its `binarySearch(...) > 0` misses index 0;
- `removeDirectory` of an absent directory overruns its array;
- `MovedFile.invert()` calls itself;
- `NotificationMonitor` has two out-of-range indices;
- `GenericFileComparator` reverses string order. Its `Boolean.class`
  branch is dead, because the `File` read methods return the primitive
  `boolean`, so comparing by a boolean property (`isHidden`, `isFile`,
  ...) raises "Unsupported type boolean".

Where a Java method throws, the model returns `Err` with the exception
class (module `Outcomes`) and leaves the state as the Java code leaves it
at that point.

## Model

| member | source | states |
|---|---|---|
| PollerFilters.BinarySearchFrom | src/main/java/org/sadun/util/polling/DirectoryPoller.java:147 | a non-negative result is an index inside the searched range holding the key; a miss is negative |
| PollerFilters.BinarySearch | src/main/java/org/sadun/util/polling/DirectoryPoller.java:147 | `Arrays.binarySearch` answers a valid index holding the key, or a negative number when it misses |
| PollerFilters.BinarySearchMissBounds | src/main/java/org/sadun/util/polling/DirectoryPoller.java:147 | a miss answers -(insertion point) - 1, with the insertion point inside the searched range or just past its end |
| PollerFilters.BinarySearchFinds | src/main/java/org/sadun/util/polling/DirectoryPoller.java:147 | in a strictly sorted array every element is found at its own index |
| PollerFilters.BinarySearchMisses | src/main/java/org/sadun/util/polling/DirectoryPoller.java:147 | a name absent from the array is never found |
| PollerFilters.SystemDirectoryTest | src/main/java/org/sadun/util/polling/DirectoryPoller.java:146-149 | for a sorted, non-empty system-name list a subdirectory is rejected iff its name occurs in the list past index 0, so the name at index 0 is let through |
| PollerFilters.NoSystemNamesRejectsAllDirectories | src/main/java/org/sadun/util/polling/DirectoryPoller.java:146-149 | with the default empty system-name list every subdirectory is rejected |
| PollerFilters.DirectoryFilterPassesFiles | src/main/java/org/sadun/util/polling/DirectoryPoller.java:150-154 | on a regular file the directory filter answers what the user's filter answers |
| PollerFilters.Selected | src/main/java/org/sadun/util/polling/DirectoryPoller.java:560 | `listFiles(filter)` keeps only listed names the filter accepts, never more than listed |
| PollerFilters.Accepts | src/main/java/org/sadun/util/polling/DirectoryPoller.java:99-156 | the null filter accepts everything; the time filter accepts only non-directories changed after the base time, then defers to its inner filter; the directory filter rejects a directory only as a system name and otherwise defers to the additional filter, accepting when there is none |
| PollerFilters.SelectedKeepsAccepted | src/main/java/org/sadun/util/polling/DirectoryPoller.java:560 | every listed name the filter accepts is kept |
| PollerFilters.TimeFilteredListing | src/main/java/org/sadun/util/polling/DirectoryPoller.java:113-131 | the time filter keeps no directory and no file with mtime at or below the directory's base time |
| PollerDirectories.CheckedDirectories | src/main/java/org/sadun/util/polling/DirectoryPoller.java:314-320 | an accepted list holds the given entries in order, each non-null and a directory |
| PollerDirectories.CheckedDirectoriesCases | src/main/java/org/sadun/util/polling/DirectoryPoller.java:314-320 | an all-good list is accepted as is; otherwise the first bad entry decides the exception (NullPointerException or IllegalArgumentException) |
| PollerDirectories.CheckedWrapped | src/main/java/org/sadun/util/polling/DirectoryPoller.java:314-320 | a list of paths is accepted exactly when every path is a directory |
| PollerDirectories.ValidateDirectories | src/main/java/org/sadun/util/polling/DirectoryPoller.java:315-319 | the validation loop answers `CheckedDirectories` |
| PollerDirectories.Others | src/main/java/org/sadun/util/polling/DirectoryPoller.java:295-301 | exactly the entries that differ from the removed directory, never more than the list |
| PollerDirectories.Occurrences | src/main/java/org/sadun/util/polling/DirectoryPoller.java:295-301 | no occurrence iff the directory is not in the list |
| PollerDirectories.OthersAndOccurrences | src/main/java/org/sadun/util/polling/DirectoryPoller.java:295-301 | the kept entries and the occurrences add up to the list length |
| PollerDirectories.CopyWithout | src/main/java/org/sadun/util/polling/DirectoryPoller.java:291-301 | the copy loop into an array one shorter answers `WithoutDirectory`: the other entries then null slots, or an `ArrayIndexOutOfBoundsException` when nothing was removed |
| PollerDirectories.OthersStep | src/main/java/org/sadun/util/polling/DirectoryPoller.java:296-300 | an entry is kept exactly when it differs from the directory |
| PollerDirectories.CopyComplete | src/main/java/org/sadun/util/polling/DirectoryPoller.java:291-301 | a copy that ran to the end without overrunning implies the directory was present, and holds the other entries then one null per extra occurrence |
| PollerDirectories.OverrunMeansAbsent | src/main/java/org/sadun/util/polling/DirectoryPoller.java:292-304 | once the shorter array is full, a further entry different from the directory makes the copy fail with `ArrayIndexOutOfBoundsException` |
| PollerDirectories.RemoveSingle | src/main/java/org/sadun/util/polling/DirectoryPoller.java:290-308 | removing a directory present once drops it and keeps the order of the others |
| PollerDirectories.RemoveDuplicateLeavesNull | src/main/java/org/sadun/util/polling/DirectoryPoller.java:290-320 | removing a directory present twice leaves a null slot; `setDirectories` then raises `NullPointerException`, or `IllegalArgumentException` when a kept entry before it is not a directory |
| PollerDirectories.CheckedThroughNull | src/main/java/org/sadun/util/polling/DirectoryPoller.java:314-320 | the validation of kept paths followed by a null stops at the first non-directory with `IllegalArgumentException`, otherwise at the null with `NullPointerException` |
| PollerDirectories.IndexOfDirectory | src/main/java/org/sadun/util/polling/DirectoryPoller.java:402-407 | the index found holds the directory and no earlier index does |
| PollerDirectories.FindDirectory | src/main/java/org/sadun/util/polling/DirectoryPoller.java:402-409 | the search loop answers the first matching index, or none |
| PollerDirectories.FirstIndexIsIndexOf | src/main/java/org/sadun/util/polling/DirectoryPoller.java:402-407 | an index holding the directory with no earlier match is the one found |
| PollerDirectories.AllBaseTimesSet | src/main/java/org/sadun/util/polling/DirectoryPoller.java:412-417 | `setBaseTime(time)` sets, for each directory in turn, the slot of its first occurrence |
| PollerDirectories.DistinctAllSet | src/main/java/org/sadun/util/polling/DirectoryPoller.java:412-417 | with no directory listed twice every base time becomes the given time |
| PollerDirectories.DistinctPrefixSet | src/main/java/org/sadun/util/polling/DirectoryPoller.java:412-417 | after k steps of that loop the first k base times are set and the rest are untouched |
| PollerCycle.Notify | src/main/java/org/sadun/util/polling/DirectoryPoller.java:539-541 | a notification appends exactly that signal and changes nothing else, except that a stop may set the shutdown flag, never clear it |
| PollerCycle.Skip | src/main/java/org/sadun/util/polling/DirectoryPoller.java:871-876 | a name that is not skipped exists, is not hidden, does not start with "." and, for a file, is not empty |
| PollerCycle.IsScanDir | src/main/java/org/sadun/util/polling/DirectoryPoller.java:918-931 | only a directory that is one of the polled directories is the scan directory; the first polled directory always is, when it is a directory |
| PollerCycle.PollerExpired | src/main/java/org/sadun/util/polling/DirectoryPoller.java:888-892 | as written: false without a delay; true only for a non-empty file changed LESS than the delay ago |
| PollerCycle.Pending | src/main/java/org/sadun/util/polling/DirectoryPoller.java:882-886 | as written: pending only with a delay, and only for an existing file (the marker is computed and not used) |
| PollerCycle.MarkerCleared | src/main/java/org/sadun/util/polling/DirectoryPoller.java:747-750 | after a rename the disk is the disk with the marker deleted (if it can be); sizes, base times and auto-move map untouched |
| PollerCycle.Announced | src/main/java/org/sadun/util/polling/DirectoryPoller.java:752-790 | the `FileMoved(orig, dest)` signal is appended and only the AppleDouble companion may be deleted; sizes, base times and auto-move map untouched |
| PollerCycle.Relocate | src/main/java/org/sadun/util/polling/DirectoryPoller.java:742-790 | a move never throws, moves at most one name and keeps the base times |
| PollerCycle.Examine | src/main/java/org/sadun/util/polling/DirectoryPoller.java:651-801 | the checks of a candidate move at most one name and keep the base times |
| PollerCycle.TryMove | src/main/java/org/sadun/util/polling/DirectoryPoller.java:631-649 | one candidate moves at most one name and keeps the base times |
| PollerCycle.TryAll | src/main/java/org/sadun/util/polling/DirectoryPoller.java:631-802 | the auto-move loop moves at most one name per listed name and keeps the base times |
| PollerCycle.SweepOne | src/main/java/org/sadun/util/polling/DirectoryPoller.java:592-627 | handling one marker moves nothing, sends no signal and keeps the base times |
| PollerCycle.MarkerNames | src/main/java/org/sadun/util/polling/DirectoryPoller.java:585-590 | every name the marker filter keeps is a marker name (`.~`, `~`, longer than 3) |
| PollerCycle.Markers | src/main/java/org/sadun/util/polling/DirectoryPoller.java:585-591 | every name swept from the auto-move directory is a marker name |
| PollerCycle.SweepAll | src/main/java/org/sadun/util/polling/DirectoryPoller.java:591-628 | the marker loop moves nothing, sends no signal and keeps the base times |
| PollerCycle.MaxModified | src/main/java/org/sadun/util/polling/DirectoryPoller.java:843-849 | the raised base time is at least the old one and every announced file's mtime, and is one of those values |
| PollerCycle.NextBaseTime | src/main/java/org/sadun/util/polling/DirectoryPoller.java:836-856 | the update keeps one base time per directory |
| PollerCycle.FoundEach | src/main/java/org/sadun/util/polling/DirectoryPoller.java:823-831 | the `FileFound` loop changes only the log and the shutdown flag, the latter only when it stopped |
| PollerCycle.Announce | src/main/java/org/sadun/util/polling/DirectoryPoller.java:814-858 | the end of a lookup never throws and keeps one base time per directory |
| PollerCycle.LookupBody | src/main/java/org/sadun/util/polling/DirectoryPoller.java:558-858 | a lookup keeps the number of base times |
| PollerCycle.AutoMoved | src/main/java/org/sadun/util/polling/DirectoryPoller.java:580-858 | the auto-move part of a lookup keeps the number of base times |
| PollerCycle.Lookup | src/main/java/org/sadun/util/polling/DirectoryPoller.java:549-858 | one pass of the lookup loop keeps the number of base times |
| PollerCycle.LookupAll | src/main/java/org/sadun/util/polling/DirectoryPoller.java:549-859 | the lookup loop keeps the number of base times |
| PollerCycle.Cycle | src/main/java/org/sadun/util/polling/DirectoryPoller.java:543-863 | `runCycle` keeps one base time per directory |
| PollerCycle.TryAllSticks | src/main/java/org/sadun/util/polling/DirectoryPoller.java:631-802 | once a candidate throws, the later names are not looked at |
| PollerCycle.SweepAllSticks | src/main/java/org/sadun/util/polling/DirectoryPoller.java:591-628 | once a marker throws, the later markers are left alone |
| PollerCycle.LookupAllSticks | src/main/java/org/sadun/util/polling/DirectoryPoller.java:549-859 | once a lookup returns or throws, the later directories are not looked up |
| PollerCycle.PrepareOne | src/main/java/org/sadun/util/polling/DirectoryPoller.java:495-510 | preparing one auto-move directory changes only the disk and the auto-move map |
| PollerCycle.PrepareSticks | src/main/java/org/sadun/util/polling/DirectoryPoller.java:494-512 | the first directory that cannot be created ends the prologue |
| PollerCycle.Cycles | src/main/java/org/sadun/util/polling/DirectoryPoller.java:513-532 | the run loop over its cycles keeps one base time per directory |
| PollerCycle.Started | src/main/java/org/sadun/util/polling/DirectoryPoller.java:486-512 | the prologue of `run` leaves the base times alone |
| PollerCycle.PrepareChangesOnly | src/main/java/org/sadun/util/polling/DirectoryPoller.java:494-512 | the prologue changes the disk and the auto-move map only |
| PollerCycle.StartedChangesOnly | src/main/java/org/sadun/util/polling/DirectoryPoller.java:486-512 | the prologue of `run` clears shutdown and changes nothing but the disk and the auto-move map |
| PollerCycle.FoundEachSticks | src/main/java/org/sadun/util/polling/DirectoryPoller.java:823-831 | once shutdown stops the `FileFound` loop, the later files are not signalled |
| PollerCycle.CheckedSizesStep | src/main/java/org/sadun/util/polling/DirectoryPoller.java:706-733 | checking one more file is one pass of the stability loop over the size map |
| PollerProperties.SkippedQuietly | src/main/java/org/sadun/util/polling/DirectoryPoller.java:656-658 | a missing, hidden, empty, dot-named, polled-root or pending candidate is passed over with the state unchanged |
| PollerProperties.MovedOnlyWhenStable | src/main/java/org/sadun/util/polling/DirectoryPoller.java:684-742 | a candidate is moved only if it passed the skip rule and every checked file kept its recorded size |
| PollerProperties.CheckedSingleFile | src/main/java/org/sadun/util/polling/DirectoryPoller.java:706-733 | a stable file is let through with its entry removed; any other has its current size recorded |
| PollerProperties.FileStability | src/main/java/org/sadun/util/polling/DirectoryPoller.java:685-735 | a regular file proceeds iff its recorded size equals its length, so a first sighting waits and a growing file waits until it holds still |
| PollerProperties.FirstSightingDefers | src/test/java/org/sadun/util/polling/DirectoryPollerTest.java:121-174 | the first sighting of a regular file records its size and leaves it in place |
| PollerProperties.DeferredThenStable | src/test/java/org/sadun/util/polling/DirectoryPollerTest.java:176-275 | after a deferral the next look lets the file through exactly when its length is unchanged |
| PollerProperties.DeleteFailureSignalled | src/main/java/org/sadun/util/polling/DirectoryPoller.java:634-643 | an undeletable stale destination is signalled as `AutomoveDeleteException(orig, dest)` and the candidate is skipped |
| PollerProperties.RenameFailureSignalled | src/main/java/org/sadun/util/polling/DirectoryPoller.java:742-746 | a failed rename is signalled as an `AutomoveException` and no `FileMoved` follows |
| PollerProperties.MarkerFailureStillMoved | src/main/java/org/sadun/util/polling/DirectoryPoller.java:747-754 | a marker that cannot be removed is signalled, and the `FileMoved` is still sent |
| PollerProperties.CleanMoveSignalled | src/main/java/org/sadun/util/polling/DirectoryPoller.java:742-754 | a clean move adds exactly one signal, `FileMoved(orig, dest)` |
| PollerProperties.RelocateOutcome | src/main/java/org/sadun/util/polling/DirectoryPoller.java:742-790 | a move appends exactly one of: the rename failure; the marker failure then `FileMoved`; `FileMoved` alone, the last two moving the name |
| PollerProperties.OutcomeSignals | src/main/java/org/sadun/util/polling/DirectoryPoller.java:742-754 | each of those outcomes holds only move signals and its `FileMoved` signals name what was moved |
| PollerProperties.OnlyMovesAppend | src/main/java/org/sadun/util/polling/DirectoryPoller.java:631-802 | two runs of move signals in a row are one run |
| PollerProperties.MovedNames | src/main/java/org/sadun/util/polling/DirectoryPoller.java:752 | the destination names of the `FileMoved` signals of a log, no more than there are signals |
| PollerProperties.MovedNamesAppend | src/main/java/org/sadun/util/polling/DirectoryPoller.java:752 | the moved names of a concatenated log are the concatenation |
| PollerProperties.RelocateSignals | src/main/java/org/sadun/util/polling/DirectoryPoller.java:742-790 | a move extends the log with move signals only (`FileMoved` or a move exception), and the `FileMoved` signals it adds name exactly what it moved |
| PollerProperties.ExamineSignals | src/main/java/org/sadun/util/polling/DirectoryPoller.java:651-801 | the checks of a candidate extend the log with move signals only, and the `FileMoved` signals added name what was moved |
| PollerProperties.TryMoveSignals | src/main/java/org/sadun/util/polling/DirectoryPoller.java:631-754 | one candidate extends the log with move signals only, and its `FileMoved` signals name exactly what it moved |
| PollerProperties.TryAllSignals | src/main/java/org/sadun/util/polling/DirectoryPoller.java:631-811 | the auto-move loop sends move signals only; the names collected for `FileSetFound` are exactly those of the `FileMoved` signals sent, in order, and keep the listing order |
| PollerProperties.SubsequenceStep | src/main/java/org/sadun/util/polling/DirectoryPoller.java:804-811 | keeping or dropping one more listed entry keeps the order of the compacted names |
| PollerProperties.AnnouncedSet | src/main/java/org/sadun/util/polling/DirectoryPoller.java:814-818 | with nothing moved there is no `FileSetFound`; otherwise it carries the moved names resolved in the auto-move directory |
| PollerProperties.FoundEachOnlyFileFound | src/main/java/org/sadun/util/polling/DirectoryPoller.java:823-831 | the `FileFound` loop adds `FileFound` signals and nothing else, and leaves early only on a shutdown request |
| PollerProperties.MovePrefix | src/main/java/org/sadun/util/polling/DirectoryPoller.java:631-802 | the leading run of move signals of a log: all moves, and the next signal, if any, is not one |
| PollerProperties.MovePrefixSplit | src/main/java/org/sadun/util/polling/DirectoryPoller.java:631-818 | move signals followed by a non-move signal have exactly the moves as leading run |
| PollerProperties.LookupTailCompose | src/main/java/org/sadun/util/polling/DirectoryPoller.java:631-857 | move signals, then an optional `FileSetFound` and `FileFound` signals, then `DirectoryLookupEnd` when ended, make up the rest of a lookup |
| PollerProperties.AnnounceLog | src/main/java/org/sadun/util/polling/DirectoryPoller.java:814-857 | the announcement adds an optional `FileSetFound` then `FileFound` signals; it ends with `DirectoryLookupEnd` when the lookup goes on and returns only on a shutdown request |
| PollerProperties.TailFromPhases | src/main/java/org/sadun/util/polling/DirectoryPoller.java:631-857 | a log extended by move signals and then by an announcement (and its end) is the rest of a lookup |
| PollerProperties.AutoMovedSignals | src/main/java/org/sadun/util/polling/DirectoryPoller.java:580-857 | with auto-move, the sweep sends nothing, the moves send move signals, then the announcement follows; a return only on a shutdown request |
| PollerProperties.LookupBodySignals | src/main/java/org/sadun/util/polling/DirectoryPoller.java:558-857 | after its start a lookup sends what the grammar allows, and returns only on a shutdown request |
| PollerProperties.LookupSignals | src/main/java/org/sadun/util/polling/DirectoryPoller.java:549-857 | one lookup sends `DirectoryLookupStart(dir)`, the moves, the announcement and, exactly when it goes on, `DirectoryLookupEnd(dir)` |
| PollerProperties.LookupLogsEach | src/main/java/org/sadun/util/polling/DirectoryPoller.java:549-859 | lookup j of a run is a lookup of directory j, ended unless it is the last and the last did not end |
| PollerProperties.ReportStep | src/main/java/org/sadun/util/polling/DirectoryPoller.java:549-859 | one more lookup after a run of lookups that all went on extends the run by its signals |
| PollerProperties.LookupAllSignals | src/main/java/org/sadun/util/polling/DirectoryPoller.java:549-859 | the loop over the first k directories sends one lookup per directory reached, in order, all ended but a last one cut short by a return or throw, and returns only on a shutdown request |
| PollerProperties.CycleSignals | src/main/java/org/sadun/util/polling/DirectoryPoller.java:543-863 | a cycle sends `CycleStart`, one lookup per directory reached in order, then `CycleEnd` with the new base times only when every lookup ended; CycleEnd is missing only on a shutdown request or an exception, and an exception always cuts a lookup short |
| PollerProperties.QuietLookups | src/main/java/org/sadun/util/polling/DirectoryPoller.java:552-857 | two signals, a start and an end, per directory |
| PollerProperties.QuietLookupAll | src/main/java/org/sadun/util/polling/DirectoryPoller.java:549-859 | the lookup loop over directories that list nothing sends just those signals, leaves the disk alone and does not stop |
| PollerProperties.QuietCycleLog | src/main/java/org/sadun/util/polling/DirectoryPoller.java:543-863 | a cycle over empty directories logs `CycleStart`, a start and an end per directory, then `CycleEnd`, and leaves the disk alone |
| PollerProperties.ShutdownBeforeCycle | src/main/java/org/sadun/util/polling/DirectoryPoller.java:544-548 | a cycle that starts with shutdown requested does nothing |
| PollerProperties.NoLowerTransitive | src/main/java/org/sadun/util/polling/DirectoryPoller.java:843-849 | the never-lower relation on base times is transitive |
| PollerProperties.WatermarkOfLookup | src/main/java/org/sadun/util/polling/DirectoryPoller.java:836-856 | without a time filter the base times stay; in polling-time mode base time i becomes the lookup time; in modification-time mode the max of the old value and the announced mtimes |
| PollerProperties.LookupNoLower | src/main/java/org/sadun/util/polling/DirectoryPoller.java:836-856 | in modification-time mode a lookup never lowers a base time |
| PollerProperties.AnnounceNoLower | src/main/java/org/sadun/util/polling/DirectoryPoller.java:836-856 | announcing never lowers a base time in modification-time mode |
| PollerProperties.LookupAllNoLower | src/main/java/org/sadun/util/polling/DirectoryPoller.java:549-859 | the lookup loop never lowers a base time in modification-time mode |
| PollerProperties.CycleNoLower | src/main/java/org/sadun/util/polling/DirectoryPoller.java:836-856 | unless the base time is the lookup time, a cycle never lowers any base time |
| PollerProperties.OrphanMarkerDeleted | src/main/java/org/sadun/util/polling/DirectoryPoller.java:593-600 | a marker whose original is absent is deleted and not acted on |
| PollerProperties.NoDelayKeepsMarkers | src/main/java/org/sadun/util/polling/DirectoryPoller.java:601 | with no delay configured, markers of present files are left alone |
| PollerProperties.MissingActionThrows | src/main/java/org/sadun/util/polling/DirectoryPoller.java:609 | an acted-on marker without an `action` key ends the cycle with a `NullPointerException` |
| PollerProperties.PollerExpiryInverted | src/main/java/org/sadun/util/polling/DirectoryPoller.java:888-892 | the poller's expiry holds for markers younger than the delay, the manager's for older ones, and never both |
| PollerProperties.PendingIgnoresMarker | src/main/java/org/sadun/util/polling/DirectoryPoller.java:882-886 | the poller's pending test answers the same whatever the marker holds |
| PollerProperties.ScanDirWhenRootsExist | src/main/java/org/sadun/util/polling/DirectoryPoller.java:918-931 | when every polled directory exists, a path counts as a polled root iff it is in the list |
| PollerProperties.MissingRootHidesLater | src/main/java/org/sadun/util/polling/DirectoryPoller.java:918-931 | a missing polled directory hides every root listed after it |
| Poller.DirectoryPoller.constructor | src/main/java/org/sadun/util/polling/DirectoryPoller.java:246-266 | on directories `setDirectories` accepts, the defaults of `Initial`: the given directories with zero base times, the directory filter over the user's (in a time filter when asked), 10 s interval, base time from the last lookup, everything else off or empty |
| Poller.NewDirectoryPoller | src/main/java/org/sadun/util/polling/DirectoryPoller.java:246-266 | a null array raises `NullPointerException`; otherwise the first null entry or non-directory raises what `setDirectories` raises; a list that passes gives a fresh poller in its `Initial` state |
| Poller.DirectoryPoller.SetThreadState | src/main/java/org/sadun/util/polling/DirectoryPoller.java:521-523 | the thread's alive and sleeping flags change and nothing else |
| Poller.DirectoryPoller.SetDirectories | src/main/java/org/sadun/util/polling/DirectoryPoller.java:310-324 | refused while alive and not sleeping; null is ignored; otherwise the validated list with zeroed base times, or the validation's exception |
| Poller.DirectoryPoller.AddDirectory | src/main/java/org/sadun/util/polling/DirectoryPoller.java:276-288 | a polled directory is not added again; otherwise it is appended through `setDirectories`, with every base time restarting at 0; a refusal (`IllegalStateException` while running, `IllegalArgumentException` for a non-directory) keeps the list and the base times |
| Poller.DirectoryPoller.RemoveDirectory | src/main/java/org/sadun/util/polling/DirectoryPoller.java:290-308 | a failed copy (the directory absent) is the error; a present directory on a running, non-sleeping poller raises `IllegalStateException`; otherwise one occurrence is dropped when the others are still directories (`IllegalArgumentException` if not), and two leave a null that raises `NullPointerException`, or `IllegalArgumentException` when another entry is no longer a directory; a removal restarts every base time at 0, and a refusal leaves the list and the base times alone |
| Poller.DirectoryPoller.CheckIfManaged | src/main/java/org/sadun/util/polling/DirectoryPoller.java:364-373 | succeeds iff the directory is polled |
| Poller.DirectoryPoller.SetAutoMoveDirecetory | src/main/java/org/sadun/util/polling/DirectoryPoller.java:357-362 | records the auto-move directory of a polled directory, refuses any other |
| Poller.DirectoryPoller.SetAutoMoveDirectory | src/main/java/org/sadun/util/polling/DirectoryPoller.java:348-355 | refused once the thread is alive, otherwise as above |
| Poller.DirectoryPoller.GetAutoMoveDirectory | src/main/java/org/sadun/util/polling/DirectoryPoller.java:338-346 | the recorded directory, or `received` inside the polled one, recorded on first use |
| Poller.DirectoryPoller.SetAutoMove | src/main/java/org/sadun/util/polling/DirectoryPoller.java:330-332 | sets the flag |
| Poller.DirectoryPoller.SetTimeBased | src/main/java/org/sadun/util/polling/DirectoryPoller.java:383-395 | afterwards the filter is time-based iff asked; an existing filter of the right kind is kept |
| Poller.DirectoryPoller.SetPollingTimeBased | src/main/java/org/sadun/util/polling/DirectoryPoller.java:429-435 | polling-time mode is time-based and the flag set |
| Poller.DirectoryPoller.IsPollingTimeBased | src/main/java/org/sadun/util/polling/DirectoryPoller.java:429-431 | implies time-based; with a time-based filter it is the flag `timeBasedOnLastLookup` |
| Poller.DirectoryPoller.SetBaseTime | src/main/java/org/sadun/util/polling/DirectoryPoller.java:401-410 | sets the base time of the first matching directory, or refuses an unpolled one |
| Poller.DirectoryPoller.SetAllBaseTimes | src/main/java/org/sadun/util/polling/DirectoryPoller.java:412-417 | the base times become those of `AllBaseTimesSet` |
| Poller.DirectoryPoller.GetBaseTime | src/main/java/org/sadun/util/polling/DirectoryPoller.java:419-427 | the base time of the first matching directory, or `IllegalArgumentException` |
| Poller.DirectoryPoller.SetSendSingleFileEvent | src/main/java/org/sadun/util/polling/DirectoryPoller.java:437-439 | sets the flag |
| Poller.DirectoryPoller.SetPollInterval | src/main/java/org/sadun/util/polling/DirectoryPoller.java:449-451 | sets the interval |
| Poller.DirectoryPoller.SetPostProcessDelayMinutes | src/main/java/org/sadun/util/polling/DirectoryPoller.java:457-459 | sets the delay |
| Poller.DirectoryPoller.SetStartBySleeping | src/main/java/org/sadun/util/polling/DirectoryPoller.java:461-463 | sets the flag |
| Poller.DirectoryPoller.SetFilesSortComparator | src/main/java/org/sadun/util/polling/DirectoryPoller.java:949-951 | sets the comparator |
| Poller.DirectoryPoller.SetBypassLockedFiles | src/main/java/org/sadun/util/polling/DirectoryPoller.java:957-959 | sets the flag |
| Poller.DirectoryPoller.SetFilter | src/main/java/org/sadun/util/polling/DirectoryPoller.java:937-943 | refused once alive, otherwise sets the filter |
| Poller.DirectoryPoller.AddPollManager | src/main/java/org/sadun/util/polling/DirectoryPoller.java:469-472 | the manager joins the end of the list |
| Poller.DirectoryPoller.Shutdown | src/main/java/org/sadun/util/polling/DirectoryPoller.java:474-480 | the shutdown flag is set |
| Poller.DirectoryPoller.IsShuttingDown | src/main/java/org/sadun/util/polling/DirectoryPoller.java:482-484 | true exactly when a shutdown was requested |
| Poller.DirectoryPoller.NotifySignal | src/main/java/org/sadun/util/polling/DirectoryPoller.java:539-541 | the state after is `Notify` of the state before |
| Poller.DirectoryPoller.IsScanDirectory | src/main/java/org/sadun/util/polling/DirectoryPoller.java:918-931 | the loop answers `IsScanDir`, the loop ended by a missing root |
| Poller.DirectoryPoller.RemovePostProcessMarker | src/main/java/org/sadun/util/polling/DirectoryPoller.java:910-916 | true with the disk unchanged when there is no marker, otherwise the result of deleting it |
| Poller.DirectoryPoller.CheckFile | src/main/java/org/sadun/util/polling/DirectoryPoller.java:706-733 | the size map becomes `NextSizes`, and the answer is whether the file was stable |
| Poller.DirectoryPoller.CheckStability | src/main/java/org/sadun/util/polling/DirectoryPoller.java:706-733 | the loop over the files to check yields `CheckedSizes`, and proceeds iff all were stable |
| Poller.DirectoryPoller.ClearMarker | src/main/java/org/sadun/util/polling/DirectoryPoller.java:747-750 | the state after is `MarkerCleared` |
| Poller.DirectoryPoller.AnnounceMove | src/main/java/org/sadun/util/polling/DirectoryPoller.java:752-790 | the state after is `Announced` |
| Poller.DirectoryPoller.RelocateFile | src/main/java/org/sadun/util/polling/DirectoryPoller.java:742-790 | the state and moved names are those of `Relocate` |
| Poller.DirectoryPoller.ExamineCandidate | src/main/java/org/sadun/util/polling/DirectoryPoller.java:651-801 | the state, moved names and exception are those of `Examine` |
| Poller.DirectoryPoller.TryMoveFile | src/main/java/org/sadun/util/polling/DirectoryPoller.java:631-802 | the state, moved names and exception are those of `TryMove` |
| Poller.DirectoryPoller.TryAllCandidates | src/main/java/org/sadun/util/polling/DirectoryPoller.java:631-802 | the auto-move loop yields `TryAll` |
| Poller.DirectoryPoller.SweepMarker | src/main/java/org/sadun/util/polling/DirectoryPoller.java:592-627 | handling one marker yields `SweepOne` |
| Poller.DirectoryPoller.SweepMarkers | src/main/java/org/sadun/util/polling/DirectoryPoller.java:591-628 | the marker loop yields `SweepAll` |
| Poller.DirectoryPoller.SendFileFound | src/main/java/org/sadun/util/polling/DirectoryPoller.java:823-831 | the `FileFound` loop yields `FoundEach` |
| Poller.DirectoryPoller.RaiseBaseTime | src/main/java/org/sadun/util/polling/DirectoryPoller.java:843-849 | only base time i changes, to `MaxModified` |
| Poller.DirectoryPoller.AnnounceFiles | src/main/java/org/sadun/util/polling/DirectoryPoller.java:814-858 | the end of a lookup yields `Announce` |
| Poller.DirectoryPoller.LookupDirectory | src/main/java/org/sadun/util/polling/DirectoryPoller.java:549-858 | one lookup yields `Lookup` |
| Poller.DirectoryPoller.AutoMoveFiles | src/main/java/org/sadun/util/polling/DirectoryPoller.java:580-818 | the auto-move part of a lookup yields `AutoMoved` |
| Poller.DirectoryPoller.RunCycle | src/main/java/org/sadun/util/polling/DirectoryPoller.java:543-863 | `runCycle` yields `Cycle`: `CycleStart`, the lookup loop, and `CycleEnd` when the loop went on without shutdown, leaving the configuration and the other fields alone |
| Poller.DirectoryPoller.LookupNext | src/main/java/org/sadun/util/polling/DirectoryPoller.java:549-858 | once the first i lookups have continued, looking up directory i leaves exactly the state and exit of `LookupAll` over the first i + 1 directories |
| Poller.DirectoryPoller.LookupDirectories | src/main/java/org/sadun/util/polling/DirectoryPoller.java:549-859 | the loop over the polled directories yields `LookupAll` over all of them, left at the first lookup that returns or throws |
| Poller.DirectoryPoller.PrepareAutoMoveDirectory | src/main/java/org/sadun/util/polling/DirectoryPoller.java:496-509 | preparing one directory yields `PrepareOne` |
| Poller.DirectoryPoller.PrepareAutoMoveDirectories | src/main/java/org/sadun/util/polling/DirectoryPoller.java:495-510 | the prologue loop yields `Prepare` |
| Poller.DirectoryPoller.PrepareRun | src/main/java/org/sadun/util/polling/DirectoryPoller.java:486-512 | the prologue of `run` yields `Started` |
| Poller.DirectoryPoller.Run | src/main/java/org/sadun/util/polling/DirectoryPoller.java:486-537 | `run` is the prologue then `Cycles`, the first cycle skipped when starting by sleeping; of the fields outside the cycles' state only `startBySleeping` changes, cleared once the prologue succeeds |
| PostProcessMarkers.MarkerNameRoundTrip | src/main/java/org/sadun/util/PostProcessMarkerManager.java:37-39 | the marker of a name is a marker name, and stripping it gives the name back |
| PostProcessMarkers.MarkerFile | src/main/java/org/sadun/util/PostProcessMarkerManager.java:37-39 | the marker sits in the file's directory, its name is `.~name~`, and it is never the file itself |
| PostProcessMarkers.MarkerOfOriginalName | src/main/java/org/sadun/util/polling/DirectoryPoller.java:588-594 | every name the sweep takes for a marker is the marker of the non-empty name it strips to |
| PostProcessMarkers.LastDefinition | src/main/java/org/sadun/util/PostProcessMarkerManager.java:58-63 | the last line defining the key, with no later one, or -1 |
| PostProcessMarkers.ParseMarkerLinesLastWins | src/main/java/org/sadun/util/PostProcessMarkerManager.java:54-68 | a key is in the map iff some line defines it, and its value is that of the last such line |
| PostProcessMarkers.MarkerLineRoundTrip | src/main/java/org/sadun/util/PostProcessMarkerManager.java:59-61 | a `key=value` line with `=` free key reads back as that one pair, the value keeping any `=` |
| PostProcessMarkers.ReadPostProcessFile | src/main/java/org/sadun/util/PostProcessMarkerManager.java:54-68 | the reading loop yields the map of the marker's lines, empty when unreadable |
| PostProcessMarkers.PostProcessMarkerManager.constructor | src/main/java/org/sadun/util/PostProcessMarkerManager.java:18-20 | the default delay is 0 minutes |
| PostProcessMarkers.PostProcessMarkerManager.WithDelay | src/main/java/org/sadun/util/PostProcessMarkerManager.java:23-25 | the delay is the one given |
| PostProcessMarkers.PostProcessMarkerManager.SetPostProcessDelayMinutes | src/main/java/org/sadun/util/PostProcessMarkerManager.java:28-35 | the delay read back is the one set |
| PostProcessMarkers.PostProcessMarkerManager.DelayMillis | src/main/java/org/sadun/util/PostProcessMarkerManager.java:48 | the delay in milliseconds fits a long |
| PostProcessMarkers.PostProcessMarkerManager.RemovePostProcessMarker | src/main/java/org/sadun/util/PostProcessMarkerManager.java:70-76 | true with the disk unchanged when there is no marker, otherwise the delete's result; the file itself is never touched |
| PostProcessMarkers.PostProcessMarkerManager.IsPostProcessFileExpired | src/main/java/org/sadun/util/PostProcessMarkerManager.java:47-52 | with a delay below 1 ms every marker is expired; otherwise only an existing, non-empty marker file can be |
| PostProcessMarkers.PostProcessMarkerManager.PostProcessDelayPending | src/main/java/org/sadun/util/PostProcessMarkerManager.java:41-45 | pending only with a delay; with a delay, a file whose marker is missing stays pending |
| PostProcessMarkers.NoDelayNeverPending | src/main/java/org/sadun/util/PostProcessMarkerManager.java:47-52 | with a delay below one minute nothing is pending |
| PostProcessMarkers.PendingUntilMarkerAged | src/main/java/org/sadun/util/PostProcessMarkerManager.java:41-52 | with a delay, pending iff the marker is not an existing, readable, non-empty file older than the delay; no marker means pending |
| PostProcessMarkers.RemoveMarkerIdempotent | src/main/java/org/sadun/util/PostProcessMarkerManager.java:70-76 | removing twice succeeds the second time, and the original is left in place |
| Pipeline.Success | src/main/java/com/levelsbeyond/jpoller/BasePollManager.java:309-311 | a success carries the file, is successful and has no exception |
| Pipeline.Fail | src/main/java/com/levelsbeyond/jpoller/BasePollManager.java:313-315 | a failure carries the file and the given exception and is not successful |
| Pipeline.Processed | src/main/java/com/levelsbeyond/jpoller/BasePollManager.java:223-233 | the hook's result, or a failure of the file carrying what the hook threw |
| Pipeline.Lazy | src/main/java/com/levelsbeyond/jpoller/BasePollManager.java:57-86 | a folder already fixed is returned as is; otherwise `base/name` is created and returned |
| Pipeline.AfterComplete | src/main/java/com/levelsbeyond/jpoller/BasePollManager.java:142-164 | completing touches neither the failed nor the working folder field |
| Pipeline.AfterFail | src/main/java/com/levelsbeyond/jpoller/BasePollManager.java:172-196 | failing touches neither the completed nor the working folder field |
| Pipeline.LogApart | src/main/java/com/levelsbeyond/jpoller/BasePollManager.java:176-190 | the failed file and its `.log` are distinct and neither lies below the other |
| Pipeline.AfterCall | src/main/java/com/levelsbeyond/jpoller/BasePollManager.java:263-283 | a task touches neither the completed nor the failed folder field |
| Pipeline.AfterCalls | src/main/java/com/levelsbeyond/jpoller/BasePollManager.java:198-205 | one result per file of the event |
| Pipeline.StartRefusal | src/main/java/com/levelsbeyond/jpoller/BasePollManager.java:118-131 | "Watch folder is null", then "not a valid directory", then what `doValidate` throws, and only then the message-less `IllegalArgumentException` of `newFixedThreadPool` for a pool size below 1; nothing is refused otherwise |
| Pipeline.PipelineManager.constructor | src/main/java/com/levelsbeyond/jpoller/BasePollManager.java:35-108 | the field defaults: one concurrent task, no folders yet, no delete-on-success, 30 s interval |
| Pipeline.PipelineManager.SetWatchFolder | src/main/java/com/levelsbeyond/jpoller/BasePollManager.java:37-43 | the watch folder read back is the one set |
| Pipeline.PipelineManager.SetMaxConcurrent | src/main/java/com/levelsbeyond/jpoller/BasePollManager.java:47-53 | the maximum read back is the one set |
| Pipeline.PipelineManager.SetDeleteOnSuccess | src/main/java/com/levelsbeyond/jpoller/BasePollManager.java:94-96 | sets the flag |
| Pipeline.PipelineManager.SetValidExtensions | src/main/java/com/levelsbeyond/jpoller/BasePollManager.java:100-106 | the extensions read back are the ones set |
| Pipeline.PipelineManager.SetPollIntervalSeconds | src/main/java/com/levelsbeyond/jpoller/BasePollManager.java:110-116 | the interval read back is the one set |
| Pipeline.PipelineManager.ValidateAndStart | src/main/java/com/levelsbeyond/jpoller/BasePollManager.java:118-136 | throws `StartRefusal` of the settings, what `doValidate` throws and the pool size, and starts exactly when nothing was thrown |
| Pipeline.PipelineManager.GetCompletedFolder | src/main/java/com/levelsbeyond/jpoller/BasePollManager.java:57-64 | `Lazy` on the completed folder, which stays fixed |
| Pipeline.PipelineManager.GetFailedFolder | src/main/java/com/levelsbeyond/jpoller/BasePollManager.java:68-75 | `Lazy` on the failed folder, which stays fixed |
| Pipeline.PipelineManager.GetWorkingFolder | src/main/java/com/levelsbeyond/jpoller/BasePollManager.java:79-86 | `Lazy` on the working folder, which stays fixed |
| Pipeline.PipelineManager.Complete | src/main/java/com/levelsbeyond/jpoller/BasePollManager.java:142-164 | the state after is `AfterComplete` |
| Pipeline.PipelineManager.FailFile | src/main/java/com/levelsbeyond/jpoller/BasePollManager.java:172-196 | the state after is `AfterFail` |
| Pipeline.PipelineManager.Call | src/main/java/com/levelsbeyond/jpoller/BasePollManager.java:263-283 | the state and result are those of `AfterCall` |
| Pipeline.PipelineManager.ProcessingCompleted | src/main/java/com/levelsbeyond/jpoller/BasePollManager.java:235-250 | the state after is `AfterCompleted` |
| Pipeline.PipelineManager.FileSetFound | src/main/java/com/levelsbeyond/jpoller/BasePollManager.java:198-220 | before a successful `validateAndStart` an event with files throws `NullPointerException` (no executor to submit to) and changes nothing; otherwise the loop over the event's files yields `AfterCalls` |
| Pipeline.PipelineManager.FileFound | src/main/java/com/levelsbeyond/jpoller/BasePollManager.java:207-220 | before a successful `validateAndStart` it throws `NullPointerException` and changes nothing; otherwise one task for the file, as `AfterCall` |
| Pipeline.PipelineManager.CollectResults | src/main/java/com/levelsbeyond/jpoller/BasePollManager.java:318-337 | the collector over the finished results yields `AfterResults` |
| Pipeline.FoldersFixedOnFirstAccess | src/main/java/com/levelsbeyond/jpoller/BasePollManager.java:57-86 | the folder is `base/name` on first access and unchanged, with the disk untouched, afterwards |
| Pipeline.CompleteVanished | src/main/java/com/levelsbeyond/jpoller/BasePollManager.java:143-146 | completing a missing file changes nothing |
| Pipeline.CompleteMovesIntoCompleted | src/main/java/com/levelsbeyond/jpoller/BasePollManager.java:150-163 | without delete-on-success a movable file ends up as `completed/name` with its contents, the old one gone, and completing again changes nothing |
| Pipeline.CompleteDeletes | src/main/java/com/levelsbeyond/jpoller/BasePollManager.java:147-149 | with delete-on-success a deletable file is gone |
| Pipeline.FailMovesIntoFailed | src/main/java/com/levelsbeyond/jpoller/BasePollManager.java:172-186 | a movable failed file ends up as `failed/name` with its contents, the source gone |
| Pipeline.FailWritesLog | src/main/java/com/levelsbeyond/jpoller/BasePollManager.java:187-195 | with an exception, `failed/name.log` holds its message (or "null") and stack trace |
| Pipeline.FailWithoutExceptionWritesNoLog | src/main/java/com/levelsbeyond/jpoller/BasePollManager.java:176-187 | without an exception no log is written; one remains only if the old log could not be deleted |
| Pipeline.CallMoveRefused | src/main/java/com/levelsbeyond/jpoller/BasePollManager.java:271-277 | a source that cannot be renamed into the working folder yields `Result.fail(source, "Unable to move …")` and the hook is not run |
| Pipeline.CallProcessesWorkingCopy | src/main/java/com/levelsbeyond/jpoller/BasePollManager.java:264-283 | a moved source is processed as `working/name`, whose exception becomes a failure of that copy |
| Pipeline.ResultRouting | src/main/java/com/levelsbeyond/jpoller/BasePollManager.java:235-250 | success routes to `complete`, failure to `fail` with the result's exception, no file to nothing |
| Pipeline.ResultsCompose | src/main/java/com/levelsbeyond/jpoller/BasePollManager.java:318-337 | collecting two batches in turn is collecting them at once |
| Pipeline.FilelessResultsIgnored | src/main/java/com/levelsbeyond/jpoller/BasePollManager.java:237-239 | results without a file leave everything as it was |
| Listener.Receive | src/main/java/org/sadun/util/polling/DefaultListener.java:34-71 | shutting down, nothing is called; otherwise each lifecycle signal calls the callback of its own event, and any other signal raises |
| Listener.ReceiveReachesEveryCallback | src/main/java/org/sadun/util/polling/DefaultListener.java:41-68 | each of the seven lifecycle callbacks is reached from exactly its signal |
| Listener.ReceiveException | src/main/java/org/sadun/util/polling/DefaultListener.java:73-91 | a delete failure calls only `exceptionDeletingTargetFile(dest)`; any other move failure `exceptionMovingFile(origin, dest)`; others raise |
| Listener.DeliveredOnePerSignal | src/main/java/org/sadun/util/polling/DefaultListener.java:34-91 | a log free of foreign signals reaches the manager as one callback per signal |
| Suspendable.PassedOn | src/main/java/org/sadun/util/polling/pollmanagers/SuspendablePollManager.java:52-96 | the wrapped manager never receives more calls than were made |
| Suspendable.ActiveForwardsAll | src/main/java/org/sadun/util/polling/pollmanagers/SuspendablePollManager.java:52-96 | not suspended, every call is forwarded unchanged and in order |
| Suspendable.SuspendedForwardsExceptionsOnly | src/main/java/org/sadun/util/polling/pollmanagers/SuspendablePollManager.java:52-96 | suspended, only the exception calls get through, and only with exception processing on |
| Suspendable.SuspendablePollManager.constructor | src/main/java/org/sadun/util/polling/pollmanagers/SuspendablePollManager.java:42-46 | starts not suspended with the given exception setting |
| Suspendable.SuspendablePollManager.Wrapping | src/main/java/org/sadun/util/polling/pollmanagers/SuspendablePollManager.java:48-50 | the one-argument constructor turns exception processing off |
| Suspendable.SuspendablePollManager.Handle | src/main/java/org/sadun/util/polling/pollmanagers/SuspendablePollManager.java:52-96 | a call is appended to what the wrapped manager received exactly when the state passes it |
| Suspendable.SuspendablePollManager.SetSuspended | src/main/java/org/sadun/util/polling/pollmanagers/SuspendablePollManager.java:98-104 | the state read back is the one set |
| MovedFiles.DetectIsOriginal | src/main/java/org/sadun/util/MovedFile.java:166-175 | raises, naming both paths, iff both exist; otherwise original iff the original exists |
| MovedFiles.MovedFile.constructor | src/main/java/org/sadun/util/MovedFile.java:49-53 | both paths and the state are stored verbatim, autosync off |
| MovedFiles.MovedFile.SetAutosync | src/main/java/org/sadun/util/MovedFile.java:71-73 | sets autosync only |
| MovedFiles.MovedFile.Sync | src/main/java/org/sadun/util/MovedFile.java:132-134 | the state becomes what detection answers; when detection raises, that exception is returned and the state kept |
| MovedFiles.MovedFile.Invert0 | src/main/java/org/sadun/util/MovedFile.java:94-99 | renames original to destination when original, the other way otherwise, answering the rename |
| MovedFiles.MovedFile.Invert | src/main/java/org/sadun/util/MovedFile.java:89-92 | always fails: with autosync a detection error first, otherwise the call to itself overflows the stack (after a sync under autosync) |
| MovedFiles.MovedFile.Revert | src/main/java/org/sadun/util/MovedFile.java:108-112 | under autosync a detection error is returned with nothing changed; otherwise, on the state detected (or believed without autosync), raises "File already reverted:" with the original's path when original, else renames destination back to original |
| MovedFiles.MovedFile.MoveAgain | src/main/java/org/sadun/util/MovedFile.java:121-125 | under autosync a detection error is returned with nothing changed; otherwise, on the state detected (or believed), raises "File already moved:" with the destination's path when moved, else renames original to destination |
| MovedFiles.MovedFile.IsMoved | src/main/java/org/sadun/util/MovedFile.java:141-144 | `!isOriginal`; under autosync the state is first re-detected (or the detection's exception returned); autosync is kept |
| MovedFiles.NewDetectedMovedFile | src/main/java/org/sadun/util/MovedFile.java:62-64 | the state is the detected one, or the detection's exception |
| MovedFiles.MovedFileOf | source/org/sadun/util/polling/FileMovedEvent.java:48-50 | a fresh `MovedFile(original, destination, false)`, which reports moved |
| Events.NewFileSetFoundEvent | src/main/java/org/sadun/util/polling/FileSetFoundEvent.java:32-37 | the directory is `dir`, and file i is `dir/names[i]`, same length and order |
| Events.NextSequenceNumber | src/main/java/org/sadun/util/polling/CoreSequenceNumberGenerator.java:31-33 | `seqNo++` on a long: plus one, wrapping at the top |
| Events.Issued | src/main/java/org/sadun/util/polling/CoreSequenceNumberGenerator.java:29-33 | every number handed out fits a long |
| Events.IssuedIsCallCount | src/main/java/org/sadun/util/polling/CoreSequenceNumberGenerator.java:29-33 | the number handed out by call k of a fresh generator is k, while k fits a long |
| Events.IssuedIncreasing | src/main/java/org/sadun/util/polling/CoreSequenceNumberGenerator.java:31-33 | numbers handed out strictly increase, hence are unique, until the long wraps |
| Events.CoreSequenceNumberGenerator.constructor | src/main/java/org/sadun/util/polling/CoreSequenceNumberGenerator.java:29 | the counter starts at 0 |
| Events.CoreSequenceNumberGenerator.GetNextSequenceNumber | src/main/java/org/sadun/util/polling/CoreSequenceNumberGenerator.java:31-33 | returns the counter and advances it by `NextSequenceNumber` |
| Comparators.ComputeResultFromValue | source/org/sadun/util/BidirectionalComparator.java:59-61 | in {-1, 0, 1}, 0 iff the value is 0, the sign ascending and its opposite descending |
| Comparators.Compare | source/org/sadun/util/BidirectionalComparator.java:25-42 | non-`File` arguments raise a `RuntimeException` naming both classes; a bidirectional comparator answers -1, 0 or 1 |
| Comparators.BidirectionalCompare | source/org/sadun/util/BidirectionalComparator.java:25-42 | `checkTypes` raises for anything but two files, with the classes received in the message; otherwise -1, 0 or 1 |
| Comparators.CompareIsSign | source/org/sadun/util/BidirectionalComparator.java:59-61 | comparators built from bidirectional ones answer -1, 0 or 1 |
| Comparators.CompareAntisymmetric | source/org/sadun/util/BidirectionalComparator.java:37-42 | on a disk whose lengths and mtimes fit a long, swapping the files negates the answer and keeps the errors, through chains too |
| Comparators.ChainedAntisymmetric | src/main/java/org/sadun/util/ChainedComparator.java:48-52 | a chain of two antisymmetric comparators is antisymmetric |
| Comparators.BidirectionalAntisymmetric | source/org/sadun/util/BidirectionalComparator.java:37-42 | on such a disk a bidirectional comparator negates its answer when the objects swap, and refuses in both orders |
| Comparators.FilesAntisymmetric | source/org/sadun/util/BidirectionalComparator.java:37-42 | on such a disk swapping two files negates the answer of a bidirectional comparator |
| Comparators.NonFilesRefused | source/org/sadun/util/BidirectionalComparator.java:25-31 | anything but two files is refused in either order |
| Comparators.ResultNegates | source/org/sadun/util/BidirectionalComparator.java:59-61 | negating the value negates the result |
| Comparators.ValueAntisymmetric | src/main/java/org/sadun/util/polling/DirectoryPoller.java:77-97 | on such a disk swapping the files negates the comparison value |
| Comparators.DescendingReverses | source/org/sadun/util/BidirectionalComparator.java:59-61 | a descending comparator answers the opposite of its ascending twin |
| Comparators.ValueIgnoresDirection | source/org/sadun/util/BidirectionalComparator.java:51 | the comparison value does not depend on the direction |
| Comparators.ChainIsLexicographic | src/main/java/org/sadun/util/ChainedComparator.java:48-52 | a chain answers its first non-zero component, 0 iff all tie |
| Comparators.ChainedDescription | src/main/java/org/sadun/util/ChainedComparator.java:54-56 | `toString` is the first part, " then ", the second |
| Comparators.Describe | source/org/sadun/util/polling/GenericFileComparator.java:169-171 | the built-in comparators and a comparator with a property always have a description; the only failure, also inside a chain, is the `NullPointerException` of a comparator without a property |
| GenericFileComparators.LowerKeysAreReachable | source/org/sadun/util/polling/GenericFileComparator.java:72-79 | a property found under a lower-case key is one of the five a lower-cased token can name (not `canRead`, `canWrite`, the space getters) |
| GenericFileComparators.ParseTokens | source/org/sadun/util/polling/GenericFileComparator.java:68-96 | a parsed expression's property, if any, is one a lowered token can name |
| GenericFileComparators.NewSingleExprComparator | source/org/sadun/util/polling/GenericFileComparator.java:60-96 | the token loop of `parseSpec` yields `SingleExprOf` |
| GenericFileComparators.ParseTokensStep | source/org/sadun/util/polling/GenericFileComparator.java:71-94 | parsing one more token is one more step of the fold |
| GenericFileComparators.ErrorSticks | source/org/sadun/util/polling/GenericFileComparator.java:79-89 | once a prefix is refused the whole expression is |
| GenericFileComparators.ExpressionComparatorsLength | source/org/sadun/util/polling/GenericFileComparator.java:39-42 | one sub-comparator per expression |
| GenericFileComparators.NewExpressionComparators | source/org/sadun/util/polling/GenericFileComparator.java:37-42 | the first loop of the constructor yields `ExpressionComparators` |
| GenericFileComparators.ChainComparators | source/org/sadun/util/polling/GenericFileComparator.java:43-50 | the right fold yields `Chain`, the first expression most significant |
| GenericFileComparators.NewGenericFileComparator | source/org/sadun/util/polling/GenericFileComparator.java:35-51 | the constructor yields `GenericOf`, failing on a specification with no expression |
| GenericFileComparators.ExpressionsErrorSticks | source/org/sadun/util/polling/GenericFileComparator.java:39-42 | the first refused expression stops construction |
| GenericFileComparators.GenericIsLexicographic | source/org/sadun/util/polling/GenericFileComparator.java:230-232 | `compare` orders by the expressions in turn |
| GenericFileComparators.NoExpressionFails | source/org/sadun/util/polling/GenericFileComparator.java:43-45 | no `;`-token at all makes the constructor fail |
| GenericFileComparators.SpecificationKept | source/org/sadun/util/polling/GenericFileComparator.java:240-242 | `getSpecification` returns the constructor argument |
| GenericFileComparators.NameOrderIsReversed | source/org/sadun/util/polling/GenericFileComparator.java:150-154 | string properties compare as `s2.compareTo(s1)` |
| GenericFileComparators.BooleanPropertyFailsToCompare | source/org/sadun/util/polling/GenericFileComparator.java:155-159 | a boolean property parses but every comparison raises |
| GenericFileComparators.NoPropertyFailsToCompare | source/org/sadun/util/polling/GenericFileComparator.java:141-144 | an expression naming no property raises on compare |
| GenericFileComparators.SinglePropertyToken | source/org/sadun/util/polling/GenericFileComparator.java:70-93 | one property token reads that property, ascending |
| GenericFileComparators.SecondPropertyRefused | source/org/sadun/util/polling/GenericFileComparator.java:85-89 | a second property token raises `IllegalArgumentException`, even the same one |
| GenericFileComparators.UnknownTokenRefused | source/org/sadun/util/polling/GenericFileComparator.java:79-84 | a token that is neither a direction nor a key raises `IllegalArgumentException` |
| ManagedPolling.PathStrings | source/org/sadun/util/polling/ManagedDirectoryPoller.java:344-353 | one path string per directory, in order |
| ManagedPolling.DirectoryListSplitsBack | source/org/sadun/util/polling/ManagedDirectoryPoller.java:344-360 | the comma-joined list splits back into the directories' paths |
| ManagedPolling.AddedAllGrows | source/org/sadun/util/polling/ManagedDirectoryPoller.java:355-360 | setting a list only ever extends the directory list, keeps it free of duplicates, and changes nothing while busy |
| ManagedPolling.AddedAllHolds | source/org/sadun/util/polling/ManagedDirectoryPoller.java:355-360 | when accepted, every token's directory is controlled |
| ManagedPolling.ReaddedFrom | source/org/sadun/util/polling/ManagedDirectoryPoller.java:355-360 | adding the rest of a distinct list to its prefix rebuilds the list |
| ManagedPolling.SetOfGetRoundTrip | source/org/sadun/util/polling/ManagedDirectoryPoller.java:344-360 | setting the list written out by the getter on an empty poller gives the same directories |
| ManagedPolling.PresentFrom | source/org/sadun/util/polling/ManagedDirectoryPoller.java:355-360 | tokens naming held directories change nothing |
| ManagedPolling.SetOfCurrentUnchanged | source/org/sadun/util/polling/ManagedDirectoryPoller.java:344-360 | setting the current list changes nothing, even while running |
| ManagedPolling.Ids | source/org/sadun/util/polling/ManagedDirectoryPoller.java:376-388 | the identities of the installed managers, in order |
| ManagedPolling.Visible | source/org/sadun/util/polling/ManagedDirectoryPoller.java:362-374 | the managers listed are never the JMX notifications one |
| ManagedPolling.ListingHidesJmx | source/org/sadun/util/polling/ManagedDirectoryPoller.java:362-374 | the listing is the other managers' descriptions, one per line, in order |
| ManagedPolling.OnlyJmxListsNothing | source/org/sadun/util/polling/ManagedDirectoryPoller.java:362-374 | no managers reports "No poll managers installed"; only the JMX one lists nothing |
| ManagedPolling.GenericOrdering | source/org/sadun/util/polling/ManagedDirectoryPoller.java:623-626 | an accepted expression gives a generic comparator keeping it verbatim |
| ManagedPolling.OrderingReadsBack | source/org/sadun/util/polling/ManagedDirectoryPoller.java:614-638 | "by comparator class" changes nothing; a clearing expression reads back "none"; any other accepted one verbatim |
| ManagedPolling.OrderingOfReadingKept | source/org/sadun/util/polling/ManagedDirectoryPoller.java:614-638 | setting the ordering read back keeps no comparator and a class comparator as they are |
| ManagedPolling.NoneClears | source/org/sadun/util/polling/ManagedDirectoryPoller.java:616-621 | "none" clears and is not ignored |
| ManagedPolling.ClassNameKeeps | source/org/sadun/util/polling/ManagedDirectoryPoller.java:615 | "by comparator class" is ignored |
| ManagedPolling.ManagedDirectoryPoller.constructor | source/org/sadun/util/polling/ManagedDirectoryPoller.java:157-168 | a fresh managed poller: no thread, no timer, no pattern, no ordering, no managers |
| ManagedPolling.ManagedDirectoryPoller.SetManagedThreadAlive | source/org/sadun/util/polling/ManagedDirectoryPoller.java:302-306 | the thread's liveness changes only |
| ManagedPolling.ManagedDirectoryPoller.IsRunning | source/org/sadun/util/polling/ManagedDirectoryPoller.java:302-306 | never running before a managed thread was made; then, with a JMX timer, listening to timing events, otherwise the thread being alive |
| ManagedPolling.ManagedDirectoryPoller.StartUp | source/org/sadun/util/polling/ManagedDirectoryPoller.java:235-248 | succeeds iff there are directories and no prior start; a timer only sets the listening flag, otherwise a thread starts |
| ManagedPolling.ManagedDirectoryPoller.ShutDown | source/org/sadun/util/polling/ManagedDirectoryPoller.java:250-259 | with a timer stops listening; otherwise refused without a thread, else shuts the poller down; never running afterwards |
| ManagedPolling.ManagedDirectoryPoller.SetUsingJMXTimer | source/org/sadun/util/polling/ManagedDirectoryPoller.java:452-468 | refused only when leaving it off while the poller thread is alive |
| ManagedPolling.ManagedDirectoryPoller.SetJMXTimerObjectName | source/org/sadun/util/polling/ManagedDirectoryPoller.java:474-486 | "" is kept as null, and the name read back is the one set |
| ManagedPolling.ManagedDirectoryPoller.GetJMXTimerObjectName | source/org/sadun/util/polling/ManagedDirectoryPoller.java:474-477 | a non-empty answer is the stored name; "" exactly when the name is null (or empty) |
| ManagedPolling.ManagedDirectoryPoller.GetControlledDirectories | source/org/sadun/util/polling/ManagedDirectoryPoller.java:344-353 | the loop yields the paths joined by commas, none trailing |
| ManagedPolling.ManagedDirectoryPoller.GetControlledDirectory | source/org/sadun/util/polling/ManagedDirectoryPoller.java:311-319 | the i-th path, refused iff i is outside [0, count) |
| ManagedPolling.ManagedDirectoryPoller.CountControlledDirectories | source/org/sadun/util/polling/ManagedDirectoryPoller.java:298-300 | as many as `getControlledDirectories` lists paths |
| ManagedPolling.ManagedDirectoryPoller.AddControlledDirectory | source/org/sadun/util/polling/ManagedDirectoryPoller.java:291-293 | `addDirectory` of the parsed path: the result and list of `Added`; on the poller only the directories and base times change, the base times restarting at 0 exactly when the list grew and kept otherwise; liveness, the disk, the filter, the auto-move settings, the size map, the log and every other field are kept |
| ManagedPolling.ManagedDirectoryPoller.RemoveControlledDirectory | source/org/sadun/util/polling/ManagedDirectoryPoller.java:280-282 | `removeDirectory` of the parsed path, with the same cases keyed on the poller's state at the call: the copy's error, `IllegalStateException` while running, one occurrence dropped, two refused with the exception the null or a non-directory raises; every refusal keeps the list and base times, a removal zeroes the base times, and liveness, the disk and all other poller fields are kept |
| ManagedPolling.ManagedDirectoryPoller.SetControlledDirectories | source/org/sadun/util/polling/ManagedDirectoryPoller.java:355-360 | the token loop yields `AddedAll` over the non-empty comma tokens; `DirectoriesGrown` holds against the poller before the call (only the directories and base times changed, the list only grew, and the base times are 0 once it grew, kept otherwise), and liveness, the disk and the other fields are kept |
| ManagedPolling.ManagedDirectoryPoller.AddListedDirectory | source/org/sadun/util/polling/ManagedDirectoryPoller.java:357-358 | one token of that loop: `Added` on the parsed path, keeping `DirectoriesGrown` |
| ManagedPolling.ManagedDirectoryPoller.AddPollManager | source/org/sadun/util/polling/ManagedDirectoryPoller.java:376-388 | a second JMX notifications manager is refused; any other is appended |
| ManagedPolling.ManagedDirectoryPoller.ListInstalledPollManagers | source/org/sadun/util/polling/ManagedDirectoryPoller.java:362-374 | the loop yields `InstalledListing` |
| ManagedPolling.ManagedDirectoryPoller.SetFilter | source/org/sadun/util/polling/ManagedDirectoryPoller.java:553-562 | the pattern becomes the filter's even when the poller then refuses the filter |
| ManagedPolling.ManagedDirectoryPoller.SetFilenameFilterFactoryClass | source/org/sadun/util/polling/ManagedDirectoryPoller.java:502-517 | refused while running, with nothing changed; a null name changes nothing; the empty name installs the null filter and forgets the factory class, or is refused with `IllegalStateException` once the poller thread is alive (the pattern is cleared either way); any other name is recorded first, then the filter the factory created is installed, and the pattern becomes the one that filter carries; each refusal once the poller thread is alive throws `IllegalStateException` and keeps the installed filter |
| ManagedPolling.ManagedDirectoryPoller.SetAcceptedFilenamePattern | source/org/sadun/util/polling/ManagedDirectoryPoller.java:530-548 | accepted iff the poller thread is not alive (and, with a factory class and a non-empty pattern, the poller is not running); then the pattern reads back as set and the regexp filter, or for "" the null filter, is installed. With a factory class and a non-empty pattern: while running, `AlreadyRunning` with nothing changed; otherwise, once alive, `IllegalStateException` from dropping the factory, with the pattern cleared and the factory class and filter kept. Without that case, once alive, `IllegalStateException` with the filter kept |
| ManagedPolling.ManagedDirectoryPoller.GetAcceptedFilenamePattern | source/org/sadun/util/polling/ManagedDirectoryPoller.java:564-567 | the current pattern, or "" when it is null |
| ManagedPolling.ManagedDirectoryPoller.SetFilesSortComparator | src/main/java/org/sadun/util/polling/DirectoryPoller.java:949-951 | the ordering and the poller's comparator become the given one |
| ManagedPolling.ManagedDirectoryPoller.SetEventsOrdering | source/org/sadun/util/polling/ManagedDirectoryPoller.java:614-627 | the ordering becomes `OrderingAfter`, or the constructor's exception leaves it unchanged |
| ManagedPolling.ManagedDirectoryPoller.GetEventsOrdering | source/org/sadun/util/polling/ManagedDirectoryPoller.java:632-638 | "none" without a comparator, the specification of a generic comparator, "by comparator class" for any other |
| Notifications.Reverse | src/main/java/org/sadun/jmx/NotificationMonitor.java:34 | reversal keeps the length |
| Notifications.FillsThenRefuses | src/main/java/org/sadun/jmx/NotificationMonitor.java:29-35 | of a run of notifications the first `Kept` are stored newest first before the old ones; the rest are refused |
| Notifications.LogBounded | src/main/java/org/sadun/jmx/NotificationMonitor.java:29-35 | the log never grows beyond one more than the maximum |
| Notifications.HeadRounds | src/main/java/org/sadun/jmx/NotificationMonitor.java:78-90 | the first count rounds list the first count entries, one per line |
| Notifications.ErrorSticks | src/main/java/org/sadun/jmx/NotificationMonitor.java:78-90 | once a get is out of range, later rounds do not change the answer |
| Notifications.HeadLists | src/main/java/org/sadun/jmx/NotificationMonitor.java:92-94 | `head(n)` lists the first n entries for 0 ≤ n ≤ size, nothing for negative n, and fails beyond the size |
| Notifications.ListAllLines | src/main/java/org/sadun/jmx/NotificationMonitor.java:45-47 | `listNotifications` is every entry, newest first |
| Notifications.TailFails | src/main/java/org/sadun/jmx/NotificationMonitor.java:49-51 | `tail(n)` for n ≥ 1 reads index size first and fails |
| Notifications.NotificationMonitor.constructor | src/main/java/org/sadun/jmx/NotificationMonitor.java:21-22 | empty log, maximum 100 |
| Notifications.NotificationMonitor.HandleNotification | src/main/java/org/sadun/jmx/NotificationMonitor.java:29-35 | above the maximum it fails and adds nothing; otherwise the newest goes first |
| Notifications.NotificationMonitor.SetMaxLogSize | src/main/java/org/sadun/jmx/NotificationMonitor.java:37-43 | the maximum read back is the one set |
| Notifications.NotificationMonitor.GetMaxLogSize | src/main/java/org/sadun/jmx/NotificationMonitor.java:37-39 | the maximum; above it the next notification is refused, otherwise stored first |
| Notifications.NotificationMonitor.LogSize | src/main/java/org/sadun/jmx/NotificationMonitor.java:53-55 | 0 exactly when the log is empty; above the maximum every further notification is refused |
| Notifications.NotificationMonitor.CleanUp | src/main/java/org/sadun/jmx/NotificationMonitor.java:57-59 | the log size is 0 afterwards |
| Notifications.NotificationMonitor.List | src/main/java/org/sadun/jmx/NotificationMonitor.java:78-90 | the index loop yields `Listed` |
| Notifications.NotificationMonitor.Head | src/main/java/org/sadun/jmx/NotificationMonitor.java:92-94 | `list(n, true)` |
| Notifications.NotificationMonitor.Tail | src/main/java/org/sadun/jmx/NotificationMonitor.java:49-51 | `list(n, false)` |
| Notifications.NotificationMonitor.ListNotifications | src/main/java/org/sadun/jmx/NotificationMonitor.java:45-47 | every entry, one per line, newest first |

## Left out

- Threading. This covers the sleep/interrupt loop of `run`, the volatile
  flags, and signal delivery on a separate thread. `run` is modelled as a
  sequence of cycles; the external shutdown request is an input
  (`Env.stopAt`) that takes effect after a given number of signals.
- `Arrays.sort(fls, filesSortComparator)`: the listing oracle is taken as
  already in the order the sort would give.
- Regular-expression and user filename filters: these are oracles
  (`FilterOracle`). Filters made by a filter factory loaded by class name
  are left out for the same reason.
- Real filesystem calls. Disk calls run against the abstract node map;
  `Files.isSameFile` is path equality on an existing directory.
  `PathNormalizer` and `getCanonicalPath` are the identity on absolute
  paths. `tryLock` is an oracle (`LockOutcome`). `System.currentTimeMillis()`
  is one reading per cycle.
- Logging, debug output and `DefaultListener`'s debug printing.
  `BasePollManager.exceptionMovingFile` only logs, so it is not modelled.
- JMX plumbing:
  - MBean registration and `postRegister`'s notifications manager;
  - the timer's `handleNotification` (which only calls `runCycle`);
  - the notification-listener methods and `getNotificationInfo`.
- Class loading by name. This covers `setPollManagerFactoryClass`,
  `setFilesSortComparatorClass`, `setJMXSequenceNumberGeneratorClass` and
  the filter factory instantiation. `SetFilenameFilterFactoryClass` takes
  the factory's result as a parameter.
- `ManagedDirectoryPoller` string wrappers:
  - `listControlledDirectories`, because of its number formatting;
  - `getAutoMoveDirectoryPath`/`setAutoMoveDirectoryPath` and the string
    `setBaseTime`/`getBaseTime`, because they only convert and delegate
    to the modelled `DirectoryPoller` methods.
- Pipeline concurrency: the executor, `Future`s and the `ResultSniffer`
  thread. The pipeline works sequentially, and finished results are a
  sequence. `doProcess` and `doValidate` are parameters, and the hook is
  taken not to touch the disk.
- Stack traces. An exception's stack trace is a sequence of lines given
  with it, and the model leaves the trace of the exceptions it raises
  itself empty. The log's line separator is "\n".
- `GenericFileComparators`: the numeric branch (floating-point
  subtraction and truncation) is left out. The property table is the
  fixed set of `File` read methods.
- `BasePollManager`'s null base folder: reading it is modelled as the
  root.
- A null pattern in `setAcceptedFilenamePattern` is not modelled; the
  pattern is `Option<string>`, and "" is the empty string.
- Identity hashes in `toString` are left out.
- Listener.Receive: the `RuntimeException` for an unexpected signal
  carries the fixed text "Unexpected signal" only; the signal's
  `toString` (class name and identity hash) is not modelled.
- Listener.ReceiveException: likewise "Unexpected exception", without
  the exception's `toString`.
- Exception messages other than those of `RuntimeException`: the
  exception classes of `Outcomes` carry no message, so the texts of
  `IllegalArgumentException`, `IllegalStateException` and the others are
  not modelled.
- The property "a second cycle with no filesystem change emits no
  `FileSetFound`" is stated only for directories that list nothing
  (`PollerProperties.QuietCycleLog`). A file deferred by the stability
  check does move on the next cycle, as the tests expect.
- `Pipeline.FailMovesIntoFailed`: stated only for a file present on
  disk, the case in which the rename can succeed.
- Poller.DirectoryPoller.RemoveDirectory: the source's
  `IllegalArgumentException` for an absent directory is never reached,
  because the copy overruns first; `PollerDirectories.CopyComplete` shows
  that a copy that ends normally implies the directory was present.
- Duplicate copies under `source/` of classes modelled from `src/main/`:
  they have the same logic and are modelled once.
- `FIFOFileComparator`/`LIFOFileComparator` only fix a direction flag, so
  they are not modelled separately.
- Files.ParsePath: every path string is read as absolute, and
  `Files.PathString` prints it back with a leading "/". A relative
  `new File("a")` is not modelled, so the distinction that `File.equals`
  draws between "a" and its absolute form is not captured.
- Text.CompareTo: subtracts Unicode code points, while `String.compareTo`
  subtracts UTF-16 code units. The two differ once a supplementary
  character (a surrogate pair) meets a code unit above the surrogate range
  (U+E000 and up): "\U{1F600}" is greater than "\uFFFD" here and less in
  Java. This affects the name order of `GenericFileComparator`.
- Files.CanRename: a rename onto an existing target is refused.
  `File.renameTo` on POSIX replaces the target instead. This affects the
  moves of `Pipeline` (`complete`, `fail`, `call`) and of `MovedFile`.
- Text.ToLower: folds ASCII letters only. `String.toLowerCase()` follows
  the default locale (under a Turkish locale "ASCENDING" becomes
  "ascendıng"), which affects the order keyword of `GenericFileComparator`
  and the sort-order names of `ManagedDirectoryPoller`; locales are not
  modelled.
