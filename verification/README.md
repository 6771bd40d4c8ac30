# Verification of the ASTL cores

A Dafny model of the parts of ASTL that hold state or invariants worth proving: the read-handle cache, the
configuration scripts (minifier, reference pruner, tree walks), natural ordering, wall-clock correlation and
printing, the sample, start and group-expansion algorithms of the C API, the process lock, the API-change policy,
release preparation and coverage reading. `dafny verify dfyconfig.toml` checks the whole project.

## What is modelled

- **Read-handle cache** (`HandleCacheSpec`, `HandleCacheRuns`, `ReadHandleCache`). `ReadHandleCache` is the class with
  its list of usage nodes, its map from path to stream and iterator, and its trim and descriptor-exhaustion loops.
  `HandleCacheSpec` says on values what those methods do; `HandleCacheRuns` proves results over whole runs: LRU
  inclusion, least-recently-read order, and over an inode model which handle goes to which inode and exactly when a
  cached answer is the uncached one. The file system enters as a `World` value per call: what each name is bound to,
  what an inode holds, and which opens, rewinds and reads fail.
- **Minifier** (`JsonText`, `Minify`, `JsonLayout`). A JSON lexer and parser after RFC 8259 sections 2 to 7 gives texts a meaning; the
  minifier keeps it. The law is one of tokens and holds for any text: minifying runs adjacent words together (`1 2`
  becomes `12`) and changes no other token. Which value a minified text has, and exactly when a rejected text stays
  rejected, follow from it. `JsonLayout` comes from the other side: it writes trees out as tokens with any whitespace
  between them, and shows that lexer, parser and minifier undo exactly that.
- **Config closure** (`PosixPath`, `PruneReferences`). The pruner deletes from its documents in rounds; its result is
  the least fixed point of the exclusions, closed under references, and compared with the embedder's own check.
  Where a reference lands is said by walking from its owner's directory.
- **Tree walks** (`DirectoryWalk`, `Materialize`). Directories are known by what they resolve to; links may form cycles.
  The measure is the real directories that are not yet ancestors.
- **Natural ordering** (`NaturalOrder`), **wall clock** (`Calendar`, `WallClock`). Dates are counted month by month
  and compared with the closed form of the calendar.
- **C API algorithms** (`SampleRetrieval`, `AggregateStart`, `GroupExpansion`, `CleanConfigure`). The orchestrator's
  steps they rest on (start, rollback, the reset before a configuration and the flag that keeps it from being done
  twice, the two sample traversals) are modelled from `src/impl/orchestrator/orchestrator.cpp`. What collectors and
  the metric manager answer are parameters.
- **Process lock** (`LockKernel`, `ProcessLock`, `LockInterleavings`, `LockRuns`). A kernel with any number of lock
  files, one holder each. `ProcessLock` has the lock object's calls as methods; `LockInterleavings` takes them apart
  into system calls and lets any number of objects interleave them; `LockRuns` says what holds in every run.
- **API policy and releases** (`ApiPolicy`, `PythonText`, `PrepareRelease`, `PreparedChangelog`, `ReleaseCheck`,
  `ChangelogSeverity`, `ChangelogWitnesses`). The policy's changes and the metadata the release check accepts are also
  told from the texts and declarations alone, in both directions.
- **Coverage** (`Lcov`, `LcovMeaning`, `LcovRecords`).

## What turned out not to hold as promised

- Aggregate start is not always a transaction: a paused start whose pause and whose undo both fail leaves its own
  target running, and a failing rollback leaves an earlier one running. `AggregateStart.FailureRestoresStates` states
  exactly when the state map is restored, `AggregateStart.UndoFailureLeavesRunning` and
  `AggregateStart.StatusDoesNotTell` give the calls for which it is not. For starts that are not paused,
  `AggregateStart.PlainStartIsTransactional` leaves failing rollbacks as the only cause.
- `IsLocked` can hold of two objects of one file at once: between unlocking and resetting the field, an object inside
  `Release` still reports the lock that another one may already have. `LockRuns.MutualExclusion` states exactly when
  two objects report it: one is past its unlocking, and the lock was taken since or a second one is past its
  unlocking too. `LockRuns.ReleaseWindow` opens the window in every contention, `LockRuns.TwoReportInARun` in a run
  from the start.
- A cached read can differ from an uncached one while its handle is open on an inode the path no longer names, and
  where an open succeeds only because the cache gives up other handles. `HandleCacheRuns.TransparentExactly` has the
  exact condition.
- Preparing a release does not always keep the severity that the Unreleased section declares. What the new section
  declares is stated without hypothesis by `ChangelogSeverity.NewSeverity`; where no other section has one of the two
  names, `ChangelogSeverity.SeverityMoves` says exactly when that is what was declared. It depends on the first line
  of the content that is not blank, because stripping the content also strips that line's indentation:
  - A line that becomes a subheading raises the severity, unless at least as much was declared or no item precedes the
    next subheading (`ChangelogWitnesses.IndentedSubheadingRaises`: from NONE to MAJOR).
  - A line that becomes a section heading ends the section, so whatever was declared is lost, unless that heading is
    one of the version itself (`ChangelogWitnesses.IndentedSectionDrops`: from MAJOR to NONE).
  - An indented Unreleased heading is none for the scan, so that nothing was declared to begin with
    (`ChangelogWitnesses.IndentedUnreleasedRaises`).
- A heading that is only the version, or has more than one blank in front of it, is a section of that version for the
  severity scan and not for the preparation, which then makes a second one. `ChangelogSeverity.UnseenSection` says
  exactly which headings these are; `ChangelogWitnesses.BareVersionRaises` is a changelog with one.
- When the first target of a group configuration fails its check, the flag that says that a reset was just done stays
  set, and a later configuration skips its reset. `CleanConfigure.SkippedResetIsHarmless` shows for every run that
  this reset would have changed nothing.
- `utils/astl_read_file_handle_cache.hpp:29` says that a cache without a given maximum uses 64 handles; on Linux the
  code computes the maximum from the descriptor limit, which may be less, down to none. The model follows the code.

## Model

| member | source | states |
|---|---|---|
| ReadHandleCache.ReadFileHandleCache.constructor | utils/astl_read_file_handle_cache.hpp:26-33 | a new cache is valid and holds nothing |
| ReadHandleCache.ReadFileHandleCache.Touch | utils/astl_read_file_handle_cache.cpp:155-159 | moves the entry's own node to the front, keeping list and map linked and all handles |
| ReadHandleCache.ReadFileHandleCache.Evict | utils/astl_read_file_handle_cache.cpp:161-165 | removes exactly this path from list and map |
| ReadHandleCache.ReadFileHandleCache.Invalidate | utils/astl_read_file_handle_cache.cpp:76-81 | the path's handle is gone if there was one, nothing else changes |
| ReadHandleCache.ReadFileHandleCache.EvictLeastRecentlyUsed | utils/astl_read_file_handle_cache.cpp:167-179 | evicts the last path of the list; the branch for a path missing from the map is dead |
| ReadHandleCache.ReadFileHandleCache.TrimToCapacity | utils/astl_read_file_handle_cache.cpp:149-153 | terminates, keeping the most recent handles up to the capacity |
| ReadHandleCache.ReadFileHandleCache.OpenStream | utils/astl_read_file_handle_cache.cpp:181-199 | a path not cached is opened at the front or leaves no trace; the branch for a path already cached is dead |
| ReadHandleCache.ReadFileHandleCache.GetOrOpenStream | utils/astl_read_file_handle_cache.cpp:201-221 | the retry loop for want of descriptors terminates, giving up least recent handles one by one |
| ReadHandleCache.ReadFileHandleCache.GetReadCacheCapacity | utils/astl_read_file_handle_cache.cpp:96-106 | the capacity is computed once and kept |
| ReadHandleCache.LinuxReadCacheCapacity | utils/astl_read_file_handle_cache.cpp:109-124 | at most the default; with the reserve it never exceeds the descriptors that are left, exactly if the sum of open handles and reserve does not wrap |
| ReadHandleCache.ReadFileHandleCache.ReadThroughHandle | utils/astl_read_file_handle_cache.cpp:49-73 | the cacheable read once the cache is trimmed: a stale stream is reopened once, and the path keeps a handle exactly if the read succeeds |
| ReadHandleCache.ReadFileHandleCache.Read | utils/astl_read_file_handle_cache.cpp:36-74 | cache, status and text are those of the specification, the size is within the capacity, and the path has a handle afterwards exactly if the read was cacheable and succeeded |
| ReadHandleCache.FileInterface.Read | utils/astl_file_interface.hpp:146-159 | reads the path resolved under the base; a read that fails leaves no handle of it |
| ReadHandleCache.FileInterface.Write | utils/astl_file_interface.hpp:167-177 | the resolved path's handle is dropped before the file is opened, whether or not that succeeds |
| ReadHandleCache.ResolvedUnderBase | utils/astl_file_interface.hpp:183-188 | a relative path resolves to the names of the base followed by its own, an absolute one to itself |
| HandleCacheSpec.ReadKeepsForm | utils/astl_read_file_handle_cache.cpp:36-74 | any read keeps the list duplicate-free and equal to the map's keys, within the capacity, other handles bound as before |
| HandleCacheSpec.HandleAfterRead | utils/astl_read_file_handle_cache.cpp:49-73 | after a read its path has a handle if and only if the read was cacheable and succeeded: a failed read gives the handle up |
| HandleCacheRuns.Run | utils/astl_read_file_handle_cache.cpp:36-221 | every run from the empty cache ends well formed and within its capacity |
| HandleCacheRuns.LruInclusion | utils/astl_read_file_handle_cache.cpp:149-221 | on one run the smaller cache's list is a prefix of the larger's, so its hits are hits there too |
| HandleCacheRuns.LeastRecentlyReadIsLast | utils/astl_read_file_handle_cache.cpp:167-179 | in every reachable cache the list is in order of last read, so the victim is the least recently read path |
| HandleCacheRuns.HandleBinding | utils/astl_read_file_handle_cache.cpp:181-221 | after any run a cached handle is bound to the inode its path named at the read that last opened it |
| HandleCacheRuns.TransparentExactly | utils/astl_read_file_handle_cache.cpp:36-94 | after any run and in any world, exactly when a read answers, status and text, what an uncached one would |
| HandleCacheRuns.CachedReadIsTransparent | utils/astl_read_file_handle_cache.cpp:36-94 | where the path can be opened, a cached answer differs exactly when the inode bound at opening answers otherwise than the one now named; never while it is the same inode |
| HandleCacheRuns.DroppedPathRebinds | utils/astl_file_interface.hpp:167-177 | after a write, an invalidation or an uncacheable observation the next read goes to the inode now named |
| HandleCacheRuns.FailedReadRebinds | utils/astl_read_file_handle_cache.cpp:69-72 | after any run that ends with a failed read of a path, the next successful read of it gives the bytes of the inode the path then names |
| HandleCacheRuns.OpenGivesUpLeastRecent | utils/astl_read_file_handle_cache.cpp:201-221 | an open that succeeds at its k-th attempt has given up exactly the least recent handles, one for each attempt before |
| Minifier.Minify | scripts/embed_config.py:12-25 | the loop computes the transducer's output |
| Minifier.MinifyIsIdempotent | scripts/embed_config.py:12-25 | minifying twice is minifying once, for any text |
| Minifier.TokensJoined | scripts/embed_config.py:12-25 | for any text, the tokens of the minified text are those of the text with adjacent words run together, string bodies byte for byte |
| Minifier.TokensKept | scripts/embed_config.py:12-25 | a text whose words are kept apart has the same tokens once minified |
| Minifier.MinifiedValue | scripts/embed_config.py:12-25 | any minified text denotes what the joined tokens of the text denote, or nothing with them |
| Minifier.MinifyPreservesMeaning | scripts/embed_config.py:12-25 | every valid JSON text denotes the same value before and after |
| Minifier.RejectedStaysRejected | scripts/embed_config.py:12-25 | a rejected text stays rejected exactly when a string in it is open or its joined tokens are no JSON |
| Minifier.WhitespaceCanHoldWordsApart | scripts/embed_config.py:16-18 | two words with whitespace between them are no JSON and become the scalar of their concatenation |
| JsonLayout.MinifyDropsGaps | scripts/embed_config.py:12-25 | any text with its strings closed is its tokens with gaps of whitespace between them, and minified it is the tokens without the gaps |
| JsonLayout.MinifiedIsCompact | scripts/embed_config.py:12-25 | tokens laid out with any whitespace, told by its four characters, minify to the tokens alone |
| JsonLayout.LaidOutTree | scripts/embed_config.py:12-25 | a tree written out with any gaps parses as that tree, and so does its minified text |
| JsonText.ParseNeedsWordsApart | scripts/embed_config.py:13 | no valid JSON text has two words side by side, so dropping whitespace is safe |
| PosixPath.ResolvedStaysInside | scripts/prune_config_references.py:13-19 | an accepted reference resolves to proper components only, inside the published tree |
| PosixPath.ResolveIs | scripts/prune_config_references.py:13-19 | a reference behind k parent steps lands k directories above its owner's directory, and is refused if there are fewer |
| PosixPath.ResolveWalks | scripts/prune_config_references.py:13-19 | any relative reference lands where walking from the owner's directory leads, and is refused exactly when a step leaves the tree |
| PosixPath.ResolveSkips | scripts/prune_config_references.py:13-19 | "." and empty components change nothing |
| PruneReferences.LeastClosedSet | scripts/prune_config_references.py:22-32 | the documents that inherit from an exclusion are the least set closed under inheriting |
| PruneReferences.Pruner.InheritingNames | scripts/prune_config_references.py:26-27 | the names of one round, or an error when a reference does not resolve |
| PruneReferences.Pruner.ExcludeInheritingDocuments | scripts/prune_config_references.py:22-32 | the rounds end with exactly the least closed set removed and excluded |
| PruneReferences.Pruner.FateOf | scripts/prune_config_references.py:35-42 | the loop body keeps, removes or rejects one entry, stopping at the first excluded reference |
| PruneReferences.Pruner.PruneMapping | scripts/prune_config_references.py:35-42 | keeps exactly the entries without a reference to an exclusion, or raises on a missing one |
| PruneReferences.Pruner.PruneDocument | scripts/prune_config_references.py:51-55 | prunes both mappings of one document after checking its base |
| PruneReferences.Pruner.PruneReferences | scripts/prune_config_references.py:45-56 | the whole pruning, equal to the specification, errors included |
| PruneReferences.PrunedIsClosed | scripts/prune_config_references.py:45-61 | a successful result is closed under references |
| PruneReferences.ClosedIsFixed | scripts/prune_config_references.py:45-56 | a closed set of documents is left alone |
| PruneReferences.PruningIsIdempotent | scripts/prune_config_references.py:45-56 | pruning the result again changes nothing |
| PruneReferences.RemovedExactly | scripts/prune_config_references.py:22-42 | which documents and which mapping entries are gone, both directions |
| PruneReferences.RaisesExactly | scripts/prune_config_references.py:35-56 | pruning raises exactly over an `extends` that does not resolve, or in a document that stays over a base or an entry whose references are missing |
| PruneReferences.NoExclusionsNoChange | scripts/prune_config_references.py:48-50 | when every excluded path is back, pruning changes nothing or rejects a missing reference |
| PruneReferences.PrunedPassesEmbedder | scripts/embed_config.py:54-64 | the result passes the embedder's check exactly when every mapping entry has its expected key |
| PruneReferences.EmbedAcceptsExactly | scripts/embed_config.py:54-64 | for any documents inside the tree, the embedder accepts exactly those whose mapping entries have their expected keys and whose references the pruner would resolve to a document |
| DirectoryWalk.ClearMeansNoRevisit | scripts/embed_config.py:28-37 | the walk goes through exactly when no path comes back to a directory it is inside |
| DirectoryWalk.JsonFilesYields | scripts/embed_config.py:28-37 | from any ancestors: raises exactly when not clear, otherwise every JSON file below, once |
| DirectoryWalk.JsonFilesOfTree | scripts/embed_config.py:28-37 | from the root: raises exactly when some path revisits, otherwise exactly the reachable JSON files, once each |
| DirectoryWalk.JsonSuffixIs | scripts/embed_config.py:36 | a name counts as JSON exactly if something stands in front of a final ".json" |
| Materialize.Stage.Mkdir | scripts/filter_config.py:17 | makes a directory exactly when the name is free and its parent is a directory |
| Materialize.Stage.Copy | scripts/filter_config.py:23 | copies what the entry leads to, and fails on a dangling link |
| Materialize.Stage.Materialize | scripts/filter_config.py:12-23 | terminates; success lays out the link-free unrolling and touches nothing else, failure has a cause |
| Materialize.SucceedsExactly | scripts/filter_config.py:12-23 | succeeds exactly when the destination can be made, nothing dangles and no path revisits a directory |
| Materialize.SameJsonFiles | scripts/embed_config.py:33-37 | the copy has the JSON files of its source at the same paths |
| NaturalOrder.CompareText | utils/astl_utils.hpp:442 | the sign of the first difference |
| NaturalOrder.CompareDigitRuns | utils/astl_utils.hpp:406-443 | the sign of the difference of the two runs' numeric values; both cursors end just past their runs |
| NaturalOrder.PastDigits | utils/astl_utils.hpp:430-435 | the end of the digit run |
| NaturalOrder.NaturalLess | utils/astl_utils.hpp:458-484 | lexicographic order on tokens, where a maximal digit run is its number |
| NaturalOrder.SmallerNumberFirst | utils/astl_utils.hpp:466-471 | behind equivalent beginnings, two digit runs decide by their numbers: the smaller is less |
| NaturalOrder.SmallerCharacterFirst | utils/astl_utils.hpp:473-475 | behind equivalent beginnings, two different characters that are not both digits decide: less exactly for the smaller code |
| NaturalOrder.ShorterFirst | utils/astl_utils.hpp:480-482 | a text that ends where an equivalent beginning of another does is less than that other |
| NaturalOrder.BeginningsCancel | utils/astl_utils.hpp:458-484 | equivalent beginnings decide nothing |
| NaturalOrder.TransitiveOrder | utils/astl_utils.hpp:458-484 | transitivity |
| NaturalOrder.OrderTrichotomy | utils/astl_utils.hpp:458-484 | irreflexive, asymmetric, and equivalent exactly when the tokens agree: a strict weak ordering |
| NaturalOrder.EquivalentUpToLeadingZeros | utils/astl_utils.hpp:458-484 | neither is less exactly when the texts agree up to leading zeros of their digit runs |
| Calendar.DayNumberOfDate | utils/astl_wall_clock.hpp:43-44 | the date of a day number has that day number |
| Calendar.DatesInOrder | utils/astl_wall_clock.hpp:44 | dates are ordered as their day numbers |
| Calendar.CountingIsClosedForm | utils/astl_wall_clock.hpp:43-44 | counting days by month and leap year agrees with the closed form over 400, 100 and 4 years |
| Calendar.DateOfInClosedForm | utils/astl_wall_clock.hpp:43-44 | so the date of a day number has that number in the closed form |
| WallClock.Correlate | utils/astl_wall_clock.hpp:19-31 | the exact shifted value, if and only if delta and sum fit in 64 bits; no step overflows |
| WallClock.InstantRecomposes | utils/astl_wall_clock.hpp:42-50 | day and time of day recompose every 64-bit value, negatives included |
| WallClock.Print | utils/astl_wall_clock.hpp:51-58 | the stream output is the fixed-width text of the fields |
| WallClock.FormatUtc | utils/astl_wall_clock.hpp:34-59 | the adjusted remainder is the time of day, and the text is that of the instant |
| WallClock.TextFields | utils/astl_wall_clock.hpp:51-58 | year, month, day, hours, minutes, seconds and nanoseconds stand at their places in the text, with their separators |
| WallClock.ReadBack | utils/astl_wall_clock.hpp:34-59 | the printed text reads back as the value it was printed from |
| WallClock.UtcInOrder | utils/astl_wall_clock.hpp:34-59 | texts are ordered lexicographically as the values are numerically |
| WallClock.UtcIsInjective | utils/astl_wall_clock.hpp:34-59 | different values have different texts |
| WallClock.RawOrderIsTextOrder | utils/astl_wall_clock.hpp:18-59 | correlated samples keep their raw order in the printed text |
| SampleRetrieval.WantedAreWithin | src/astl_telemetry.cpp:240-250 | exactly the samples whose unsigned time stamps lie within the bounds, both included, are wanted, with their values |
| SampleRetrieval.WantedInOrder | src/astl_telemetry.cpp:240-258 | each wanted sample stands directly behind those wanted before it |
| SampleRetrieval.AdjacentRanges | src/astl_telemetry.cpp:240-258 | adjacent ranges share out the samples |
| SampleRetrieval.CountSamplesInRange | src/astl_telemetry.cpp:252-258 | the number of wanted samples |
| SampleRetrieval.CountMetricSamplesInBatch | src/astl_telemetry.cpp:794-802 | adds the batch, or refuses when the sum leaves `size_t` |
| SampleRetrieval.CountPass | src/astl_telemetry.cpp:874-876 | the count does not depend on how the samples are batched |
| SampleRetrieval.PopulateSampleCountOutput | src/astl_telemetry.cpp:706-732 | the count query reports the number a retrieval would write |
| SampleRetrieval.MetricSamplesRequest.CopyMetricSamplesBatch | src/astl_telemetry.cpp:812-826 | writes the batch's wanted samples behind what is written, or nothing at all |
| SampleRetrieval.MetricSamplesRequest.CopyPass | src/astl_telemetry.cpp:877-880 | writes exactly the wanted samples in order, never past the buffer |
| SampleRetrieval.MetricSamplesRequest.SetCountAndValidateCapacity | src/astl_telemetry.cpp:828-835 | sets the required count when 32 bits hold it, and compares it with the capacity |
| SampleRetrieval.MetricSamplesRequest.PopulateMetricSamplesOutput | src/astl_telemetry.cpp:865-892 | succeeds exactly when the wanted samples fit, and then holds exactly them; otherwise the required count, an untouched buffer, nothing consumed |
| SampleRetrieval.RetryWithRequiredCount | src/astl_telemetry.cpp:865-892 | a second call with the reported count succeeds, however the samples are batched then |
| AggregateStart.Orchestrator.GetConfiguredTargets | src/astl_telemetry.cpp:104-114 | the configured targets in order |
| AggregateStart.Orchestrator.StartCollection | src/impl/orchestrator/orchestrator.cpp:659-743 | the states and statuses of one start, by the START row of the lifecycle table and the collectors' answers |
| AggregateStart.Orchestrator.RollbackStartedCollectionToConfigured | src/impl/orchestrator/orchestrator.cpp:753-779 | back to configured when stopping and resetting succeed, unchanged otherwise |
| AggregateStart.Orchestrator.RollBack | src/astl_telemetry.cpp:151-157 | every started target in reverse order, past failures; the first failure is reported |
| AggregateStart.Orchestrator.FailStart | src/astl_telemetry.cpp:150-164 | a rollback error hides the start's error |
| AggregateStart.Orchestrator.StartInOrder | src/astl_telemetry.cpp:145-167 | all start, or the ones before the first failure are rolled back |
| AggregateStart.Orchestrator.StartConfiguredTargets | src/astl_telemetry.cpp:139-168 | status, states and the order of calls, for success, nothing configured, and failure |
| AggregateStart.Orchestrator.ApplyToAllTargets | src/astl_telemetry.cpp:2722-2740 | every target is called; the first error is reported |
| AggregateStart.OnlyConfiguredStarts | src/impl/orchestrator/orchestrator.cpp:677-680 | which states can be started, and the error of each that cannot |
| AggregateStart.StartStatuses | src/impl/orchestrator/orchestrator.cpp:683-743 | the status of a start, paused or not, by the answers of the collector |
| AggregateStart.StartedStates | src/astl_telemetry.cpp:139-168 | started targets are started or paused, as asked; the others stay |
| AggregateStart.FailedStates | src/astl_telemetry.cpp:150-164 | the state of every target after a failure, by the collector's answers to it |
| AggregateStart.FailureStatusIs | src/astl_telemetry.cpp:150-164 | a failure reports its own error if every earlier target stops and resets, and otherwise that of the last one that does not |
| AggregateStart.CallsAre | src/astl_telemetry.cpp:145-157 | starts are called in order, rollbacks in the opposite order |
| AggregateStart.FailureRestoresStates | src/astl_telemetry.cpp:150-164 | a failure restores the whole state map exactly when every rollback succeeds and the failed start left nothing running |
| AggregateStart.NoRollbackError | src/astl_telemetry.cpp:151-157 | no rollback error is reported exactly when every rollback succeeds |
| AggregateStart.PlainStartIsTransactional | src/astl_telemetry.cpp:139-168 | for starts that are not paused, only a failing rollback can break the transaction |
| AggregateStart.UndoFailureLeavesRunning | src/impl/orchestrator/orchestrator.cpp:707-735 | a paused start whose pause and undo fail: the start fails, no rollback does, the target runs |
| AggregateStart.StatusDoesNotTell | src/astl_telemetry.cpp:150-164 | two failing starts with one status, one restoring the states and one not |
| GroupExpansion.GetMetricHandlesInGroupForTarget | src/astl_telemetry.cpp:1086-1112 | the group's metrics that the target supports, in order; other errors are passed on |
| GroupExpansion.AppendUniqueMetricHandles | src/astl_telemetry.cpp:2159-2168 | keeps the first occurrence of each handle |
| GroupExpansion.ExpandMetricGroupHandlesForTarget | src/astl_telemetry.cpp:2172-2214 | the expansion of the request, errors included |
| GroupExpansion.FirstOccurrencesAre | src/astl_telemetry.cpp:2159-2168 | the same elements, each once |
| GroupExpansion.FirstOccurrencesInOrder | src/astl_telemetry.cpp:2159-2168 | in the order of their first occurrences |
| GroupExpansion.ExpansionAre | src/astl_telemetry.cpp:2172-2214 | without duplicates, exactly the supported metrics of the requested groups of the target |
| GroupExpansion.ExpandsExactly | src/astl_telemetry.cpp:2117-2214 | a request expands if and only if the groups of its target are known and each group named is a known one that can be looked up; in the strict form also one of the target with a metric on it |
| GroupExpansion.RefusedBecause | src/astl_telemetry.cpp:2117-2214 | the error of a refused request, by what is wrong with the first group it may not name |
| GroupExpansion.RequestIs | src/astl_telemetry.cpp:2305-2330 | a configuration request is right exactly if it expands on every target and holds a metric of one; otherwise its error |
| GroupExpansion.LenientAgreesWithStrict | src/astl_telemetry.cpp:2122-2136 | when the strict form succeeds the lenient form returns the same list |
| CleanConfigure.Orchestrator.ResolveMetricGroupHandlesOnTargets | src/astl_telemetry.cpp:2305-2330 | the non-empty expansions in target order, or the first error, changing nothing |
| CleanConfigure.Orchestrator.ResetCollectionStateForCleanConfigure | src/impl/orchestrator/orchestrator.cpp:597-640 | refuses while a target collects; clears collectors before states and artifacts, and sets the flag exactly on success |
| CleanConfigure.Orchestrator.ResetOperationIdsForCleanConfigure | src/impl/orchestrator/orchestrator.cpp:568-595 | takes the flag, refuses while a target collects, resets exactly when no other target is configured |
| CleanConfigure.Orchestrator.ConfigureMetricCollection | src/impl/orchestrator/orchestrator.cpp:396-505 | check, reset, configuration, completion; a failed completion leaves the target unconfigured |
| CleanConfigure.Orchestrator.ConfigureMetricGroupCollectionOnAllTargets | src/astl_telemetry.cpp:2332-2364 | resolution, one reset, then target after target up to the first error |
| CleanConfigure.ConfiguredOnce | src/astl_telemetry.cpp:2332-2364 | a rejected request changes nothing; any other clears earlier configurations exactly once, configures the targets before the first error, and no configuration clears another |
| CleanConfigure.ConfiguredAlone | src/impl/orchestrator/orchestrator.cpp:396-595 | configuring one target: refused while any is starting, started or paused; clears the others exactly when none of them is configured; what it leaves in every case |
| CleanConfigure.RunStaysClean | src/impl/orchestrator/orchestrator.cpp:568-640 | in every run metrics belong to targets that are not unconfigured, and while the flag is set every target is |
| CleanConfigure.SkippedResetIsHarmless | src/impl/orchestrator/orchestrator.cpp:569-572 | whenever the flag lets a configuration skip the reset, the reset would have changed nothing |
| CleanConfigure.OthersStayConfigured | src/impl/orchestrator/orchestrator.cpp:568-595 | configuring one target, even in vain, leaves every other configured target as it was |
| CleanConfigure.ConfiguredAre | src/astl_telemetry.cpp:2332-2346 | after success every target has exactly its expansion configured, and the others nothing |
| ProcessLock.FilesystemProcessLock.constructor | utils/filesystem_process_lock.hpp:75-83 | acquires exactly when the file opens, `flock` works and nobody holds the lock of that file; otherwise no descriptor stays open |
| ProcessLock.FilesystemProcessLock.Acquire | utils/filesystem_process_lock.hpp:155-196 | status, field and kernel state of one acquisition |
| ProcessLock.FilesystemProcessLock.Release | utils/filesystem_process_lock.hpp:115-129 | unlocks and closes once; a second release does nothing |
| ProcessLock.FilesystemProcessLock.MoveFrom | utils/filesystem_process_lock.hpp:88-101 | the target's own descriptor is released, the source's changes hands with its file; self-assignment does nothing |
| ProcessLock.LockMoveRelease | utils/filesystem_process_lock.hpp:85-129 | lock, move, release twice: one open, one close, the file is free |
| ProcessLock.MoveBetweenHeldLocks | utils/filesystem_process_lock.hpp:88-101 | a move between two held locks closes exactly one descriptor and keeps the other with its lock |
| LockInterleavings.StepKeeps | utils/filesystem_process_lock.hpp:75-196 | every step that can happen is defined and keeps the ownership invariant |
| LockRuns.RunKeeps | utils/filesystem_process_lock.hpp:75-196 | so does every interleaving |
| LockRuns.MutualExclusion | utils/filesystem_process_lock.hpp:108-129 | in every run, two objects report the lock of a file exactly when one is past its unlocking and the lock was taken since or another is past its unlocking too |
| LockRuns.LockedHasKernelLock | utils/filesystem_process_lock.hpp:108 | outside that window whoever reports the lock has it from the kernel, on an open descriptor of its own |
| LockRuns.DescriptorsAccountedFor | utils/filesystem_process_lock.hpp:115-196 | over any files, every open descriptor has exactly one owner, and none is closed twice |
| LockRuns.ReleaseWindow | utils/filesystem_process_lock.hpp:125-127 | after any run in which one object holds the lock and another is about to try it, three steps make both report it |
| LockRuns.TwoReportInARun | utils/filesystem_process_lock.hpp:125-127 | a run from the start in which two objects report the lock |
| LockRuns.CallsAreSteps | utils/filesystem_process_lock.hpp:155-196 | the steps of an acquisition without interference are the call |
| LockRuns.ReleaseIsSteps | utils/filesystem_process_lock.hpp:115-129 | the steps of a release without interference are the call |
| LockRuns.MoveIsSteps | utils/filesystem_process_lock.hpp:88-101 | so are those of a move assignment, the released descriptor closed once and the other kept |
| LockRuns.MoveOntoNothing | utils/filesystem_process_lock.hpp:88-101 | a move onto an object that holds nothing, or a new one, is one step without a system call |
| LockRuns.DestroyIsSteps | utils/filesystem_process_lock.hpp:103 | destroying an object that holds a lock unlocks and closes first |
| LockRuns.MoveBetweenHeldLocks | utils/filesystem_process_lock.hpp:88-101 | a run from the start with a move between two held locks, and the state it ends in |
| ApiPolicy.AppendReports | scripts/check_api_policy.py:355-361 | one loop appends what is reported for each name, and nothing else |
| ApiPolicy.CompareMap | scripts/check_api_policy.py:352-361 | removed, added and changed entries of one family |
| ApiPolicy.CompareFunctionAbi | scripts/check_api_policy.py:364-378 | linkage and export changes of the functions both snapshots declare |
| ApiPolicy.CompareSnapshots | scripts/check_api_policy.py:469-478 | exactly the changes of all families; `ApiPolicy.ChangesAre` says which these are |
| ApiPolicy.RequiredSeverity | scripts/check_api_policy.py:481-482 | the highest severity of the changes, NONE without any |
| ApiPolicy.ChangesAre | scripts/check_api_policy.py:352-478 | the changes between any two snapshots, entry by entry, told without the classifiers |
| ApiPolicy.RecordChangesAre | scripts/check_api_policy.py:391-420 | a common record that differs is MINOR exactly for a struct with leading "size" that grows at its end, MAJOR otherwise |
| ApiPolicy.EnumChangesAre | scripts/check_api_policy.py:381-454 | a common enumeration is MINOR exactly when its terminal enumerator stays and others are appended, MAJOR for any other difference |
| ApiPolicy.SatisfiesIsBumped | scripts/check_api_policy.py:485-490 | a version satisfies the policy exactly when it is not before the base version bumped as required |
| ApiPolicy.RecordsAreLawful | scripts/check_api_policy.py:391-420 | growing sized structs at the end is a partial order, and its equality is no change; the grades themselves are `ApiPolicy.RecordChangesAre` |
| ApiPolicy.EnumsAreLawful | scripts/check_api_policy.py:381-454 | appending enumerators before the terminal one is a partial order up to where the terminal one stands |
| ApiPolicy.FamilyAtMostMinor | scripts/check_api_policy.py:352-361 | at most MINOR exactly when nothing is removed and every common entry is kept |
| ApiPolicy.AbiStaysUnchanged | scripts/check_api_policy.py:364-378 | unchanged ABI composes when no function was removed in between |
| ApiPolicy.SnapshotOrder | scripts/check_api_policy.py:352-490 | "at most MINOR" is a partial order on snapshots, and its equality, no change reported, an equivalence |
| ApiPolicy.SeverityTriangle | scripts/check_api_policy.py:481-482 | the step over two releases needs at most the higher of what the two steps need |
| ApiPolicy.PolicyComposes | scripts/check_api_policy.py:485-490 | versions that never go back and satisfy the policy at each step satisfy it over both |
| PythonText.SplitJoined | scripts/release/prepare_release.py:113 | lines written with an end each read back as the same lines |
| PythonText.TrimLinesIsStrip | scripts/release/prepare_release.py:102-105 | stripping the text of a block of lines trims the block |
| PythonText.TrimmedBlock | scripts/release/prepare_release.py:102-105 | trimming changes the first and the last line that is not blank at most, each at its own end, and no line between them |
| PythonText.TrimmedBlank | scripts/release/prepare_release.py:102-105 | a block of blank lines leaves nothing, in front or behind |
| PreparedChangelog.PreparedLines | scripts/release/prepare_release.py:67-113 | the lines of the prepared changelog: trimmed blocks around the reset section and the new heading |
| PreparedChangelog.LinesSurvive | scripts/release/prepare_release.py:93-113 | every other line that is not blank survives, in order; with `PythonText.TrimmedBlock`, unchanged inside its block |
| PreparedChangelog.UnreleasedOnce | scripts/release/prepare_release.py:148-155 | the result has one Unreleased heading |
| PreparedChangelog.DatedOnce | scripts/release/prepare_release.py:175-181 | the result has one dated heading of the release |
| PreparedChangelog.PreparedValidates | scripts/release/prepare_release.py:134-181 | whatever preparation writes, the release check accepts; what else it accepts is `ReleaseCheck.PassesExactly` |
| PreparedChangelog.PreparedOnce | scripts/release/prepare_release.py:83-91 | a version prepared once is refused from then on |
| PreparedChangelog.FirstRelease | scripts/release/prepare_release.py:69-91 | preparation can succeed for every stable version and date |
| ReleaseCheck.PreparesExactly | scripts/release/prepare_release.py:51-91 | preparation succeeds exactly for a matching version pair and a changelog with one Unreleased heading and no section of the release |
| ReleaseCheck.PassesExactly | scripts/release/prepare_release.py:134-181 | the check accepts exactly a matching version pair, the recorded version, one Unreleased section that is the template's when trimmed, and one dated section of the release |
| ReleaseCheck.ChangelogPassesExactly | scripts/release/prepare_release.py:148-181 | the part of it that is about the changelog |
| ReleaseCheck.PairIs | scripts/release/prepare_release.py:51-64 | a version pair is right exactly for three dotted numbers, and the same or that with ".post" |
| ReleaseCheck.ItemPutBackIsRefused | scripts/release/prepare_release.py:157-172 | a prepared changelog with any line that is no heading and not blank put back under Unreleased is refused |
| PrepareRelease.IsoFormatFields | scripts/release/prepare_release.py:83 | year, month and day stand in this order in the date of a heading |
| ChangelogSeverity.ChangelogSectionSeverity | scripts/check_api_policy.py:599-615 | the loop computes the scan |
| ChangelogSeverity.SeverityIsHighest | scripts/check_api_policy.py:599-615 | the severity is the highest an item of the section is listed under |
| ChangelogSeverity.DeclaredSeverity | scripts/check_api_policy.py:599-615 | MAJOR exactly with an item under Breaking in a section of that name, MINOR exactly with one under Added and none under Breaking |
| ChangelogSeverity.ItemIs | scripts/check_api_policy.py:610 | an item is whitespace, a hyphen, whitespace and something more |
| ChangelogSeverity.NewSeverity | scripts/release/prepare_release.py:93-113 | for any changelog, what the new version declares: the trimmed Unreleased content, and sections of that name before and behind |
| ChangelogSeverity.TrimmedContentSeverity | scripts/release/prepare_release.py:102 | what the trimmed content declares, by what its first line becomes |
| ChangelogSeverity.SeverityMoves | scripts/check_api_policy.py:599-619 | exactly when the released section declares what the Unreleased section declared |
| ChangelogSeverity.PlainSeverityMoves | scripts/check_api_policy.py:599-619 | it does when every heading starts its line |
| ChangelogSeverity.UnseenSection | scripts/release/prepare_release.py:83-91 | exactly which headings are a section of the version for the scan and not for the preparation |
| ChangelogWitnesses.IndentedSubheadingRaises | scripts/release/prepare_release.py:102 | a changelog whose preparation raises the severity from NONE to MAJOR, for every version and date |
| ChangelogWitnesses.IndentedSectionDrops | scripts/release/prepare_release.py:102 | one whose preparation drops it from MAJOR to NONE |
| ChangelogWitnesses.IndentedUnreleasedRaises | scripts/release/prepare_release.py:75-76 | one whose Unreleased section only the preparation sees |
| ChangelogWitnesses.BareVersionRaises | scripts/release/prepare_release.py:84-88 | one whose section of the version only the scan sees |
| Lcov.SourceRecordLines | scripts/fuzz_coverage.py:45-52 | the line table of the file, a new empty one if there is none, none for other sources |
| Lcov.MergeLineRecord | scripts/fuzz_coverage.py:55-60 | the higher count of the line, or an invalid record and no change |
| Lcov.ReadReport | scripts/fuzz_coverage.py:63-76 | the shared tables hold exactly what the report says, errors included |
| LcovMeaning.ReadsExactly | scripts/fuzz_coverage.py:63-76 | which reports are refused, and for any other the files and for each line the highest count, by what its records say |
| LcovMeaning.ParseLineIs | scripts/fuzz_coverage.py:55-59 | a line record is its first two fields, a line number from 1 on and a count |
| LcovMeaning.NoComma | scripts/fuzz_coverage.py:56 | a line record without a comma is invalid |
| LcovMeaning.SignedParses | scripts/fuzz_coverage.py:57 | numbers are read with or without a sign |
| Lcov.UniteIsPointwiseMax | scripts/fuzz_coverage.py:60 | the union has every file and line of either, with the higher count |
| Lcov.ReadsAsUnion | scripts/fuzz_coverage.py:220 | two reports read as one are the union of what each reads as |
| Lcov.ReportOrderDoesNotMatter | scripts/fuzz_coverage.py:220 | their order does not matter, and repeating one adds nothing |
| LcovRecords.WriteRecords | scripts/fuzz_coverage.py:224-237 | the records of the files in the listed order |
| LcovRecords.WriteFile | scripts/fuzz_coverage.py:225-236 | the records of one file |
| LcovRecords.NormalizedReadsBack | scripts/fuzz_coverage.py:220-237 | the normalized records of any report read back as the same counts |
| LcovRecords.TotalsReadBack | scripts/fuzz_coverage.py:229-235 | the totals of a file read back as the number of its lines and of those hit |

## Left out

- ReadHandleCache.FileInterface.Read: does not model the exceptions it turns into statuses, because what a failed
  allocation or a throwing stream leaves of the cache depends on where inside the standard library it happens.
- ReadHandleCache.FileInterface.Write: models what the opened file then holds, not buffering or a write that fails late.
- The process lock's no-op backends (other platforms, mock file systems), descriptors inherited across `fork`, and a
  lock file that is unlinked or replaced while in use.
- Concurrency inside the orchestrator: the C API calls run under one mutex, so its methods are modelled as atomic.
- Collectors, metric manager internals, accumulators, summarizers: their answers are parameters.
- CleanConfigure.Orchestrator.ResetCollectionStateForCleanConfigure: when one collector cannot be cleared, others may
  have been; what a collector then still holds is not part of this model. Neither are counters, which are configured
  by the same steps.
- Null handles, struct sizes and the other argument checks in front of the modelled C API functions.
- `WriteSamplesInTimestampRange` and the counter variants of sample retrieval, which repeat the metric ones.
- The sorted order of names and of reported changes: the models iterate over sets in any order, and the results hold
  for every order.
- ApiPolicy.EnumChangesAre: is about enumerations that name their terminal enumerator at most once, as C allows no
  name twice.
- Message texts, and which of several errors a Python script raises first where they share one exception type.
- Materialize.Stage.Materialize: assumes that the destination is not reachable from the source, as the stage is a new
  temporary directory; file metadata, permissions and the final replacement of the tree are left out.
- DirectoryWalk.JsonFilesOfTree: directories that cannot be listed are left out.
- Decimal digits are ASCII digits, where Python's `\d` and `int` also take other decimal digits.
- Reading and writing files in Python also translates "\r\n" and "\r"; the texts of the release models are the
  translated ones.
- Lcov.ReadReport: resolving a source path against the repository is a function that does not change during a run.
- Extracting API snapshots from clang, `git`, the pull-request checks and the reports of the policy script.
- The C++ that the embedder generates, and the file handling of `prune_tree` and `filter_config`.
- Go and Python bindings, logging, string tables and fuzz harnesses: they keep no state of their own and make no
  promise beyond handing calls, values and texts through.
