# MergePicFolders, modelled in Dafny

MergePicFolders is a small Qt tool. It merges the image folders checked in a
list into one new folder under the chosen root, and shows a preview image per
folder. This project models the parts of it that make decisions, and proves
what they guarantee:

- the background `Worker` and its tasks: the batched image scan, the preview
  search, the subfolder lister, the merge with its unique-name resolver and
  its cleanup, and `run`, which dispatches a task and always ends with one
  `finished(kind, success)` signal;
- the folder list of the newer main window (`src/MergePicFolders/window.py`).
  This covers the refresh that carries checks and preview images over by
  name, the preview pool of at most two workers with its first-in-first-out
  queue, the re-sort, the choice of the merge target, and the list update
  after a merge;
- the folder list of the older all-in-one window (`merge_subfolders.py`);
- the stand-alone empty-folder remover (`remove_empty.py`).

Nothing touches a disk, a clock or a thread. Every filesystem query the
program makes is a value given in advance (module `FsModel`):

- a listing (`glob`, `rglob`, `iterdir`) is a sequence of entries, and may
  raise after yielding them;
- a bottom-up `os.walk` is a sequence of rows;
- `is_dir`, `is_file`, `exists`, `os.access` and `getsize` are fields or
  oracle functions;
- whether `shutil.move`, `rmdir` and `mkdir` succeed are oracle functions or
  booleans.

The wall clock used by the resolver's fallback name is an opaque number. The
answer of a dialog is a boolean argument. A call to `stop()` from the GUI
thread is a schedule (`Stop`): it says before which read of the running flag
the call lands. Signals are an append-only event log.

The worker code appears three times in the repository. The model is one
shared model, `WorkerModel.Worker` with the specification modules `ScanSpec`,
`PreviewSpec`, `PopulateSpec`, `MergeSpec`, `Resolver` and `RunSpec`. A
constant `legacy` marks the all-in-one variant.

- `src/MergePicFolders/worker.py` is the reference. Its parts are `run`
  71-138, `stop` 140-153, scan 155-206, resolver 208-246, merge 248-390,
  preview 392-465 and populate 467-509.
- `src/worker.py` has the same code, without the doc strings. Its parts are
  `run` 52-104, `stop` 106-108, scan 110-144, resolver 146-166, merge
  168-292, preview 294-344 and populate 346-371. The model is `legacy = false`
  for it as well.
- `merge_subfolders.py` is the all-in-one variant, modelled with
  `legacy = true`. Its parts are `run` 72-116, `stop` 118-120, scan 122-156,
  resolver 158-178, merge 180-308 and preview 310-369. It differs in three
  ways:
  - it has no populate task, so `run` refuses that task as unknown;
  - its extension set has no `.heic` (lines 28-37);
  - its preview search first reports that it is looking for a preview.

The model follows the code where a description of the tool says otherwise:

- Merge cleanup and `remove_empty.py` are said to remove empty folders. The
  code removes only the directories whose walk row listed neither files nor
  subdirectories. The rows are taken before anything is removed, so the
  parent of a removed empty folder survives the same run
  (`Pruner.ParentKept`).
- The merge computes its own success as "nothing was skipped". `run` then
  sets the success flag to `True` after every merge that returns, so every
  merge is reported as a success: skips, failures and cancellation included
  (`RunSpec.RunMergeReportsTrue`).
- The empty-folder remover is described as outside the tool. It is modelled
  all the same (module `Pruner`).

The windows are modelled two ways:

- `WindowModel` and `LegacyWindowModel` are state datatypes with one function
  per slot, and an `Action` type for "whatever fires next". Lemmas prove that
  the pool bound and the dict shape of the cache hold after any sequence of
  actions.
- `WindowModel.FolderList` and `LegacyWindowModel.LegacyFolderList` are
  classes whose fields are the rows, cache, tasks, queue and root. Their
  methods run the loops of the source in place. Each is proved to leave the
  state the slot function describes, and to keep the class valid.

The merge checks of the older window's `confirm_and_start_merge_to_new`
(`merge_subfolders.py:998-1097`) are the same as the newer window's, and are
modelled once as `ListSteps.DecideMerge`.

## Model

| member | source | states |
|---|---|---|
| Resolver.GenerateUniqueTargetPath | src/MergePicFolders/worker.py:208-246 | the loop returns what `UniqueName` specifies; any result is not already in the target; the name comes back unchanged exactly when it is free |
| Resolver.UniqueNameFresh | src/MergePicFolders/worker.py:239-246 | any name the resolver returns is free in the target |
| Resolver.UniqueNameCases | src/MergePicFolders/worker.py:228-246 | a free name is kept; otherwise the result is `stem_n+suffix` for the first free n in 1..999, every smaller candidate being taken; otherwise the timestamp name when that is free, else None |
| Resolver.NeverCounterThousand | src/MergePicFolders/worker.py:232-245 | `stem_1000+suffix` is returned only when the clock itself read 1000: the thousandth candidate is replaced by the timestamp name |
| Resolver.CandidateInjective | src/MergePicFolders/worker.py:236-238 | different counters give different candidate names |
| Names.StemSuffixSplit | src/MergePicFolders/worker.py:234-235 | pathlib's split: the stem followed by the suffix is the name, and the suffix is empty or starts at a dot that is neither the first nor the last character |
| Names.NatToStringRoundTrip | src/MergePicFolders/worker.py:237 | the decimal rendering of a counter consists of digits and reads back as the same number |
| FsModel.ExtensionExamples | src/MergePicFolders/worker.py:8-18 | the suffix is compared lower-cased; `.heic` is supported by the packaged worker and not by the all-in-one variant (merge_subfolders.py:28-37) |
| FsModel.ImagesAppend | src/MergePicFolders/worker.py:189 | the supported files of two listings are those of the first, then those of the second |
| ScanSpec.PartitionShape | src/MergePicFolders/worker.py:185-199 | the batches of a complete scan are non-empty, hold at most 50 paths, all but the last hold exactly 50, and together they give back the files in order |
| ScanSpec.ScanCompletes | src/MergePicFolders/worker.py:180-203 | a scan that reaches the end of a listing that does not raise emits exactly the batches of the supported files in listing order, then reports their number |
| ScanSpec.ScanCutShort | src/MergePicFolders/worker.py:185-199 | a cancelled or failing scan emits only the full batches of what it reached; the unflushed remainder is dropped |
| ScanSpec.ScanRaises | src/MergePicFolders/worker.py:204-206 | a scan raises to `run` exactly when its listing fails and no stop fell due first |
| ScanSpec.ScanNoFinish | src/MergePicFolders/worker.py:155-206 | a scan emits no `finished` signal of its own |
| PreviewSpec.PreviewAtMostExpected | src/MergePicFolders/worker.py:426-462 | however it is stopped, the search emits at most one image, and that is the first usable image among the immediate entries, else two levels down |
| PreviewSpec.PreviewUnstopped | src/MergePicFolders/worker.py:417-465 | never stopped, the search on a directory emits the expected image and ends with it; otherwise it ends with the error of a failing listing or with the report that nothing was found |
| PreviewSpec.PreviewNotADirectory | src/MergePicFolders/worker.py:417-421 | a path that is not a directory emits one error and nothing else |
| PreviewSpec.RepeatedPassRedundant | src/MergePicFolders/worker.py:440-460 | the depth loop's repeated `*` pass adds nothing: the first usable entry in search order is that of the immediate entries followed by the two-level ones |
| PreviewSpec.FirstUsableMeans | src/MergePicFolders/worker.py:426-438 | the reference search finds the usable entry that no usable entry precedes, or reports that there is none |
| PopulateSpec.PopulateEffect | src/MergePicFolders/worker.py:486-509 | the task reports the immediate directories in listing order exactly when the root is a readable directory and no stop fell due; it raises exactly when the listing fails before any stop |
| PopulateSpec.PopulateNoFinish | src/MergePicFolders/worker.py:467-509 | the task emits no `finished` signal of its own |
| MergeSpec.MergeTargetMissing | src/MergePicFolders/worker.py:280-284 | a missing target gives a start report and an error, and no file is touched |
| MergeSpec.MoveOneEffect | src/MergePicFolders/worker.py:304-333 | one file bumps exactly one of the moved and skipped counters, and a moved file takes a name that is new in the target |
| MergeSpec.MergeSourcesEffect | src/MergePicFolders/worker.py:286-339 | the loop over the sources keeps the moved names fresh and pairwise distinct, keeps the counters in agreement with the moves and reports, processes only the sources that are directories, in order, and ends cancelled exactly when the flag was cleared |
| MergeSpec.MergeSourcesComplete | src/MergePicFolders/worker.py:286-339 | never stopped and with readable listings, every source that is a directory is processed and every file under them is counted once as moved or skipped |
| MergeSpec.CollectEmptyEffect | src/MergePicFolders/worker.py:347-355 | the cleanup candidates are the walk's rows listing no files and no subdirectories, in walk order, gathered before any removal |
| MergeSpec.DeleteEmptyEffect | src/MergePicFolders/worker.py:357-370 | exactly the candidates whose rmdir succeeds are removed; the deletion counter counts only the source root; a failure is only reported |
| MergeSpec.CleanupEffect | src/MergePicFolders/worker.py:341-374 | the cleanup removes only candidates whose rmdir succeeds, and counts at most one per removal |
| MergeSpec.MergeEffect | src/MergePicFolders/worker.py:248-390 | the target stays consistent (every moved name fresh and distinct, the name set grown by exactly those names) and only directories a source's walk listed as empty are removed |
| MergeSpec.MergeCancelled | src/MergePicFolders/worker.py:288-292 | a merge that reads a cleared flag stops there: no cleanup, no summary |
| MergeSpec.MergeRaised | src/MergePicFolders/worker.py:388-390 | a failing listing is reported and clears the success flag; no cleanup, no summary |
| MergeSpec.MergeCompleted | src/MergePicFolders/worker.py:377-386 | a merge that runs out of sources ends with one summary whose moved count is the number of moves and `Moved` reports, whose skipped count is the number of skip errors, and the success flag holds exactly when nothing was skipped |
| MergeSpec.MergeUnstopped | src/MergePicFolders/worker.py:286-386 | never stopped, with the target present and every listing readable, the summary accounts for every file under the sources that are directories |
| MergeSpec.MergeNoFinish | src/MergePicFolders/worker.py:248-390 | a merge emits no `finished` signal of its own |
| RunSpec.RunFinishesOnce | src/MergePicFolders/worker.py:71-138 | whatever the task, `run` emits exactly one `finished` signal, as its last event, carrying the task kind; the flag ends clear; success holds exactly when an operation was chosen and did not raise |
| RunSpec.RunMergeReportsTrue | src/MergePicFolders/worker.py:99-105 | every merge that was started is reported as a success, whatever it skipped, failed or cancelled (src/worker.py:65-71 and merge_subfolders.py:82-88 likewise) |
| RunSpec.RunRefused | src/MergePicFolders/worker.py:106-129 | a task with missing arguments gives one error, then `finished(kind, False)`, and nothing else |
| RunSpec.LegacyRefusesPopulate | merge_subfolders.py:72-116 | the all-in-one variant refuses the populate task as unknown, whatever its arguments |
| RunSpec.RunMergeEffect | src/MergePicFolders/worker.py:99-105 | a merge run keeps the target consistent and removes only empty directories a source's walk listed, each with a successful rmdir |
| RunSpec.RunPreviewEffect | src/MergePicFolders/worker.py:93-95 | a preview run emits at most one image, and only the expected one |
| RunSpec.RunPopulateEffect | src/MergePicFolders/worker.py:96-98 | a populate run reports the root's immediate directories in listing order, or nothing when cancelled or failed |
| RunSpec.RunScanEffect | src/MergePicFolders/worker.py:90-92 | a scan run emits the supported files in listing order in batches of at most 50: all of them when it reaches the end of a listing that does not fail, only the full batches of what it reached otherwise |
| WorkerModel.Worker.constructor | src/MergePicFolders/worker.py:28-69 | the running flag starts set and the success flag clear, with an empty event log |
| WorkerModel.Worker.RequestStop | src/MergePicFolders/worker.py:140-153 | `stop()` clears the flag and reports the cancellation request |
| WorkerModel.Worker.ScanFolderForImages | src/MergePicFolders/worker.py:155-206 | the buffer-filling loop leaves the state `ScanSpec.Scan` describes |
| WorkerModel.Worker.GetFolderPreviewImage | src/MergePicFolders/worker.py:392-465 | the pattern loops leave the state `PreviewSpec.Preview` describes |
| WorkerModel.Worker.FindSubfolders | src/MergePicFolders/worker.py:467-509 | the `iterdir` loop leaves the state `PopulateSpec.Populate` describes |
| WorkerModel.Worker.MergeSubfoldersToTarget | src/MergePicFolders/worker.py:248-390 | the source, item, walk and rmdir loops leave the state `MergeSpec.Merge` describes |
| WorkerModel.Worker.Run | src/MergePicFolders/worker.py:71-138 | the dispatch, the operation and the `finally` clause leave the state `RunSpec.Run` describes |
| NaturalSort.NaturalKeyShape | src/MergePicFolders/window.py:1410-1428 | the key alternates text and number, starting and ending with text, so two keys never compare a text run with a number |
| NaturalSort.NaturalOrdersNumbers | src/MergePicFolders/window.py:1410-1428 | numbers in names compare by value under the natural key |
| NaturalSort.FolderTwoBeforeTen | src/MergePicFolders/window.py:1410-1428 | `folder2` comes before `folder10` under the natural key |
| NaturalSort.PlainTenBeforeTwo | src/MergePicFolders/window.py:678-681 | plain string order puts `folder10` before `folder2` |
| NaturalSort.SortBySpec | src/MergePicFolders/window.py:1385-1390 | the stable sort by key returns a permutation of its input in key order |
| NaturalSort.KeyLessTransitive | src/MergePicFolders/window.py:1385-1390 | the key order is transitive, as a sort needs |
| Catalog.RequestOutcome | src/MergePicFolders/window.py:767-825 | a request starts a worker for the folder under a fresh id only below two workers, or queues it only at two, or changes nothing (not a folder, a readable cached image, already running); rows and cache are untouched |
| Catalog.ReleaseOne | src/MergePicFolders/window.py:758-761 | since ids are distinct, at most one entry goes, and it is the finished worker's |
| Catalog.FinishedOutcome | src/MergePicFolders/window.py:732-765 | draining is first in, first out: only the finished worker's entry goes, the head of the queue is requested, and the rest keeps its order |
| Catalog.FinishedOtherKind | src/MergePicFolders/window.py:753-754 | any other `finished` signal reaching the preview slot is ignored |
| Catalog.ThumbnailOutcome | src/MergePicFolders/window.py:827-845 | showing a thumbnail writes the cache entry and changes nothing else |
| Catalog.ByNameMeans | src/MergePicFolders/window.py:665-668 | a name is in the map from names to images exactly when a cached folder has it, and maps to the last such entry's image |
| Catalog.CheckedNamesMeans | src/MergePicFolders/window.py:626-630 | a name is remembered exactly when a checked row has it |
| Catalog.CheckedMeans | src/MergePicFolders/window.py:1106-1121 | the checked rows are exactly the rows whose box is checked, in list order |
| Catalog.PutUnique | src/MergePicFolders/window.py:845 | a cache write keeps each key once |
| Refresh.RefreshRows | src/MergePicFolders/window.py:654-730 | after a refresh the rows are the reported folders sorted by the current key, each checked exactly when a row of its name was checked before |
| Refresh.RefreshCache | src/MergePicFolders/window.py:695-708 | each reported folder's cache entry is the image carried by its name when that is a readable file, and is gone otherwise |
| Refresh.RefreshPool | src/MergePicFolders/window.py:710-720 | the first two folders without a usable image get workers (those that are folders) and the rest wait, in list order; the pool stays within its bound |
| Refresh.BuiltNeeds | src/MergePicFolders/window.py:683-708 | the folders a refresh finds needing a preview are distinct and have no cache entry |
| Refresh.NeedingMeans | src/MergePicFolders/window.py:695-708 | a folder needs a preview exactly when its name carries no usable image |
| Refresh.LegacyRows | merge_subfolders.py:604-655 | in the older window the rows are the root's folders sorted by plain name, each checked exactly when a row of its name was checked before |
| Refresh.LegacyCache | merge_subfolders.py:658-671 | in the older window a usable image carried by name is written; otherwise the folder's old entry stays, even when its image is gone |
| Refresh.LegacyPool | merge_subfolders.py:674-692 | the older window requests previews only for folders with no cache entry: the first two get workers and the rest wait, in list order |
| Refresh.LegacyPopulateEmpty | merge_subfolders.py:620-642 | a root that is not a folder, a listing that raises or a root with no folder leaves the older list cleared |
| Refresh.UncachedMeans | merge_subfolders.py:674-679 | a folder is collected exactly when it is listed and has no cache entry |
| MergeList.TargetNameMarked | src/MergePicFolders/window.py:1173-1179 | whichever branch is taken, the target's lower-cased name contains `_merged` |
| MergeList.TargetNameAgain | src/MergePicFolders/window.py:1176-1179 | picking a merge target as first source gives the same name with `1` appended |
| MergeList.FirstNameSorted | src/MergePicFolders/window.py:1173-1174 | the first of the sorted names is the least name |
| MergeList.PlanStarts | src/MergePicFolders/window.py:1124-1236 | a merge starts exactly when a root is set, a row is checked, every checked row is a folder, the target is not one of them, and the user and `mkdir` agree |
| MergeList.PlanTarget | src/MergePicFolders/window.py:1147-1191 | a started merge takes the checked folders in list order as sources, all folders, with a target directly under the root, not among them, whose name contains `_merged` |
| MergeList.PlanTargetName | src/MergePicFolders/window.py:1173-1179 | the target is named after the least source name |
| MergeList.PlanRefusals | src/MergePicFolders/window.py:1147-1228 | each early return happens for its own reason: no root, an invalid source, no source, a conflict, a declined dialog, a failed `mkdir` |
| MergeList.PlanConflictExample | src/MergePicFolders/window.py:1181-1191 | checking `a` together with `a_merged` makes the target one of the sources, and the merge is refused |
| MergeList.SortListSorted | src/MergePicFolders/window.py:1348-1408 | the re-sorted list is in key order |
| MergeList.SortListPermutes | src/MergePicFolders/window.py:1348-1408 | with one row per folder, re-sorting permutes the rows and every row keeps its checked state |
| MergeList.CheckedByPathMeans | src/MergePicFolders/window.py:1370-1375 | the map knows every listed folder, and for each the checked state of its last row |
| MergeList.UncheckedMeans | src/MergePicFolders/window.py:1304-1326 | every row is unchecked and the folders are the same, in order |
| MergeList.DropAllShape | src/MergePicFolders/window.py:476-496 | dropping the source rows keeps the other rows in order and leaves the queue and ids alone |
| MergeList.DropAllForgets | src/MergePicFolders/window.py:476-496 | dropping the source rows forgets the cache entry and the worker of exactly the listed sources |
| MergeList.AfterMergePool | src/MergePicFolders/window.py:474-514 | after a merge the pool stays valid, the sources' cache entries are gone and the rest unchanged, and no worker runs for a source |
| MergeList.AfterMergeRows | src/MergePicFolders/window.py:474-514 | after a merge no row is a source, every other folder keeps its row, the target gets one when it sits directly under the root, a row is checked only if a row of its folder was, and the list is in key order |
| ListSteps.GetChecked | src/MergePicFolders/window.py:1106-1121 | the loop collects the checked rows in order |
| ListSteps.RememberChecked | src/MergePicFolders/window.py:626-630 | the loop collects the names of the checked rows |
| ListSteps.ThumbsByName | src/MergePicFolders/window.py:665-668 | the loop builds the map from names to images, later entries winning |
| ListSteps.CheckedMap | src/MergePicFolders/window.py:1370-1375 | the loop builds the checked state of each folder, later rows winning |
| ListSteps.Restored | src/MergePicFolders/window.py:1393-1400 | each re-added row is checked exactly when the map says so |
| ListSteps.DecideMerge | src/MergePicFolders/window.py:1147-1228 | the checks before the merge worker starts give the outcome `MergeList.Plan` describes (merge_subfolders.py:998-1097 likewise) |
| WindowModel.ApplyValid | src/MergePicFolders/window.py:443-1408 | each slot keeps at most two preview workers with distinct ids, the cache a proper dict, and a remembered target outside its sources |
| WindowModel.ApplyAllValid | src/MergePicFolders/window.py:443-1408 | however the slots fire, the window stays valid |
| WindowModel.FoundValid | src/MergePicFolders/window.py:654-730 | a listing report keeps the pool valid, whatever state it meets |
| WindowModel.ConfirmThenFinish | src/MergePicFolders/window.py:474-514 | a merge that is confirmed and then reported successful leaves no row for a source, an unchecked row for the target, and nothing remembered |
| WindowModel.FolderList.constructor | src/MergePicFolders/window.py:37-56 | the list starts empty with natural sort on |
| WindowModel.FolderList.SelectRootFolder | src/MergePicFolders/window.py:584-611 | the new state is `SelectRoot` of the old one, and the class stays valid |
| WindowModel.FolderList.PopulateSubfolderList | src/MergePicFolders/window.py:613-652 | the checked names are remembered and the list, pool and queue cleared |
| WindowModel.FolderList.HandleSubfoldersFound | src/MergePicFolders/window.py:654-730 | the row, request and queue loops leave the state `Found` describes |
| WindowModel.FolderList.FolderPreviewTaskFinished | src/MergePicFolders/window.py:732-765 | the state `Catalog.Finished` describes |
| WindowModel.FolderList.RequestFolderPreview | src/MergePicFolders/window.py:767-825 | the state `Catalog.Request` describes |
| WindowModel.FolderList.SetFolderThumbnail | src/MergePicFolders/window.py:827-845 | the cache write and nothing else |
| WindowModel.FolderList.TaskFinished | src/MergePicFolders/window.py:443-564 | the merge branch leaves the state `TaskDone` describes |
| WindowModel.FolderList.MergeSucceeded | src/MergePicFolders/window.py:474-514 | the source rows go with their cache entries and workers, the target's row is added under the root, and the list is re-sorted |
| WindowModel.FolderList.ConfirmAndStartMergeToNew | src/MergePicFolders/window.py:1124-1236 | returns the plan `MergeList.Plan` describes, and remembers a started merge |
| WindowModel.FolderList.UncheckAllSubfolders | src/MergePicFolders/window.py:1304-1326 | every row unchecked, nothing else changed |
| WindowModel.FolderList.ToggleFolderSort | src/MergePicFolders/window.py:1329-1346 | the sort mode follows the button and the list is re-sorted |
| WindowModel.FolderList.SortSubfolderList | src/MergePicFolders/window.py:1348-1408 | the rows are re-sorted with their checked states restored by folder |
| LegacyWindowModel.StepsValid | merge_subfolders.py:533-764 | however the slots of the older window fire, its pool stays within two workers with distinct ids |
| LegacyWindowModel.ReloadValid | merge_subfolders.py:604-700 | a rebuild keeps the pool valid whatever the listing holds, keeps the root, and never reuses an id |
| LegacyWindowModel.ChooseForgetsChecks | merge_subfolders.py:581-601 | choosing a root leaves no row checked and, for a readable folder, lists its folders in plain name order; the cache is kept |
| LegacyWindowModel.DoneAfterMergeReloads | merge_subfolders.py:533-549 | every merge, failed or not, ends in a full rebuild of the list |
| LegacyWindowModel.DuplicateRequestOrphans | merge_subfolders.py:722-757 | asking again for a folder whose worker runs, with a free slot, replaces its entry, so the first worker's `finished` finds no entry to drop |
| LegacyWindowModel.Unpreviewed | merge_subfolders.py:674-679 | the loop collects the listed folders with no cache entry, in list order |
| LegacyWindowModel.LegacyFolderList.SelectRootFolder | merge_subfolders.py:581-601 | the new state is `Choose` of the old one, and the class stays valid |
| LegacyWindowModel.LegacyFolderList.PopulateSubfolderList | merge_subfolders.py:604-700 | the listing, row, request and queue loops leave the state `Reload` describes |
| LegacyWindowModel.LegacyFolderList.FolderPreviewTaskFinished | merge_subfolders.py:703-720 | the state `Catalog.Finished` describes |
| LegacyWindowModel.LegacyFolderList.RequestFolderPreview | merge_subfolders.py:722-757 | the state `Catalog.Request` describes, without the check for a running worker |
| LegacyWindowModel.LegacyFolderList.SetFolderThumbnail | merge_subfolders.py:760-764 | the cache write and nothing else |
| LegacyWindowModel.LegacyFolderList.TaskFinished | merge_subfolders.py:533-549 | the state `Done` describes: a rebuild after any merge |
| Pruner.RemoveEmptyFolders | remove_empty.py:13-51 | the loop removes what `Removal` specifies and returns its number; a dry run reports what `Report` specifies |
| Pruner.ExitStatus | remove_empty.py:53-69 | exit code 1 and nothing removed for a missing path, else 0 after pruning |
| Pruner.RemovalMeans | remove_empty.py:24-45 | a directory is removed exactly when the root is a folder, it is not a dry run, the directory is below the root, its walk row listed neither files nor subdirectories, and its rmdir succeeded |
| Pruner.RootKept | remove_empty.py:33-35 | the root itself is never removed nor reported |
| Pruner.ParentKept | remove_empty.py:32-38 | a directory whose row listed a subdirectory is kept, even when that subdirectory was removed in the same walk |
| Pruner.DryRunRemovesNothing | remove_empty.py:39-45 | a dry run removes nothing, and reports what a run whose every rmdir succeeds would remove |
| Pruner.PrunedSubset | remove_empty.py:42-51 | failed rmdirs only take directories out: the count is at most the number of candidates, with equality exactly when every rmdir succeeds |

## Left out

- Qt widgets, layout, styling, icons and image decoding. A list widget is a
  sequence of rows; a thumbnail is the path of its image.
- Dialogs. The folder chosen and the answer to a confirmation are arguments.
  Message boxes are not modelled.
- Threads. `start`, `wait`, `terminate`, `stop_worker_thread`,
  `processEvents` and `closeEvent` are not modelled. Signals are sequential
  calls carrying worker ids. The `stop()` a window sends to a preview worker
  it drops is not modelled: the entry is only removed.
- Log and progress text. Events keep what they report (paths, counts, the
  kind of error), not the formatted message.
- Restoring the selection after a sort, `clear_preview_area`, and the
  `not list_item` test of `request_folder_preview`.
- Exceptions raised inside the windows' `try` blocks. The listing of the
  older window's root may raise; it is a parameter.
- The older window's call to `start_merge_task` after its checks. The newer
  window starts its merge through `ConfirmAndStartMergeToNew`, which only
  records the sources and target.
- The wall clock: the resolver's fallback uses an opaque number.
- Unicode. Lower-casing is ASCII only, and digits are ASCII digits.
- The remover's logging, argument parsing and `os.path.abspath`.
- setup.py, `__main__.py` and `src/main.py`, which are packaging and entry
  points.
- LegacyWindowModel.ChooseForgetsChecks: it does not state the cache after a
  change of root. The older window keeps the cache, and that is stated by
  `Refresh.LegacyCache`.
