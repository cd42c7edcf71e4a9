/**
 * The worker's observable behaviour: the signals it emits (as one append-only
 * event log), its `_is_running` / `_success` flags, and the filesystem effects
 * of a merge. Cancellation is cooperative: the controlling thread calls
 * `stop()` at some point, and the worker notices at its next read of the flag.
 */
module Events {
  import opened Wrappers
  import opened FsModel

  /** The `task_type` string: the four known kinds, or any other string (`""` = no task type). */
  datatype TaskKind = ScanImages | FindPreview | PopulateSubfolders | MergeSubs | Other(name: string)

  /** Text of a `progress` signal, as its parameters. */
  datatype Note =
    | CancelRequested
    | ScanStarted(folder: Path)
    | ScanCancelled
    | ScanComplete(folder: Path, count: nat)
    | MergeStarted(target: Path)
    | SourcesCancelled
    | ProcessingSource(source: Path)
    | FilesCancelled
    | Moved(file: Path, newName: string)
    | CheckingDeletion
    | DeletedDir(dir: Path)
    | DeleteFailed(dir: Path)
    | MergeSummary(moved: nat, skipped: nat, processed: nat, deleted: nat)
    | FindingPreview(folder: Path)
    | SkippingInaccessible(item: Path)
    | NoPreviewFound(folder: Path)
    | PopulateStarted(root: Path)
    | PopulateCancelled
    | SubfolderCount(count: nat)

  /** Text of an `error` signal, as its parameters. */
  datatype Fault =
    | CannotScan(folder: Path)
    | ScanFailed(folder: Path)
    | TargetMissing(target: Path)
    | SourceNotADirectory(source: Path)
    | NoUniqueName(file: Path)
    | MoveFailed(file: Path)
    | MergeFailed
    | PreviewFailed(folder: Path)
    | CannotPopulate(root: Path)
    | PopulateFailed(root: Path)
    | NoTaskType
    | ScanWithoutFolder
    | PopulateWithoutRoot
    | MergeWithoutFolders
    | UnknownTask(kind: TaskKind)
    | Unexpected(kind: TaskKind)

  /** One emitted signal. */
  datatype Event =
    | Progress(note: Note)
    | Error(fault: Fault)
    | ImageBatch(paths: seq<Path>)
    | PreviewImage(folder: Path, image: Path)
    | SubfoldersFound(dirs: seq<Path>)
    | Finished(kind: TaskKind, success: bool)

  /** A file moved into the merge target under `newName`. */
  datatype Move = Move(file: Path, newName: string)

  /**
   * When the controlling thread calls `stop()`: never, or just before the
   * worker's k-th read (counting from 0) of `_is_running` since `run` began.
   */
  datatype Stop = Never | BeforePoll(k: nat)

  /**
   * Everything a worker changes: its two flags, the number of flag reads so
   * far, the signals emitted, and for a merge the target's current file
   * names, the moves done and the directories removed.
   */
  datatype WorkerState = WorkerState(
    running: bool, success: bool, polls: nat, events: seq<Event>,
    names: set<string>, moves: seq<Move>, removed: seq<Path>)

  /** Outcomes of the filesystem calls a worker makes: `shutil.move`, `rmdir`, and the clock reading per resolved file. */
  datatype Env = Env(moveOk: (Path, string) -> bool, rmdirOk: Path -> bool, clock: Path -> nat)

  function Emit(s: WorkerState, e: Event): (r: WorkerState)
    ensures r.events == s.events + [e]
    ensures r.(events := s.events) == s
  {
    s.(events := s.events + [e])
  }

  /** `stop()`: clears the flag and reports that cancellation was requested. */
  function Stopped(s: WorkerState): (r: WorkerState)
    ensures !r.running && r.events == s.events + [Progress(CancelRequested)]
  {
    Emit(s.(running := false), Progress(CancelRequested))
  }

  /** One read of `_is_running`, with `stop()` running first when it is due. */
  function Poll(s: WorkerState, stop: Stop): (r: WorkerState)
    ensures r.polls == s.polls + 1
    ensures r.running ==> s.running && r.events == s.events
    ensures r.events == s.events || r.events == s.events + [Progress(CancelRequested)]
    ensures r.names == s.names && r.moves == s.moves && r.removed == s.removed && r.success == s.success
  {
    var s1 := if stop == BeforePoll(s.polls) then Stopped(s) else s;
    s1.(polls := s.polls + 1)
  }

  /**
   * How many items a loop that reads the flag once before each of its `n`
   * items gets through: all of them unless the flag is already clear or the
   * stop falls due at one of its reads.
   */
  function Reach(s: WorkerState, stop: Stop, n: nat): (j: nat)
    ensures j <= n
  {
    if !s.running then 0
    else match stop
      case Never => n
      case BeforePoll(k) => if s.polls <= k < s.polls + n then k - s.polls else n
  }

  lemma ReachStep(s: WorkerState, stop: Stop, n: nat)
    requires n > 0
    ensures var s1 := Poll(s, stop);
            if s1.running then Reach(s, stop, n) == Reach(s1, stop, n - 1) + 1
            else Reach(s, stop, n) == 0
  {
  }

  /** Number of `finished` signals among `evs`. */
  function FinishedCount(evs: seq<Event>): nat {
    if |evs| == 0 then 0
    else FinishedCount(evs[..|evs| - 1]) + (if evs[|evs| - 1].Finished? then 1 else 0)
  }

  /** The payloads of the `image_paths` signals among `evs`, in order. */
  function Batches(evs: seq<Event>): seq<seq<Path>> {
    if |evs| == 0 then []
    else Batches(evs[..|evs| - 1]) + (if evs[|evs| - 1].ImageBatch? then [evs[|evs| - 1].paths] else [])
  }

  /** The image paths of the `folder_preview_image` signals among `evs`, in order. */
  function Previews(evs: seq<Event>): seq<Path> {
    if |evs| == 0 then []
    else Previews(evs[..|evs| - 1]) + (if evs[|evs| - 1].PreviewImage? then [evs[|evs| - 1].image] else [])
  }

  /** The payloads of the `subfolders_found` signals among `evs`, in order. */
  function Founds(evs: seq<Event>): seq<seq<Path>> {
    if |evs| == 0 then []
    else Founds(evs[..|evs| - 1]) + (if evs[|evs| - 1].SubfoldersFound? then [evs[|evs| - 1].dirs] else [])
  }

  /** Number of `Moved` progress reports among `evs`. */
  function MovedReports(evs: seq<Event>): nat {
    if |evs| == 0 then 0
    else MovedReports(evs[..|evs| - 1])
         + (if evs[|evs| - 1].Progress? && evs[|evs| - 1].note.Moved? then 1 else 0)
  }

  /** Number of per-file skip errors (no unique name, or the move failed) among `evs`. */
  function SkipReports(evs: seq<Event>): nat {
    if |evs| == 0 then 0
    else SkipReports(evs[..|evs| - 1])
         + (if evs[|evs| - 1].Error? && (evs[|evs| - 1].fault.NoUniqueName? || evs[|evs| - 1].fault.MoveFailed?)
            then 1 else 0)
  }

  /** Number of merge summaries among `evs`. */
  function Summaries(evs: seq<Event>): nat {
    if |evs| == 0 then 0
    else Summaries(evs[..|evs| - 1])
         + (if evs[|evs| - 1].Progress? && evs[|evs| - 1].note.MergeSummary? then 1 else 0)
  }

  /** The file names moved, as a set. */
  function MovedNames(moves: seq<Move>): (r: set<string>)
    ensures forall m :: m in moves ==> m.newName in r
  {
    if |moves| == 0 then {} else MovedNames(moves[..|moves| - 1]) + {moves[|moves| - 1].newName}
  }

  /** No two moves chose the same name, and none chose a name the target held before (`names0`). */
  predicate FreshMoves(names0: set<string>, moves: seq<Move>) {
    (forall i :: 0 <= i < |moves| ==> moves[i].newName !in names0)
    && (forall i, j :: 0 <= i < j < |moves| ==> moves[i].newName != moves[j].newName)
  }

  /** The target's name set is its initial one plus exactly the moved names, all of them fresh. */
  predicate TargetConsistent(names0: set<string>, s: WorkerState) {
    s.names == names0 + MovedNames(s.moves) && FreshMoves(names0, s.moves)
  }

  /** How emitting one more event changes each of the counts above. */
  lemma CountsEmit(evs: seq<Event>, e: Event)
    ensures FinishedCount(evs + [e]) == FinishedCount(evs) + (if e.Finished? then 1 else 0)
    ensures Batches(evs + [e]) == Batches(evs) + (if e.ImageBatch? then [e.paths] else [])
    ensures Previews(evs + [e]) == Previews(evs) + (if e.PreviewImage? then [e.image] else [])
    ensures Founds(evs + [e]) == Founds(evs) + (if e.SubfoldersFound? then [e.dirs] else [])
    ensures MovedReports(evs + [e]) == MovedReports(evs) + (if e.Progress? && e.note.Moved? then 1 else 0)
    ensures SkipReports(evs + [e])
            == SkipReports(evs) + (if e.Error? && (e.fault.NoUniqueName? || e.fault.MoveFailed?) then 1 else 0)
    ensures Summaries(evs + [e]) == Summaries(evs) + (if e.Progress? && e.note.MergeSummary? then 1 else 0)
  {
    assert (evs + [e])[..|evs + [e]| - 1] == evs;
  }
}
