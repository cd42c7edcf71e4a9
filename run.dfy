/**
 * `Worker.run`: choose the operation from the task kind and the arguments
 * given, run it, and always finish with exactly one `finished(kind, success)`.
 */
module RunSpec {
  import opened Wrappers
  import opened FsModel
  import opened Events
  import opened ScanSpec
  import opened PreviewSpec
  import opened PopulateSpec
  import opened MergeSpec

  /**
   * The constructor's keyword arguments; `None` / `[]` where an argument was
   * missing or empty (the constructor turns a falsy path into `None`).
   */
  datatype Task = Task(kind: TaskKind, folder: Option<Dir>, root: Option<Dir>, sources: seq<Dir>, target: Option<Target>)

  /** What `run` does with a task: one of the operations, or an error signal. */
  datatype Op = DoScan(dir: Dir) | DoPreview(dir: Dir) | DoPopulate(dir: Dir) | DoMerge(target: Target, sources: seq<Dir>) | Refuse(fault: Fault)

  /** The error of the `else` branch. The all-in-one variant has no populate task, so it has no populate message either. */
  function Refusal(t: Task, legacy: bool): Fault {
    if t.kind == Other("") then NoTaskType
    else if t.kind == ScanImages && t.folder.None? then ScanWithoutFolder
    else if !legacy && t.kind == PopulateSubfolders && t.root.None? then PopulateWithoutRoot
    else if t.kind == MergeSubs && (t.target.None? || |t.sources| == 0) then MergeWithoutFolders
    else UnknownTask(t.kind)
  }

  /** The `if` / `elif` chain of `run`. */
  function Dispatch(t: Task, legacy: bool): Op {
    if t.kind == ScanImages && t.folder.Some? then DoScan(t.folder.value)
    else if t.kind == FindPreview && t.folder.Some? then DoPreview(t.folder.value)
    else if !legacy && t.kind == PopulateSubfolders && t.root.Some? then DoPopulate(t.root.value)
    else if t.kind == MergeSubs && t.target.Some? && |t.sources| > 0 then DoMerge(t.target.value, t.sources)
    else Refuse(Refusal(t, legacy))
  }

  /** The chosen operation, with whether it raised to `run`. */
  function Perform(s: WorkerState, op: Op, legacy: bool, env: Env, stop: Stop): (WorkerState, bool) {
    match op
    case DoScan(d) => Scan(s, d, Extensions(legacy), stop)
    case DoPreview(d) => (Preview(s, d, Extensions(legacy), legacy, stop), false)
    case DoPopulate(d) => Populate(s, d, stop)
    case DoMerge(tg, srcs) => (Merge(s, tg, srcs, env, stop), false)
    case Refuse(f) => (Emit(s, Error(f)), false)
  }

  /** `run` resets both flags; the schedule of `stop()` counts reads from here on. */
  function Started(s: WorkerState): WorkerState {
    s.(running := true, success := false, polls := 0)
  }

  /** After the operation: `_success = True` when it returned, the unexpected-error report when it raised. */
  function Settle(r: (WorkerState, bool), op: Op, kind: TaskKind): WorkerState {
    if r.1 then Emit(r.0, Error(Unexpected(kind))).(success := false)
    else if op.Refuse? then r.0
    else r.0.(success := true)
  }

  /** The `finally` clause: clear the flag and emit the one terminal signal. */
  function Finally(s: WorkerState, kind: TaskKind): WorkerState {
    Emit(s.(running := false), Finished(kind, s.success))
  }

  function Run(s: WorkerState, t: Task, legacy: bool, env: Env, stop: Stop): WorkerState {
    var op := Dispatch(t, legacy);
    Finally(Settle(Perform(Started(s), op, legacy, env, stop), op, t.kind), t.kind)
  }

  /** Whether the chosen operation raised to `run`: only a scan or a populate whose listing failed before any stop. */
  predicate Raises(s: WorkerState, op: Op, stop: Stop) {
    match op
    case DoScan(d) => d.isDir && d.tree.raises && Reach(s, stop, |d.tree.entries|) == |d.tree.entries|
    case DoPopulate(d) => d.isDir && d.children.raises && Reach(s, stop, |d.children.entries|) == |d.children.entries|
    case _ => false
  }

  /** A fresh worker: nothing moved yet, so the target's names are as given. */
  predicate FreshWorker(s: WorkerState) {
    s.moves == []
  }

  lemma FreshConsistent(s: WorkerState)
    requires FreshWorker(s)
    ensures TargetConsistent(s.names, Started(s))
  {
    assert MovedNames([]) == {};
  }

  /** The operations emit no `finished` signal and raise as `Raises` says. */
  lemma PerformEffect(s: WorkerState, op: Op, legacy: bool, env: Env, stop: Stop)
    requires FreshWorker(s)
    ensures var r := Perform(Started(s), op, legacy, env, stop);
            FinishedCount(r.0.events) == FinishedCount(s.events)
            && (r.1 <==> Raises(Started(s), op, stop))
  {
    var s0 := Started(s);
    match op
    case DoScan(d) =>
      ScanNoFinish(s0, d, Extensions(legacy), stop);
      ScanRaises(s0, d, Extensions(legacy), stop);
    case DoPreview(d) =>
      PreviewNoFinish(s0, d, Extensions(legacy), legacy, stop);
    case DoPopulate(d) =>
      PopulateNoFinish(s0, d, stop);
      PopulateEffect(s0, d, stop);
    case DoMerge(tg, srcs) =>
      FreshConsistent(s);
      MergeNoFinish(s0, tg, srcs, env, stop, s.names);
    case Refuse(f) =>
      CountsEmit(s0.events, Error(f));
  }

  /** Settling adds an unexpected-error report at most. */
  lemma SettleEffect(r: (WorkerState, bool), op: Op, kind: TaskKind)
    ensures var f := Settle(r, op, kind);
            FinishedCount(f.events) == FinishedCount(r.0.events)
            && Batches(f.events) == Batches(r.0.events) && Previews(f.events) == Previews(r.0.events)
            && Founds(f.events) == Founds(r.0.events) && Summaries(f.events) == Summaries(r.0.events)
            && f.names == r.0.names && f.moves == r.0.moves && f.removed == r.0.removed
            && f.success == (if r.1 then false else if op.Refuse? then r.0.success else true)
  {
    CountsEmit(r.0.events, Error(Unexpected(kind)));
  }

  /** The `finally` clause adds the terminal signal and nothing else. */
  lemma FinallyEffect(s: WorkerState, kind: TaskKind)
    ensures var f := Finally(s, kind);
            FinishedCount(f.events) == FinishedCount(s.events) + 1
            && Batches(f.events) == Batches(s.events) && Previews(f.events) == Previews(s.events)
            && Founds(f.events) == Founds(s.events) && Summaries(f.events) == Summaries(s.events)
            && f.names == s.names && f.moves == s.moves && f.removed == s.removed
            && !f.running && f.success == s.success
  {
    CountsEmit(s.events, Finished(kind, s.success));
  }

  /** Both closing steps together. */
  lemma CloseEffect(r: (WorkerState, bool), op: Op, kind: TaskKind)
    ensures var f := Finally(Settle(r, op, kind), kind);
            FinishedCount(f.events) == FinishedCount(r.0.events) + 1
            && Batches(f.events) == Batches(r.0.events) && Previews(f.events) == Previews(r.0.events)
            && Founds(f.events) == Founds(r.0.events) && Summaries(f.events) == Summaries(r.0.events)
            && f.names == r.0.names && f.moves == r.0.moves && f.removed == r.0.removed
            && !f.running && f.success == (if r.1 then false else if op.Refuse? then r.0.success else true)
  {
    SettleEffect(r, op, kind);
    FinallyEffect(Settle(r, op, kind), kind);
  }

  /**
   * Whatever the task, `run` emits exactly one `finished` signal, as its last
   * event, carrying the task kind; the flag ends clear, and success holds
   * exactly when an operation was chosen and did not raise.
   */
  lemma RunFinishesOnce(s: WorkerState, t: Task, legacy: bool, env: Env, stop: Stop)
    requires FreshWorker(s)
    ensures var r := Run(s, t, legacy, env, stop);
            FinishedCount(r.events) == FinishedCount(s.events) + 1
            && |r.events| > 0 && r.events[|r.events| - 1] == Finished(t.kind, r.success)
            && !r.running
            && r.success == (!Dispatch(t, legacy).Refuse? && !Raises(Started(s), Dispatch(t, legacy), stop))
  {
    var op := Dispatch(t, legacy);
    PerformEffect(s, op, legacy, env, stop);
    CloseEffect(Perform(Started(s), op, legacy, env, stop), op, t.kind);
  }

  /**
   * A merge never raises to `run`, so `run` reports success for every merge
   * that was started, whatever it skipped, failed or cancelled.
   */
  lemma RunMergeReportsTrue(s: WorkerState, t: Task, legacy: bool, env: Env, stop: Stop)
    requires FreshWorker(s) && Dispatch(t, legacy).DoMerge?
    ensures var r := Run(s, t, legacy, env, stop);
            r.success && r.events[|r.events| - 1] == Finished(MergeSubs, true)
  {
    RunFinishesOnce(s, t, legacy, env, stop);
  }

  /** A refused task: one error, then `finished(kind, False)`; nothing else happens. */
  lemma RunRefused(s: WorkerState, t: Task, legacy: bool, env: Env, stop: Stop)
    requires Dispatch(t, legacy).Refuse?
    ensures var r := Run(s, t, legacy, env, stop);
            r.events == s.events + [Error(Refusal(t, legacy)), Finished(t.kind, false)]
            && r.names == s.names && r.moves == s.moves && r.removed == s.removed && !r.success
  {
  }

  /** The all-in-one variant does not know the populate task: it is refused as unknown, whatever the arguments. */
  lemma LegacyRefusesPopulate(s: WorkerState, t: Task, env: Env, stop: Stop)
    requires t.kind == PopulateSubfolders
    ensures Run(s, t, true, env, stop).events == s.events + [Error(UnknownTask(PopulateSubfolders)), Finished(PopulateSubfolders, false)]
  {
    RunRefused(s, t, true, env, stop);
  }

  /**
   * A merge run keeps the target consistent (moved names fresh and pairwise
   * distinct) and removes only empty directories a source's walk listed,
   * each with a successful rmdir.
   */
  lemma RunMergeEffect(s: WorkerState, t: Task, legacy: bool, env: Env, stop: Stop)
    requires FreshWorker(s) && Dispatch(t, legacy).DoMerge?
    ensures var r := Run(s, t, legacy, env, stop);
            TargetConsistent(s.names, r) && RemovedOnlyEmpty(s, r, t.sources, env)
  {
    var op := Dispatch(t, legacy);
    FreshConsistent(s);
    MergeEffect(Started(s), op.target, op.sources, env, stop, s.names);
    CloseEffect(Perform(Started(s), op, legacy, env, stop), op, t.kind);
  }

  /** A preview run emits at most one preview image, and only the expected one. */
  lemma RunPreviewEffect(s: WorkerState, t: Task, legacy: bool, env: Env, stop: Stop)
    requires Dispatch(t, legacy).DoPreview?
    ensures var r := Run(s, t, legacy, env, stop);
            var p := ExpectedPreview(t.folder.value, Extensions(legacy));
            Previews(r.events) == Previews(s.events) || (p.Some? && Previews(r.events) == Previews(s.events) + [p.value])
  {
    var op := Dispatch(t, legacy);
    PreviewAtMostExpected(Started(s), op.dir, Extensions(legacy), legacy, stop);
    CloseEffect(Perform(Started(s), op, legacy, env, stop), op, t.kind);
  }

  /** A populate run reports the root's immediate directories in listing order, or nothing when cancelled or failed. */
  lemma RunPopulateEffect(s: WorkerState, t: Task, legacy: bool, env: Env, stop: Stop)
    requires Dispatch(t, legacy).DoPopulate?
    ensures var r := Run(s, t, legacy, env, stop);
            var d := t.root.value;
            Founds(r.events) == Founds(s.events) + (if Reports(Started(s), d, stop) then [Directories(d.children.entries)] else [])
  {
    var op := Dispatch(t, legacy);
    PopulateEffect(Started(s), op.dir, stop);
    CloseEffect(Perform(Started(s), op, legacy, env, stop), op, t.kind);
  }

  /**
   * A scan run emits the supported files in listing order as batches of at
   * most 50: all of them, partitioned, when it reaches the end of a listing
   * that does not fail; only the full batches of what it reached otherwise.
   */
  lemma RunScanEffect(s: WorkerState, t: Task, legacy: bool, env: Env, stop: Stop)
    requires Dispatch(t, legacy).DoScan? && t.folder.value.isDir
    ensures var r := Run(s, t, legacy, env, stop);
            var es := t.folder.value.tree.entries;
            var j := Reach(Started(s), stop, |es|);
            Batches(r.events) == Batches(s.events)
              + (if j == |es| && !t.folder.value.tree.raises then Partition(Images(es, Extensions(legacy)))
                 else Chunks(Images(es[..j], Extensions(legacy))))
  {
    var op := Dispatch(t, legacy);
    var d := op.dir;
    var es := d.tree.entries;
    if Reach(Started(s), stop, |es|) == |es| && !d.tree.raises {
      ScanCompletes(Started(s), d, Extensions(legacy), stop);
    } else {
      ScanCutShort(Started(s), d, Extensions(legacy), stop);
    }
    CloseEffect(Perform(Started(s), op, legacy, env, stop), op, t.kind);
  }
}
