/**
 * The `Worker` thread object: its flags and signal log are fields that its
 * methods update in place, and each method is proved to leave the state that
 * the corresponding function of the specification modules describes.
 */
module WorkerModel {
  import opened Wrappers
  import opened FsModel
  import opened Events
  import opened Resolver
  import opened ScanSpec
  import opened PreviewSpec
  import opened PopulateSpec
  import opened MergeSpec
  import opened RunSpec

  class Worker {
    /** The constructor's arguments. */
    const task: Task
    /** Whether this is the all-in-one merge_subfolders.py variant. */
    const legacy: bool
    /** Outcomes of moves and rmdirs, and the clock. */
    const env: Env
    /** When the controlling thread calls `stop()`. */
    const stopAt: Stop

    var running: bool
    var success: bool
    var polls: nat
    /** Every signal emitted, in order. */
    var events: seq<Event>
    /** The merge target's current file names. */
    var names: set<string>
    var moves: seq<Move>
    var removed: seq<Path>

    function State(): WorkerState
      reads this
    {
      WorkerState(running, success, polls, events, names, moves, removed)
    }

    /** `Worker(task_type, ...)`: both flags as `__init__` sets them; `targetNames` is what the target holds. */
    constructor (task: Task, legacy: bool, env: Env, stopAt: Stop, targetNames: set<string>)
      ensures this.task == task && this.legacy == legacy && this.env == env && this.stopAt == stopAt
      ensures State() == WorkerState(true, false, 0, [], targetNames, [], [])
    {
      this.task := task;
      this.legacy := legacy;
      this.env := env;
      this.stopAt := stopAt;
      running := true;
      success := false;
      polls := 0;
      events := [];
      names := targetNames;
      moves := [];
      removed := [];
    }

    /** Emitting a signal. */
    method Signal(e: Event)
      modifies this
      ensures State() == Emit(old(State()), e)
    {
      events := events + [e];
    }

    /** `stop()`. */
    method RequestStop()
      modifies this
      ensures State() == Stopped(old(State()))
    {
      running := false;
      Signal(Progress(CancelRequested));
    }

    /** One read of `self._is_running`, with the controlling thread's `stop()` first when it falls due. */
    method IsRunning() returns (b: bool)
      modifies this
      ensures State() == Poll(old(State()), stopAt) && b == running
    {
      if stopAt == BeforePoll(polls) {
        RequestStop();
      }
      polls := polls + 1;
      b := running;
    }

    /** The `for item in folder_path.rglob("*")` loop with its batch buffer; `cancelled` says it returned on a cleared flag. */
    method ScanItems(items: seq<Entry>, exts: set<string>) returns (buffer: seq<Path>, count: nat, cancelled: bool)
      modifies this
      ensures (ScanAcc(State(), buffer, count), cancelled) == ScanLoop(ScanAcc(old(State()), [], 0), items, exts, stopAt)
    {
      buffer, count := [], 0;
      var i := 0;
      while i < |items|
        invariant 0 <= i <= |items|
        invariant ScanLoop(ScanAcc(State(), buffer, count), items[i..], exts, stopAt)
                  == ScanLoop(ScanAcc(old(State()), [], 0), items, exts, stopAt)
      {
        assert items[i..][1..] == items[i + 1..];
        var ok := IsRunning();
        if !ok {
          Signal(Progress(ScanCancelled));
          return buffer, count, true;
        }
        var e := items[i];
        if IsImage(e, exts) {
          buffer := buffer + [e.path];
          count := count + 1;
          if |buffer| >= BatchSize {
            Signal(ImageBatch(buffer));
            buffer := [];
          }
        }
        i := i + 1;
      }
      return buffer, count, false;
    }

    /** `_scan_folder_for_images`; `raised` says it re-raised to `run`. */
    method ScanFolderForImages(dir: Dir) returns (raised: bool)
      modifies this
      ensures (State(), raised) == Scan(old(State()), dir, Extensions(legacy), stopAt)
    {
      var exts := Extensions(legacy);
      if !dir.isDir {
        Signal(Error(CannotScan(dir.path)));
        return false;
      }
      Signal(Progress(ScanStarted(dir.path)));
      var buffer, count, cancelled := ScanItems(dir.tree.entries, exts);
      if cancelled {
        return false;
      }
      if dir.tree.raises {
        Signal(Error(ScanFailed(dir.path)));
        return true;
      }
      if buffer != [] {
        Signal(ImageBatch(buffer));
      }
      Signal(Progress(ScanComplete(dir.path, count)));
      return false;
    }

    /** One `for item in folder_path.glob(pattern)` loop of the preview search. */
    method PreviewPassLoop(folder: Path, items: seq<Entry>, exts: set<string>) returns (end: PassEnd)
      modifies this
      ensures (State(), end) == PreviewPass(old(State()), folder, items, exts, stopAt)
    {
      var i := 0;
      while i < |items|
        invariant 0 <= i <= |items|
        invariant PreviewPass(State(), folder, items[i..], exts, stopAt) == PreviewPass(old(State()), folder, items, exts, stopAt)
      {
        assert items[i..][1..] == items[i + 1..];
        var ok := IsRunning();
        if !ok {
          return Quit;
        }
        var e := items[i];
        if IsImage(e, exts) {
          match e.size
          case None =>
            Signal(Progress(SkippingInaccessible(e.path)));
          case Some(n) =>
            if n > 0 {
              Signal(PreviewImage(folder, e.path));
              return Found;
            }
        }
        i := i + 1;
      }
      return Exhausted;
    }

    /** `_get_folder_preview_image`: pattern "*", then the depth loop over depths 1 and 2. */
    method GetFolderPreviewImage(dir: Dir)
      modifies this
      ensures State() == Preview(old(State()), dir, Extensions(legacy), legacy, stopAt)
    {
      var exts := Extensions(legacy);
      if !dir.isDir {
        Signal(Error(CannotScan(dir.path)));
        return;
      }
      if legacy {
        Signal(Progress(FindingPreview(dir.path)));
      }
      assert Passes(dir)[0] == dir.children && Passes(dir)[1..] == [dir.children, dir.grandchildren];
      var end := PreviewPassLoop(dir.path, dir.children.entries, exts);
      if end != Exhausted {
        return;
      }
      if dir.children.raises {
        Signal(Error(PreviewFailed(dir.path)));
        return;
      }
      DepthLoop(dir, exts);
    }

    /** The `for depth in range(1, max_depth + 1)` loop and the report after it. */
    method DepthLoop(dir: Dir, exts: set<string>)
      modifies this
      ensures State() == PreviewPasses(old(State()), dir.path, [dir.children, dir.grandchildren], exts, stopAt)
    {
      ghost var passes := [dir.children, dir.grandchildren];
      var depth := 1;
      while depth <= 2
        invariant 1 <= depth <= 3
        invariant PreviewPasses(State(), dir.path, passes[depth - 1..], exts, stopAt)
                  == PreviewPasses(old(State()), dir.path, passes, exts, stopAt)
      {
        var listing := if depth == 1 then dir.children else dir.grandchildren;
        assert passes[depth - 1..][0] == listing && passes[depth - 1..][1..] == passes[depth..];
        var end := PreviewPassLoop(dir.path, listing.entries, exts);
        if end != Exhausted {
          return;
        }
        if listing.raises {
          Signal(Error(PreviewFailed(dir.path)));
          return;
        }
        depth := depth + 1;
      }
      Signal(Progress(NoPreviewFound(dir.path)));
    }

    /** `_populate_subfolders`; `raised` says it re-raised to `run`. */
    method FindSubfolders(dir: Dir) returns (raised: bool)
      modifies this
      ensures (State(), raised) == Populate(old(State()), dir, stopAt)
    {
      if !dir.isDir {
        Signal(Error(CannotPopulate(dir.path)));
        return false;
      }
      Signal(Progress(PopulateStarted(dir.path)));
      var items := dir.children.entries;
      ghost var goal := PopLoop(State(), items, [], stopAt);
      var subdirs: seq<Path> := [];
      var i := 0;
      while i < |items|
        invariant 0 <= i <= |items|
        invariant PopLoop(State(), items[i..], subdirs, stopAt) == goal
      {
        assert items[i..][1..] == items[i + 1..];
        var ok := IsRunning();
        if !ok {
          Signal(Progress(PopulateCancelled));
          return false;
        }
        if items[i].kind == Directory {
          subdirs := subdirs + [items[i].path];
        } else {
          assert subdirs + [] == subdirs;
        }
        i := i + 1;
      }
      if dir.children.raises {
        Signal(Error(PopulateFailed(dir.path)));
        return true;
      }
      var ok := IsRunning();
      if ok {
        Signal(SubfoldersFound(subdirs));
        Signal(Progress(SubfolderCount(|subdirs|)));
      }
      return false;
    }

    /** One item of a source's snapshot: a file is moved under the resolver's name, or skipped. */
    method MoveItem(e: Entry, moved0: nat, skipped0: nat, processed: seq<Dir>) returns (moved: nat, skipped: nat)
      modifies this
      ensures MergeAcc(State(), moved, skipped, processed) == MoveOne(MergeAcc(old(State()), moved0, skipped0, processed), e, env)
    {
      moved, skipped := moved0, skipped0;
      if e.kind == File {
        var target := GenerateUniqueTargetPath(NameOf(e.path), names, env.clock(e.path));
        match target
        case None =>
          Signal(Error(NoUniqueName(e.path)));
          skipped := skipped + 1;
        case Some(n) =>
          if env.moveOk(e.path, n) {
            names := names + {n};
            moves := moves + [Move(e.path, n)];
            Signal(Progress(Moved(e.path, n)));
            moved := moved + 1;
          } else {
            Signal(Error(MoveFailed(e.path)));
            skipped := skipped + 1;
          }
      }
    }

    /** The `for item_path in items_to_move` loop. */
    method MoveItemsLoop(items: seq<Entry>, moved0: nat, skipped0: nat, processed: seq<Dir>)
      returns (moved: nat, skipped: nat, cancelled: bool)
      modifies this
      ensures (MergeAcc(State(), moved, skipped, processed), cancelled)
              == MoveItems(MergeAcc(old(State()), moved0, skipped0, processed), items, env, stopAt)
    {
      moved, skipped := moved0, skipped0;
      var i := 0;
      while i < |items|
        invariant 0 <= i <= |items|
        invariant MoveItems(MergeAcc(State(), moved, skipped, processed), items[i..], env, stopAt)
                  == MoveItems(MergeAcc(old(State()), moved0, skipped0, processed), items, env, stopAt)
      {
        assert items[i..][1..] == items[i + 1..];
        var ok := IsRunning();
        if !ok {
          Signal(Progress(FilesCancelled));
          return moved, skipped, true;
        }
        moved, skipped := MoveItem(items[i], moved, skipped, processed);
        i := i + 1;
      }
      return moved, skipped, false;
    }

    /** The `os.walk(..., topdown=False)` loop gathering `empty_dirs_in_source`. */
    method CollectEmptyLoop(rows: seq<WalkRow>) returns (cands: seq<Path>)
      modifies this
      ensures (State(), cands) == CollectEmpty(old(State()), rows, [], stopAt)
    {
      cands := [];
      var i := 0;
      while i < |rows|
        invariant 0 <= i <= |rows|
        invariant CollectEmpty(State(), rows[i..], cands, stopAt) == CollectEmpty(old(State()), rows, [], stopAt)
      {
        assert rows[i..][1..] == rows[i + 1..];
        var ok := IsRunning();
        if !ok {
          return;
        }
        if !rows[i].hasDirs && !rows[i].hasFiles {
          cands := cands + [rows[i].dir];
        }
        i := i + 1;
      }
    }

    /** The `for dir_to_delete in empty_dirs_in_source` loop. */
    method DeleteLoop(dirs: seq<Path>, source: Path, deleted0: nat) returns (deleted: nat)
      modifies this
      ensures (State(), deleted) == DeleteEmpty(old(State()), dirs, source, deleted0, env, stopAt)
    {
      deleted := deleted0;
      var i := 0;
      while i < |dirs|
        invariant 0 <= i <= |dirs|
        invariant DeleteEmpty(State(), dirs[i..], source, deleted, env, stopAt) == DeleteEmpty(old(State()), dirs, source, deleted0, env, stopAt)
      {
        assert dirs[i..][1..] == dirs[i + 1..];
        var ok := IsRunning();
        if !ok {
          return;
        }
        var d := dirs[i];
        if env.rmdirOk(d) {
          removed := removed + [d];
          Signal(Progress(DeletedDir(d)));
          if d == source {
            deleted := deleted + 1;
          }
        } else {
          Signal(Progress(DeleteFailed(d)));
        }
        i := i + 1;
      }
    }

    /** The `for source_folder in processed_sources` deletion loop. */
    method CleanupLoop(ds: seq<Dir>) returns (deleted: nat)
      modifies this
      ensures (State(), deleted) == CleanupSources(old(State()), ds, 0, env, stopAt)
    {
      deleted := 0;
      var k := 0;
      while k < |ds|
        invariant 0 <= k <= |ds|
        invariant CleanupSources(State(), ds[k..], deleted, env, stopAt) == CleanupSources(old(State()), ds, 0, env, stopAt)
      {
        assert ds[k..][1..] == ds[k + 1..];
        var ok := IsRunning();
        if !ok {
          return;
        }
        var cands := CollectEmptyLoop(ds[k].walk);
        ok := IsRunning();
        if !ok {
          return;
        }
        deleted := DeleteLoop(cands, ds[k].path, deleted);
        k := k + 1;
      }
    }

    /** `_merge_subfolders_to_target`. */
    method MergeSubfoldersToTarget(target: Target, sources: seq<Dir>)
      modifies this
      ensures State() == Merge(old(State()), target, sources, env, stopAt)
    {
      Signal(Progress(MergeStarted(target.path)));
      if !target.present {
        Signal(Error(TargetMissing(target.path)));
        return;
      }
      ghost var goal := MergeSources(MergeAcc(State(), 0, 0, []), sources, env, stopAt);
      var moved: nat, skipped: nat := 0, 0;
      var processed: seq<Dir> := [];
      var k := 0;
      while k < |sources|
        invariant 0 <= k <= |sources|
        invariant MergeSources(MergeAcc(State(), moved, skipped, processed), sources[k..], env, stopAt) == goal
        invariant goal == MergeSources(MergeAcc(Emit(old(State()), Progress(MergeStarted(target.path))), 0, 0, []), sources, env, stopAt)
      {
        assert sources[k..][1..] == sources[k + 1..];
        var ok := IsRunning();
        if !ok {
          Signal(Progress(SourcesCancelled));
          return;
        }
        var d := sources[k];
        if !d.isDir {
          Signal(Error(SourceNotADirectory(d.path)));
        } else {
          Signal(Progress(ProcessingSource(d.path)));
          if d.tree.raises {
            Signal(Error(MergeFailed));
            success := false;
            return;
          }
          var cancelled;
          moved, skipped, cancelled := MoveItemsLoop(d.tree.entries, moved, skipped, processed);
          if cancelled {
            return;
          }
          processed := processed + [d];
        }
        k := k + 1;
      }
      Signal(Progress(CheckingDeletion));
      var deleted := CleanupLoop(processed);
      Signal(Progress(MergeSummary(moved, skipped, |processed|, deleted)));
      success := skipped == 0;
    }

    /** The branch of `run` that the dispatch chose; `raised` says the operation raised. */
    method PerformOp(op: Op) returns (raised: bool)
      modifies this
      ensures (State(), raised) == Perform(old(State()), op, legacy, env, stopAt)
    {
      raised := false;
      match op {
        case DoScan(d) =>
          raised := ScanFolderForImages(d);
        case DoPreview(d) =>
          GetFolderPreviewImage(d);
        case DoPopulate(d) =>
          raised := FindSubfolders(d);
        case DoMerge(tg, srcs) =>
          MergeSubfoldersToTarget(tg, srcs);
        case Refuse(f) =>
          Signal(Error(f));
      }
    }

    /** `run`: dispatch, the operation, `_success`, and the `finally` clause. */
    method Run()
      modifies this
      ensures State() == RunSpec.Run(old(State()), task, legacy, env, stopAt)
    {
      running, success, polls := true, false, 0;
      var op := Dispatch(task, legacy);
      var raised := PerformOp(op);
      if raised {
        Signal(Error(Unexpected(task.kind)));
        success := false;
      } else if !op.Refuse? {
        success := true;
      }
      running := false;
      Signal(Finished(task.kind, success));
    }
  }
}
