/**
 * `_merge_subfolders_to_target`: every file found under each source folder is
 * moved into the target under a name the resolver picks; afterwards the
 * directories of the processed sources that the bottom-up walk lists with no
 * files and no subdirectories are removed, and a summary is reported.
 */
module MergeSpec {
  import opened Wrappers
  import opened FsModel
  import opened Events
  import opened Resolver

  /** The merge's counters and its list of processed sources. */
  datatype MergeAcc = MergeAcc(s: WorkerState, moved: nat, skipped: nat, processed: seq<Dir>)

  /** How the loop over the sources ended: ran out of sources, read a cleared flag, or a listing raised. */
  datatype Halt = Completed | Cancelled | Raised

  /** One listed item of a source: a file is moved under a fresh name, or counted as skipped. */
  function MoveOne(a: MergeAcc, e: Entry, env: Env): MergeAcc {
    if e.kind != File then a
    else
      match UniqueName(NameOf(e.path), a.s.names, env.clock(e.path))
      case None => a.(s := Emit(a.s, Error(NoUniqueName(e.path))), skipped := a.skipped + 1)
      case Some(n) =>
        if env.moveOk(e.path, n) then
          var s1 := a.s.(names := a.s.names + {n}, moves := a.s.moves + [Move(e.path, n)]);
          a.(s := Emit(s1, Progress(Moved(e.path, n))), moved := a.moved + 1)
        else a.(s := Emit(a.s, Error(MoveFailed(e.path))), skipped := a.skipped + 1)
  }

  /** The loop over a source's listing snapshot; the flag says it returned on a cleared flag. */
  function MoveItems(a: MergeAcc, items: seq<Entry>, env: Env, stop: Stop): (MergeAcc, bool)
    decreases |items|
  {
    if |items| == 0 then (a, false)
    else
      var s1 := Poll(a.s, stop);
      if !s1.running then (a.(s := Emit(s1, Progress(FilesCancelled))), true)
      else MoveItems(MoveOne(a.(s := s1), items[0], env), items[1..], env, stop)
  }

  /** The loop over the sources. */
  function MergeSources(a: MergeAcc, sources: seq<Dir>, env: Env, stop: Stop): (MergeAcc, Halt)
    decreases |sources|
  {
    if |sources| == 0 then (a, Completed)
    else
      var s1 := Poll(a.s, stop);
      var d := sources[0];
      if !s1.running then (a.(s := Emit(s1, Progress(SourcesCancelled))), Cancelled)
      else if !d.isDir then MergeSources(a.(s := Emit(s1, Error(SourceNotADirectory(d.path)))), sources[1..], env, stop)
      else
        var s2 := Emit(s1, Progress(ProcessingSource(d.path)));
        if d.tree.raises then (a.(s := s2), Raised)
        else
          var r := MoveItems(a.(s := s2), d.tree.entries, env, stop);
          if r.1 then (r.0, Cancelled)
          else MergeSources(r.0.(processed := r.0.processed + [d]), sources[1..], env, stop)
  }

  /** A walk row with no files and no subdirectories. */
  predicate EmptyRow(row: WalkRow) {
    !row.hasDirs && !row.hasFiles
  }

  /** Reference definition: the directories a walk lists as empty, in walk order. */
  function EmptyDirs(rows: seq<WalkRow>): seq<Path> {
    if |rows| == 0 then [] else (if EmptyRow(rows[0]) then [rows[0].dir] else []) + EmptyDirs(rows[1..])
  }

  /** Gathering `empty_dirs_in_source` from the walk, before anything is removed. */
  function CollectEmpty(s: WorkerState, rows: seq<WalkRow>, cands: seq<Path>, stop: Stop): (WorkerState, seq<Path>)
    decreases |rows|
  {
    if |rows| == 0 then (s, cands)
    else
      var s1 := Poll(s, stop);
      if !s1.running then (s1, cands)
      else CollectEmpty(s1, rows[1..], if EmptyRow(rows[0]) then cands + [rows[0].dir] else cands, stop)
  }

  /** Removing the gathered directories; only removing the source root itself counts. */
  function DeleteEmpty(s: WorkerState, dirs: seq<Path>, source: Path, deleted: nat, env: Env, stop: Stop): (WorkerState, nat)
    decreases |dirs|
  {
    if |dirs| == 0 then (s, deleted)
    else
      var s1 := Poll(s, stop);
      var d := dirs[0];
      if !s1.running then (s1, deleted)
      else if env.rmdirOk(d) then
        DeleteEmpty(Emit(s1.(removed := s1.removed + [d]), Progress(DeletedDir(d))), dirs[1..], source,
                    if d == source then deleted + 1 else deleted, env, stop)
      else DeleteEmpty(Emit(s1, Progress(DeleteFailed(d))), dirs[1..], source, deleted, env, stop)
  }

  /** The cleanup loop over the processed sources. */
  function CleanupSources(s: WorkerState, ds: seq<Dir>, deleted: nat, env: Env, stop: Stop): (WorkerState, nat)
    decreases |ds|
  {
    if |ds| == 0 then (s, deleted)
    else
      var s1 := Poll(s, stop);
      if !s1.running then (s1, deleted)
      else
        var c := CollectEmpty(s1, ds[0].walk, [], stop);
        var s2 := Poll(c.0, stop);
        if !s2.running then (s2, deleted)
        else
          var r := DeleteEmpty(s2, c.1, ds[0].path, deleted, env, stop);
          CleanupSources(r.0, ds[1..], r.1, env, stop)
  }

  /** The whole merge into `target`, whose current names are the state's name set. */
  function Merge(s: WorkerState, target: Target, sources: seq<Dir>, env: Env, stop: Stop): WorkerState {
    var s0 := Emit(s, Progress(MergeStarted(target.path)));
    if !target.present then Emit(s0, Error(TargetMissing(target.path)))
    else
      var r := MergeSources(MergeAcc(s0, 0, 0, []), sources, env, stop);
      match r.1
      case Cancelled => r.0.s
      case Raised => Emit(r.0.s, Error(MergeFailed)).(success := false)
      case Completed =>
        var c := CleanupSources(Emit(r.0.s, Progress(CheckingDeletion)), r.0.processed, 0, env, stop);
        Emit(c.0, Progress(MergeSummary(r.0.moved, r.0.skipped, |r.0.processed|, c.1))).(success := r.0.skipped == 0)
  }

  // ----- Reference counts -----

  /** Number of files among a listing. */
  function FileCount(es: seq<Entry>): nat {
    if |es| == 0 then 0 else FileCount(es[..|es| - 1]) + (if es[|es| - 1].kind == File then 1 else 0)
  }

  /** The sources that are directories, in order. */
  function DirsOnly(ds: seq<Dir>): seq<Dir> {
    if |ds| == 0 then [] else (if ds[0].isDir then [ds[0]] else []) + DirsOnly(ds[1..])
  }

  /** Number of files listed under all the sources that are directories. */
  function TotalFiles(ds: seq<Dir>): nat {
    if |ds| == 0 then 0 else (if ds[0].isDir then FileCount(ds[0].tree.entries) else 0) + TotalFiles(ds[1..])
  }

  /** No source that is a directory has a listing that raises. */
  predicate ListingsSucceed(ds: seq<Dir>) {
    forall i :: 0 <= i < |ds| && ds[i].isDir ==> !ds[i].tree.raises
  }

  /** The moved and skipped counters agree with the moves done and with the reports emitted. */
  predicate Tallied(a: MergeAcc, r: MergeAcc) {
    |r.s.moves| + a.moved == |a.s.moves| + r.moved
    && MovedReports(r.s.events) + a.moved == MovedReports(a.s.events) + r.moved
    && SkipReports(r.s.events) + a.skipped == SkipReports(a.s.events) + r.skipped
  }

  /** What a step leaves alone: the flags it does not own, the removals and the summaries. */
  predicate Untouched(s: WorkerState, r: WorkerState) {
    r.success == s.success && r.removed == s.removed && Summaries(r.events) == Summaries(s.events)
    && FinishedCount(r.events) == FinishedCount(s.events)
  }

  // ----- Moving the files -----

  lemma MovedNamesAppend(moves: seq<Move>, m: Move)
    ensures MovedNames(moves + [m]) == MovedNames(moves) + {m.newName}
  {
    assert (moves + [m])[..|moves + [m]| - 1] == moves;
  }

  lemma FileCountAppend(es: seq<Entry>, e: Entry)
    ensures FileCount(es + [e]) == FileCount(es) + (if e.kind == File then 1 else 0)
  {
    assert (es + [e])[..|es + [e]| - 1] == es;
  }

  /** Taking a name that is not yet in the target keeps the target consistent. */
  lemma FreshMoveKeepsConsistent(names0: set<string>, s: WorkerState, m: Move)
    requires TargetConsistent(names0, s) && m.newName !in s.names
    ensures TargetConsistent(names0, s.(names := s.names + {m.newName}, moves := s.moves + [m]))
  {
    MovedNamesAppend(s.moves, m);
    var moves := s.moves + [m];
    assert forall i :: 0 <= i < |s.moves| ==> moves[i] == s.moves[i];
  }

  /** What one item does to the merge's state. */
  predicate OneDone(a: MergeAcc, r: MergeAcc, e: Entry, names0: set<string>) {
    TargetConsistent(names0, r.s) && Tallied(a, r) && Untouched(a.s, r.s)
    && r.moved + r.skipped == a.moved + a.skipped + (if e.kind == File then 1 else 0)
    && r.processed == a.processed && r.s.polls == a.s.polls && r.s.running == a.s.running
  }

  lemma MoveOneMoved(a: MergeAcc, e: Entry, env: Env, names0: set<string>, n: string)
    requires TargetConsistent(names0, a.s) && e.kind == File
    requires UniqueName(NameOf(e.path), a.s.names, env.clock(e.path)) == Some(n) && env.moveOk(e.path, n)
    ensures OneDone(a, MoveOne(a, e, env), e, names0)
  {
    UniqueNameFresh(NameOf(e.path), a.s.names, env.clock(e.path));
    FreshMoveKeepsConsistent(names0, a.s, Move(e.path, n));
    CountsEmit(a.s.events, Progress(Moved(e.path, n)));
  }

  lemma MoveOneSkipped(a: MergeAcc, e: Entry, env: Env, names0: set<string>)
    requires TargetConsistent(names0, a.s) && e.kind == File
    requires var u := UniqueName(NameOf(e.path), a.s.names, env.clock(e.path));
             u.None? || !env.moveOk(e.path, u.value)
    ensures OneDone(a, MoveOne(a, e, env), e, names0)
  {
    CountsEmit(a.s.events, Error(NoUniqueName(e.path)));
    CountsEmit(a.s.events, Error(MoveFailed(e.path)));
  }

  /** One item: a file bumps exactly one of the counters, and a moved file takes a fresh name. */
  lemma MoveOneEffect(a: MergeAcc, e: Entry, env: Env, names0: set<string>)
    requires TargetConsistent(names0, a.s)
    ensures OneDone(a, MoveOne(a, e, env), e, names0)
  {
    if e.kind == File {
      var u := UniqueName(NameOf(e.path), a.s.names, env.clock(e.path));
      if u.Some? && env.moveOk(e.path, u.value) {
        MoveOneMoved(a, e, env, names0, u.value);
      } else {
        MoveOneSkipped(a, e, env, names0);
      }
    }
  }

  /** What a run of the item loop does, given that it reaches `j` of the items. */
  predicate ItemsDone(a: MergeAcc, r: MergeAcc, items: seq<Entry>, j: nat, names0: set<string>)
    requires j <= |items|
  {
    TargetConsistent(names0, r.s) && Tallied(a, r) && Untouched(a.s, r.s)
    && r.moved + r.skipped == a.moved + a.skipped + FileCount(items[..j])
    && r.processed == a.processed
  }

  lemma ItemsStopEffect(a: MergeAcc, items: seq<Entry>, env: Env, stop: Stop, names0: set<string>)
    requires TargetConsistent(names0, a.s)
    requires |items| == 0 || !Poll(a.s, stop).running
    ensures var r := MoveItems(a, items, env, stop);
            ItemsDone(a, r.0, items, Reach(a.s, stop, |items|), names0)
            && (r.1 <==> Reach(a.s, stop, |items|) < |items|)
            && (r.1 ==> !r.0.s.running) && (!r.1 ==> r.0.s.running == a.s.running)
  {
    if |items| > 0 {
      var s1 := Poll(a.s, stop);
      ReachStep(a.s, stop, |items|);
      CountsEmit(s1.events, Progress(FilesCancelled));
      CountsEmit(a.s.events, Progress(CancelRequested));
    }
    assert items[..Reach(a.s, stop, |items|)] == [];
  }

  lemma {:induction false} MoveItemsEffect(a: MergeAcc, items: seq<Entry>, env: Env, stop: Stop, names0: set<string>)
    requires TargetConsistent(names0, a.s)
    ensures var r := MoveItems(a, items, env, stop);
            ItemsDone(a, r.0, items, Reach(a.s, stop, |items|), names0)
            && (r.1 <==> Reach(a.s, stop, |items|) < |items|)
            && (r.1 ==> !r.0.s.running) && (!r.1 ==> r.0.s.running == a.s.running)
    decreases |items|
  {
    if |items| == 0 || !Poll(a.s, stop).running {
      ItemsStopEffect(a, items, env, stop, names0);
    } else {
      var a1 := a.(s := Poll(a.s, stop));
      var a2 := MoveOne(a1, items[0], env);
      MoveOneEffect(a1, items[0], env, names0);
      MoveItemsEffect(a2, items[1..], env, stop, names0);
      ReachStep(a.s, stop, |items|);
      var j := Reach(a.s, stop, |items|);
      assert Reach(a2.s, stop, |items| - 1) == j - 1;
      ItemsCount(items, j);
    }
  }

  lemma ItemsCount(items: seq<Entry>, j: nat)
    requires 1 <= j <= |items|
    ensures FileCount(items[..j]) == (if items[0].kind == File then 1 else 0) + FileCount(items[1..][..j - 1])
  {
    FileCountFront([items[0]], items[1..][..j - 1]);
    assert items[..j] == [items[0]] + items[1..][..j - 1];
    assert FileCount([items[0]]) == FileCount([items[0]][..0]) + (if items[0].kind == File then 1 else 0);
  }

  lemma {:induction false} FileCountFront(a: seq<Entry>, b: seq<Entry>)
    ensures FileCount(a + b) == FileCount(a) + FileCount(b)
    decreases |b|
  {
    if |b| == 0 {
      assert a + b == a;
    } else {
      var b0 := b[..|b| - 1];
      assert a + b == (a + b0) + [b[|b| - 1]];
      FileCountAppend(a + b0, b[|b| - 1]);
      FileCountAppend(b0, b[|b| - 1]);
      assert b == b0 + [b[|b| - 1]];
      FileCountFront(a, b0);
    }
  }

  // ----- The loop over the sources -----

  /** What the loop over the sources does, however it ends. */
  predicate SourcesDone(a: MergeAcc, r: (MergeAcc, Halt), sources: seq<Dir>, names0: set<string>) {
    TargetConsistent(names0, r.0.s) && Tallied(a, r.0) && Untouched(a.s, r.0.s)
    && a.processed <= r.0.processed
    && (forall i :: |a.processed| <= i < |r.0.processed| ==> r.0.processed[i] in sources && r.0.processed[i].isDir)
    && (a.s.running ==> (r.1 == Cancelled <==> !r.0.s.running))
  }

  lemma SourcesDoneStep(a: MergeAcc, b: MergeAcc, r: (MergeAcc, Halt), sources: seq<Dir>, names0: set<string>)
    requires |sources| > 0
    requires Tallied(a, b) && Untouched(a.s, b.s) && b.s.running
    requires b.processed == a.processed || (b.processed == a.processed + [sources[0]] && sources[0].isDir)
    requires SourcesDone(b, r, sources[1..], names0)
    ensures SourcesDone(a, r, sources, names0)
  {
    forall i | |a.processed| <= i < |r.0.processed|
      ensures r.0.processed[i] in sources && r.0.processed[i].isDir
    {
      if i >= |b.processed| {
        assert r.0.processed[i] in sources[1..];
      } else {
        assert r.0.processed[i] == sources[0];
      }
    }
  }

  /** A source that is not a directory: an error, and nothing else changes. */
  lemma NotADirectoryStep(a: MergeAcc, sources: seq<Dir>, env: Env, stop: Stop, names0: set<string>)
    requires |sources| > 0 && Poll(a.s, stop).running && !sources[0].isDir
    requires TargetConsistent(names0, a.s)
    requires var b := a.(s := Emit(Poll(a.s, stop), Error(SourceNotADirectory(sources[0].path))));
             SourcesDone(b, MergeSources(b, sources[1..], env, stop), sources[1..], names0)
    ensures SourcesDone(a, MergeSources(a, sources, env, stop), sources, names0)
  {
    var s1 := Poll(a.s, stop);
    var b := a.(s := Emit(s1, Error(SourceNotADirectory(sources[0].path))));
    CountsEmit(s1.events, Error(SourceNotADirectory(sources[0].path)));
    SourcesDoneStep(a, b, MergeSources(b, sources[1..], env, stop), sources, names0);
  }

  /** A source whose listing was taken: its files are handled, then it joins the processed sources. */
  lemma ProcessedStep(a: MergeAcc, sources: seq<Dir>, env: Env, stop: Stop, names0: set<string>)
    requires |sources| > 0 && Poll(a.s, stop).running && sources[0].isDir && !sources[0].tree.raises
    requires TargetConsistent(names0, a.s)
    requires var s2 := Emit(Poll(a.s, stop), Progress(ProcessingSource(sources[0].path)));
             var r := MoveItems(a.(s := s2), sources[0].tree.entries, env, stop);
             !r.1 ==> var b := r.0.(processed := r.0.processed + [sources[0]]);
                      SourcesDone(b, MergeSources(b, sources[1..], env, stop), sources[1..], names0)
    ensures SourcesDone(a, MergeSources(a, sources, env, stop), sources, names0)
  {
    var s1 := Poll(a.s, stop);
    var s2 := Emit(s1, Progress(ProcessingSource(sources[0].path)));
    CountsEmit(s1.events, Progress(ProcessingSource(sources[0].path)));
    var a2 := a.(s := s2);
    MoveItemsEffect(a2, sources[0].tree.entries, env, stop, names0);
    var r := MoveItems(a2, sources[0].tree.entries, env, stop);
    if !r.1 {
      var b := r.0.(processed := r.0.processed + [sources[0]]);
      SourcesDoneStep(a, b, MergeSources(b, sources[1..], env, stop), sources, names0);
    }
  }

  lemma SourcesStopStep(a: MergeAcc, sources: seq<Dir>, env: Env, stop: Stop, names0: set<string>)
    requires |sources| > 0 && Poll(a.s, stop).running == false
    requires TargetConsistent(names0, a.s)
    ensures SourcesDone(a, MergeSources(a, sources, env, stop), sources, names0)
  {
    var s1 := Poll(a.s, stop);
    CountsEmit(s1.events, Progress(SourcesCancelled));
    CountsEmit(a.s.events, Progress(CancelRequested));
  }

  lemma SourcesRaiseStep(a: MergeAcc, sources: seq<Dir>, env: Env, stop: Stop, names0: set<string>)
    requires |sources| > 0 && Poll(a.s, stop).running && sources[0].isDir && sources[0].tree.raises
    requires TargetConsistent(names0, a.s)
    ensures SourcesDone(a, MergeSources(a, sources, env, stop), sources, names0)
  {
    CountsEmit(Poll(a.s, stop).events, Progress(ProcessingSource(sources[0].path)));
  }

  /**
   * The loop over the sources keeps the target consistent and the counters in
   * agreement with the moves and reports; it processes only sources that are
   * directories, in order; and it ends cancelled exactly when the flag was cleared.
   */
  lemma {:induction false} MergeSourcesEffect(a: MergeAcc, sources: seq<Dir>, env: Env, stop: Stop, names0: set<string>)
    requires TargetConsistent(names0, a.s)
    ensures SourcesDone(a, MergeSources(a, sources, env, stop), sources, names0)
    decreases |sources|
  {
    if |sources| > 0 {
      var s1 := Poll(a.s, stop);
      var d := sources[0];
      if !s1.running {
        SourcesStopStep(a, sources, env, stop, names0);
      } else if !d.isDir {
        var b := a.(s := Emit(s1, Error(SourceNotADirectory(d.path))));
        MergeSourcesEffect(b, sources[1..], env, stop, names0);
        NotADirectoryStep(a, sources, env, stop, names0);
      } else if d.tree.raises {
        SourcesRaiseStep(a, sources, env, stop, names0);
      } else {
        var s2 := Emit(s1, Progress(ProcessingSource(d.path)));
        var r := MoveItems(a.(s := s2), d.tree.entries, env, stop);
        if !r.1 {
          MoveItemsEffect(a.(s := s2), d.tree.entries, env, stop, names0);
          MergeSourcesEffect(r.0.(processed := r.0.processed + [d]), sources[1..], env, stop, names0);
        }
        ProcessedStep(a, sources, env, stop, names0);
      }
    }
  }

  lemma ListingsSucceedTail(sources: seq<Dir>)
    requires |sources| > 0 && ListingsSucceed(sources)
    ensures ListingsSucceed(sources[1..]) && (sources[0].isDir ==> !sources[0].tree.raises)
  {
    forall i | 0 <= i < |sources[1..]| && sources[1..][i].isDir ensures !sources[1..][i].tree.raises {
      assert sources[1..][i] == sources[i + 1];
    }
  }

  /** What `MergeSourcesComplete` promises. */
  predicate RanToEnd(a: MergeAcc, r: (MergeAcc, Halt), sources: seq<Dir>) {
    r.1 == Completed && r.0.processed == a.processed + DirsOnly(sources)
    && r.0.moved + r.0.skipped == a.moved + a.skipped + TotalFiles(sources)
    && r.0.s.running
  }

  /** Never stopped, the item loop handles every item and counts every file. */
  lemma MoveItemsUnstopped(a: MergeAcc, items: seq<Entry>, env: Env, names0: set<string>)
    requires TargetConsistent(names0, a.s) && a.s.running
    ensures var r := MoveItems(a, items, env, Never);
            !r.1 && r.0.s.running && r.0.processed == a.processed
            && r.0.moved + r.0.skipped == a.moved + a.skipped + FileCount(items)
  {
    MoveItemsEffect(a, items, env, Never, names0);
    assert items[..|items|] == items;
  }

  lemma CompleteDirStep(a: MergeAcc, sources: seq<Dir>, env: Env, names0: set<string>)
    requires TargetConsistent(names0, a.s) && a.s.running
    requires |sources| > 0 && sources[0].isDir && !sources[0].tree.raises
    requires var d := sources[0];
             var a2 := a.(s := Emit(Poll(a.s, Never), Progress(ProcessingSource(d.path))));
             var r := MoveItems(a2, d.tree.entries, env, Never);
             var b := r.0.(processed := r.0.processed + [d]);
             RanToEnd(b, MergeSources(b, sources[1..], env, Never), sources[1..])
    ensures RanToEnd(a, MergeSources(a, sources, env, Never), sources)
  {
    var d := sources[0];
    var a2 := a.(s := Emit(Poll(a.s, Never), Progress(ProcessingSource(d.path))));
    var n := |d.tree.entries|;
    MoveItemsUnstopped(a2, d.tree.entries, env, names0);
    var r := MoveItems(a2, d.tree.entries, env, Never);
    var b := r.0.(processed := r.0.processed + [d]);
    assert MergeSources(a, sources, env, Never) == MergeSources(b, sources[1..], env, Never);
    assert DirsOnly(sources) == [d] + DirsOnly(sources[1..]);
    assert a.processed + [d] + DirsOnly(sources[1..]) == a.processed + DirsOnly(sources);
  }

  /**
   * When the worker is never stopped and no listing raises, every source that
   * is a directory is processed, in order, and every file listed under them
   * is counted once as moved or skipped.
   */
  lemma {:induction false} MergeSourcesComplete(a: MergeAcc, sources: seq<Dir>, env: Env, names0: set<string>)
    requires TargetConsistent(names0, a.s) && a.s.running && ListingsSucceed(sources)
    ensures RanToEnd(a, MergeSources(a, sources, env, Never), sources)
    decreases |sources|
  {
    if |sources| == 0 {
      assert a.processed + [] == a.processed;
    } else {
      var s1 := Poll(a.s, Never);
      var d := sources[0];
      ListingsSucceedTail(sources);
      if !d.isDir {
        var b := a.(s := Emit(s1, Error(SourceNotADirectory(d.path))));
        MergeSourcesComplete(b, sources[1..], env, names0);
      } else {
        var a2 := a.(s := Emit(s1, Progress(ProcessingSource(d.path))));
        MoveItemsEffect(a2, d.tree.entries, env, Never, names0);
        var r := MoveItems(a2, d.tree.entries, env, Never);
        MergeSourcesComplete(r.0.(processed := r.0.processed + [d]), sources[1..], env, names0);
        CompleteDirStep(a, sources, env, names0);
      }
    }
  }

  // ----- Cleanup -----

  /** The directories of `dirs` whose removal succeeds, in order. */
  function Removable(dirs: seq<Path>, ok: Path -> bool): seq<Path> {
    if |dirs| == 0 then [] else (if ok(dirs[0]) then [dirs[0]] else []) + Removable(dirs[1..], ok)
  }

  lemma {:induction false} RemovableSub(dirs: seq<Path>, ok: Path -> bool, d: Path)
    requires d in Removable(dirs, ok)
    ensures d in dirs && ok(d)
  {
    if d != dirs[0] || !ok(dirs[0]) {
      RemovableSub(dirs[1..], ok, d);
    }
  }

  /** How often `p` occurs in `xs`. */
  function Occurrences(xs: seq<Path>, p: Path): nat {
    if |xs| == 0 then 0 else (if xs[0] == p then 1 else 0) + Occurrences(xs[1..], p)
  }

  lemma {:induction false} OccurrencesBound(xs: seq<Path>, p: Path)
    ensures Occurrences(xs, p) <= |xs|
  {
    if |xs| > 0 {
      OccurrencesBound(xs[1..], p);
    }
  }

  /** What cleanup leaves alone: everything but the flag, the poll count, its own reports and the removals. */
  predicate Tidy(s: WorkerState, r: WorkerState) {
    r.success == s.success && r.names == s.names && r.moves == s.moves
    && Summaries(r.events) == Summaries(s.events) && FinishedCount(r.events) == FinishedCount(s.events)
    && MovedReports(r.events) == MovedReports(s.events) && SkipReports(r.events) == SkipReports(s.events)
  }

  lemma TidyEmit(s: WorkerState, e: Event)
    requires !e.Progress? || !(e.note.Moved? || e.note.MergeSummary?)
    requires !e.Error? && !e.Finished?
    ensures Tidy(s, Emit(s, e))
  {
    CountsEmit(s.events, e);
  }

  /** Gathering the candidates: the walk's empty directories among the rows it reached, in walk order. */
  lemma {:induction false} CollectEmptyEffect(s: WorkerState, rows: seq<WalkRow>, cands: seq<Path>, stop: Stop)
    ensures var r := CollectEmpty(s, rows, cands, stop);
            r.1 == cands + EmptyDirs(rows[..Reach(s, stop, |rows|)]) && Tidy(s, r.0) && r.0.removed == s.removed
    decreases |rows|
  {
    if |rows| == 0 || !Poll(s, stop).running {
      CollectStops(s, rows, cands, stop);
    } else {
      var s1 := Poll(s, stop);
      var c2 := if EmptyRow(rows[0]) then cands + [rows[0].dir] else cands;
      CollectEmptyEffect(s1, rows[1..], c2, stop);
      CollectNext(s, rows, cands, stop);
    }
  }

  lemma CollectStops(s: WorkerState, rows: seq<WalkRow>, cands: seq<Path>, stop: Stop)
    requires |rows| == 0 || !Poll(s, stop).running
    ensures var r := CollectEmpty(s, rows, cands, stop);
            r.1 == cands + EmptyDirs(rows[..Reach(s, stop, |rows|)]) && Tidy(s, r.0) && r.0.removed == s.removed
  {
    var j := Reach(s, stop, |rows|);
    if |rows| > 0 {
      ReachStep(s, stop, |rows|);
      TidyEmit(s, Progress(CancelRequested));
    }
    assert rows[..j] == [];
    assert cands + [] == cands;
  }

  lemma CollectNext(s: WorkerState, rows: seq<WalkRow>, cands: seq<Path>, stop: Stop)
    requires |rows| > 0 && Poll(s, stop).running
    requires var s1 := Poll(s, stop);
             var c2 := if EmptyRow(rows[0]) then cands + [rows[0].dir] else cands;
             var r := CollectEmpty(s1, rows[1..], c2, stop);
             r.1 == c2 + EmptyDirs(rows[1..][..Reach(s1, stop, |rows| - 1)]) && Tidy(s1, r.0) && r.0.removed == s1.removed
    ensures var r := CollectEmpty(s, rows, cands, stop);
            r.1 == cands + EmptyDirs(rows[..Reach(s, stop, |rows|)]) && Tidy(s, r.0) && r.0.removed == s.removed
  {
    var s1 := Poll(s, stop);
    ReachStep(s, stop, |rows|);
    var j := Reach(s, stop, |rows|);
    assert rows[..j][0] == rows[0];
    assert rows[..j][1..] == rows[1..][..j - 1];
    var tail := EmptyDirs(rows[1..][..j - 1]);
    assert EmptyDirs(rows[..j]) == (if EmptyRow(rows[0]) then [rows[0].dir] else []) + tail;
    assert cands + ((if EmptyRow(rows[0]) then [rows[0].dir] else []) + tail)
           == (if EmptyRow(rows[0]) then cands + [rows[0].dir] else cands) + tail;
  }

  /** What removing the candidates does (`r` being the loop's result): exactly those whose rmdir succeeds, counting the source root only. */
  predicate DeleteDone(s: WorkerState, dirs: seq<Path>, source: Path, deleted: nat, env: Env, stop: Stop, r: (WorkerState, nat)) {
    var gone := Removable(dirs[..Reach(s, stop, |dirs|)], env.rmdirOk);
    r.0.removed == s.removed + gone && r.1 == deleted + Occurrences(gone, source) && Tidy(s, r.0)
  }

  lemma DeleteStops(s: WorkerState, dirs: seq<Path>, source: Path, deleted: nat, env: Env, stop: Stop)
    requires |dirs| == 0 || !Poll(s, stop).running
    ensures DeleteDone(s, dirs, source, deleted, env, stop, DeleteEmpty(s, dirs, source, deleted, env, stop))
  {
    if |dirs| > 0 {
      ReachStep(s, stop, |dirs|);
      TidyEmit(s, Progress(CancelRequested));
    }
    assert dirs[..Reach(s, stop, |dirs|)] == [];
    assert s.removed + [] == s.removed;
  }

  lemma RemovableStep(dirs: seq<Path>, j: nat, ok: Path -> bool, source: Path)
    requires 1 <= j <= |dirs|
    ensures var g := Removable(dirs[..j], ok);
            var g2 := Removable(dirs[1..][..j - 1], ok);
            g == (if ok(dirs[0]) then [dirs[0]] else []) + g2
            && Occurrences(g, source) == (if ok(dirs[0]) && dirs[0] == source then 1 else 0) + Occurrences(g2, source)
  {
    assert dirs[..j][0] == dirs[0];
    assert dirs[..j][1..] == dirs[1..][..j - 1];
    var g2 := Removable(dirs[1..][..j - 1], ok);
    if ok(dirs[0]) {
      assert ([dirs[0]] + g2)[0] == dirs[0];
      assert ([dirs[0]] + g2)[1..] == g2;
    } else {
      assert [] + g2 == g2;
    }
  }

  lemma DeleteRemoves(s: WorkerState, dirs: seq<Path>, source: Path, deleted: nat, env: Env, stop: Stop, r: (WorkerState, nat))
    requires |dirs| > 0 && Poll(s, stop).running && env.rmdirOk(dirs[0])
    requires var s1 := Poll(s, stop);
             var d := dirs[0];
             DeleteDone(Emit(s1.(removed := s1.removed + [d]), Progress(DeletedDir(d))), dirs[1..], source,
                        if d == source then deleted + 1 else deleted, env, stop, r)
    ensures DeleteDone(s, dirs, source, deleted, env, stop, r)
  {
    var s1 := Poll(s, stop);
    var d := dirs[0];
    var s2 := Emit(s1.(removed := s1.removed + [d]), Progress(DeletedDir(d)));
    var j := DeleteReach(s, s2, dirs, stop);
    var gone2 := Removable(dirs[1..][..j - 1], env.rmdirOk);
    assert r.0.removed == s2.removed + gone2 && Tidy(s2, r.0);
    assert r.1 == (if d == source then deleted + 1 else deleted) + Occurrences(gone2, source);
    RemovableStep(dirs, j, env.rmdirOk, source);
    assert s2.removed == s.removed + [d];
    assert s.removed + ([d] + gone2) == s.removed + [d] + gone2;
    TidyEmit(s1.(removed := s1.removed + [d]), Progress(DeletedDir(d)));
    TidyTrans(s, s2, r.0);
  }

  lemma DeleteFails(s: WorkerState, dirs: seq<Path>, source: Path, deleted: nat, env: Env, stop: Stop, r: (WorkerState, nat))
    requires |dirs| > 0 && Poll(s, stop).running && !env.rmdirOk(dirs[0])
    requires DeleteDone(Emit(Poll(s, stop), Progress(DeleteFailed(dirs[0]))), dirs[1..], source, deleted, env, stop, r)
    ensures DeleteDone(s, dirs, source, deleted, env, stop, r)
  {
    var s1 := Poll(s, stop);
    var s2 := Emit(s1, Progress(DeleteFailed(dirs[0])));
    var j := DeleteReach(s, s2, dirs, stop);
    var gone2 := Removable(dirs[1..][..j - 1], env.rmdirOk);
    assert r.0.removed == s2.removed + gone2 && Tidy(s2, r.0);
    assert r.1 == deleted + Occurrences(gone2, source);
    RemovableStep(dirs, j, env.rmdirOk, source);
    assert s2.removed == s.removed;
    TidyEmit(s1, Progress(DeleteFailed(dirs[0])));
    TidyTrans(s, s2, r.0);
  }

  /** After one poll that left the flag set and one report, the loop reaches one item fewer. */
  lemma DeleteReach(s: WorkerState, s2: WorkerState, dirs: seq<Path>, stop: Stop) returns (j: nat)
    requires |dirs| > 0 && Poll(s, stop).running
    requires s2.running && s2.polls == s.polls + 1
    ensures j == Reach(s, stop, |dirs|) && 1 <= j && Reach(s2, stop, |dirs| - 1) == j - 1
  {
    ReachStep(s, stop, |dirs|);
    j := Reach(s, stop, |dirs|);
  }

  lemma TidyTrans(a: WorkerState, b: WorkerState, c: WorkerState)
    requires Tidy(a, b) && Tidy(b, c)
    ensures Tidy(a, c)
  {
  }

  lemma {:induction false} DeleteEmptyEffect(s: WorkerState, dirs: seq<Path>, source: Path, deleted: nat, env: Env, stop: Stop)
    ensures DeleteDone(s, dirs, source, deleted, env, stop, DeleteEmpty(s, dirs, source, deleted, env, stop))
    decreases |dirs|
  {
    if |dirs| == 0 || !Poll(s, stop).running {
      DeleteStops(s, dirs, source, deleted, env, stop);
    } else {
      var s1 := Poll(s, stop);
      var d := dirs[0];
      if env.rmdirOk(d) {
        var s2 := Emit(s1.(removed := s1.removed + [d]), Progress(DeletedDir(d)));
        var deleted2 := if d == source then deleted + 1 else deleted;
        DeleteEmptyEffect(s2, dirs[1..], source, deleted2, env, stop);
        DeleteRemoves(s, dirs, source, deleted, env, stop, DeleteEmpty(s2, dirs[1..], source, deleted2, env, stop));
      } else {
        var s2 := Emit(s1, Progress(DeleteFailed(d)));
        DeleteEmptyEffect(s2, dirs[1..], source, deleted, env, stop);
        DeleteFails(s, dirs, source, deleted, env, stop, DeleteEmpty(s2, dirs[1..], source, deleted, env, stop));
      }
    }
  }

  /** `d` is listed as an empty directory by the walk of one of `ds`. */
  predicate IsCandidate(ds: seq<Dir>, d: Path) {
    exists i :: 0 <= i < |ds| && d in EmptyDirs(ds[i].walk)
  }

  lemma {:induction false} EmptyDirsPrefix(rows: seq<WalkRow>, j: nat, d: Path)
    requires j <= |rows| && d in EmptyDirs(rows[..j])
    ensures d in EmptyDirs(rows)
  {
    if j > 0 {
      assert rows[..j][1..] == rows[1..][..j - 1];
      if d !in (if EmptyRow(rows[0]) then [rows[0].dir] else []) {
        EmptyDirsPrefix(rows[1..], j - 1, d);
      }
    }
  }

  /** What the cleanup does: it removes only candidates whose rmdir succeeds, and counts at most one per removal. */
  predicate CleanupDone(s: WorkerState, r: (WorkerState, nat), ds: seq<Dir>, deleted: nat, env: Env) {
    Tidy(s, r.0) && s.removed <= r.0.removed
    && (forall i :: |s.removed| <= i < |r.0.removed| ==> env.rmdirOk(r.0.removed[i]) && IsCandidate(ds, r.0.removed[i]))
    && deleted <= r.1 <= deleted + |r.0.removed| - |s.removed|
  }

  lemma InPrefix(xs: seq<Path>, j: nat, d: Path)
    requires j <= |xs| && d in xs[..j]
    ensures d in xs
  {
  }

  /** One processed source: gather, then remove. */
  lemma CleanupOneSource(s1: WorkerState, ds: seq<Dir>, deleted: nat, env: Env, stop: Stop)
    requires |ds| > 0
    ensures var c := CollectEmpty(s1, ds[0].walk, [], stop);
            var s2 := Poll(c.0, stop);
            var r := DeleteEmpty(s2, c.1, ds[0].path, deleted, env, stop);
            CleanupDone(s1, r, ds[..1], deleted, env)
  {
    var c := CollectEmpty(s1, ds[0].walk, [], stop);
    CollectEmptyEffect(s1, ds[0].walk, [], stop);
    var s2 := Poll(c.0, stop);
    TidyEmit(c.0, Progress(CancelRequested));
    var jc := Reach(s1, stop, |ds[0].walk|);
    assert c.1 == EmptyDirs(ds[0].walk[..jc]);
    DeleteEmptyEffect(s2, c.1, ds[0].path, deleted, env, stop);
    var r := DeleteEmpty(s2, c.1, ds[0].path, deleted, env, stop);
    assert DeleteDone(s2, c.1, ds[0].path, deleted, env, stop, r);
    var jd := Reach(s2, stop, |c.1|);
    var gone := Removable(c.1[..jd], env.rmdirOk);
    assert r.0.removed == s2.removed + gone;
    OccurrencesBound(gone, ds[0].path);
    forall i | |s1.removed| <= i < |r.0.removed|
      ensures env.rmdirOk(r.0.removed[i]) && IsCandidate(ds[..1], r.0.removed[i])
    {
      var d := r.0.removed[i];
      assert d in gone;
      RemovableSub(c.1[..jd], env.rmdirOk, d);
      InPrefix(c.1, jd, d);
      EmptyDirsPrefix(ds[0].walk, jc, d);
      assert ds[..1][0] == ds[0];
    }
  }

  lemma CleanupDoneCompose(s: WorkerState, m: (WorkerState, nat), r: (WorkerState, nat), ds: seq<Dir>, deleted: nat, env: Env)
    requires |ds| > 0
    requires CleanupDone(s, m, ds[..1], deleted, env) && CleanupDone(m.0, r, ds[1..], m.1, env)
    ensures CleanupDone(s, r, ds, deleted, env)
  {
    forall i | |s.removed| <= i < |r.0.removed|
      ensures env.rmdirOk(r.0.removed[i]) && IsCandidate(ds, r.0.removed[i])
    {
      var d := r.0.removed[i];
      if i < |m.0.removed| {
        assert m.0.removed[i] == d;
        var k :| 0 <= k < 1 && d in EmptyDirs(ds[..1][k].walk);
        assert ds[..1][k] == ds[0];
      } else {
        var k :| 0 <= k < |ds[1..]| && d in EmptyDirs(ds[1..][k].walk);
        assert ds[1..][k] == ds[k + 1];
      }
    }
  }

  lemma {:induction false} CleanupEffect(s: WorkerState, ds: seq<Dir>, deleted: nat, env: Env, stop: Stop)
    ensures CleanupDone(s, CleanupSources(s, ds, deleted, env, stop), ds, deleted, env)
    decreases |ds|
  {
    if |ds| > 0 {
      var s1 := Poll(s, stop);
      TidyEmit(s, Progress(CancelRequested));
      if s1.running {
        var c := CollectEmpty(s1, ds[0].walk, [], stop);
        var s2 := Poll(c.0, stop);
        CleanupOneSource(s1, ds, deleted, env, stop);
        CollectEmptyEffect(s1, ds[0].walk, [], stop);
        TidyEmit(c.0, Progress(CancelRequested));
        if s2.running {
          var m := DeleteEmpty(s2, c.1, ds[0].path, deleted, env, stop);
          CleanupEffect(m.0, ds[1..], m.1, env, stop);
          CleanupDoneCompose(s1, m, CleanupSources(m.0, ds[1..], m.1, env, stop), ds, deleted, env);
        }
      }
    }
  }

  // ----- The merge as a whole -----

  /** The loop over the sources as `Merge` starts it. */
  function SourcesRun(s: WorkerState, target: Target, sources: seq<Dir>, env: Env, stop: Stop): (MergeAcc, Halt) {
    MergeSources(MergeAcc(Emit(s, Progress(MergeStarted(target.path))), 0, 0, []), sources, env, stop)
  }

  /** A missing target: a start report and an error, and no file is touched. */
  lemma MergeTargetMissing(s: WorkerState, target: Target, sources: seq<Dir>, env: Env, stop: Stop)
    requires !target.present
    ensures var r := Merge(s, target, sources, env, stop);
            r.events == s.events + [Progress(MergeStarted(target.path)), Error(TargetMissing(target.path))]
            && r.names == s.names && r.moves == s.moves && r.removed == s.removed && r.success == s.success
  {
  }

  /** Every directory removed was listed as empty by the walk of a source that is a directory, and its rmdir succeeded. */
  predicate RemovedOnlyEmpty(s: WorkerState, r: WorkerState, sources: seq<Dir>, env: Env) {
    s.removed <= r.removed
    && forall i :: |s.removed| <= i < |r.removed| ==>
         env.rmdirOk(r.removed[i])
         && exists k :: 0 <= k < |sources| && sources[k].isDir && r.removed[i] in EmptyDirs(sources[k].walk)
  }

  lemma CandidateOfSource(processed: seq<Dir>, sources: seq<Dir>, d: Path)
    requires IsCandidate(processed, d)
    requires forall i :: 0 <= i < |processed| ==> processed[i] in sources && processed[i].isDir
    ensures exists k :: 0 <= k < |sources| && sources[k].isDir && d in EmptyDirs(sources[k].walk)
  {
    var i :| 0 <= i < |processed| && d in EmptyDirs(processed[i].walk);
    var k :| 0 <= k < |sources| && sources[k] == processed[i];
  }

  /**
   * A merge keeps the target consistent (every moved name fresh and distinct,
   * the name set grown by exactly those names) and removes only directories
   * that a walk of a source listed as empty.
   */
  lemma MergeEffect(s: WorkerState, target: Target, sources: seq<Dir>, env: Env, stop: Stop, names0: set<string>)
    requires TargetConsistent(names0, s)
    ensures var r := Merge(s, target, sources, env, stop);
            TargetConsistent(names0, r) && RemovedOnlyEmpty(s, r, sources, env)
  {
    if target.present {
      var s0 := Emit(s, Progress(MergeStarted(target.path)));
      var a0 := MergeAcc(s0, 0, 0, []);
      MergeSourcesEffect(a0, sources, env, stop, names0);
      var h := MergeSources(a0, sources, env, stop);
      if h.1 == Completed {
        var c0 := Emit(h.0.s, Progress(CheckingDeletion));
        CleanupEffect(c0, h.0.processed, 0, env, stop);
        var c := CleanupSources(c0, h.0.processed, 0, env, stop);
        var r := Merge(s, target, sources, env, stop);
        assert r.removed == c.0.removed;
        forall i | |s.removed| <= i < |r.removed|
          ensures env.rmdirOk(r.removed[i])
                  && exists k :: 0 <= k < |sources| && sources[k].isDir && r.removed[i] in EmptyDirs(sources[k].walk)
        {
          CandidateOfSource(h.0.processed, sources, r.removed[i]);
        }
      }
    }
  }

  /** A merge whose loop read a cleared flag stops there: no cleanup, no summary. */
  lemma MergeCancelled(s: WorkerState, target: Target, sources: seq<Dir>, env: Env, stop: Stop, names0: set<string>)
    requires TargetConsistent(names0, s) && target.present && s.running
    requires SourcesRun(s, target, sources, env, stop).1 == Cancelled
    ensures var r := Merge(s, target, sources, env, stop);
            !r.running && r.removed == s.removed && Summaries(r.events) == Summaries(s.events)
            && r.success == s.success
  {
    var s0 := Emit(s, Progress(MergeStarted(target.path)));
    CountsEmit(s.events, Progress(MergeStarted(target.path)));
    MergeSourcesEffect(MergeAcc(s0, 0, 0, []), sources, env, stop, names0);
  }

  /** A merge whose loop met a failing listing reports the failure and clears the success flag; no cleanup, no summary. */
  lemma MergeRaised(s: WorkerState, target: Target, sources: seq<Dir>, env: Env, stop: Stop, names0: set<string>)
    requires TargetConsistent(names0, s) && target.present
    requires SourcesRun(s, target, sources, env, stop).1 == Raised
    ensures var r := Merge(s, target, sources, env, stop);
            |r.events| > 0 && r.events[|r.events| - 1] == Error(MergeFailed)
            && !r.success && r.removed == s.removed && Summaries(r.events) == Summaries(s.events)
  {
    var s0 := Emit(s, Progress(MergeStarted(target.path)));
    CountsEmit(s.events, Progress(MergeStarted(target.path)));
    MergeSourcesEffect(MergeAcc(s0, 0, 0, []), sources, env, stop, names0);
    var h := SourcesRun(s, target, sources, env, stop);
    CountsEmit(h.0.s.events, Error(MergeFailed));
  }

  /**
   * A merge whose loop ran out of sources ends with exactly one summary,
   * whose moved count is the number of files moved and of `Moved` reports,
   * whose skipped count is the number of skip errors, and which sets the
   * success flag exactly when nothing was skipped.
   */
  lemma MergeCompleted(s: WorkerState, target: Target, sources: seq<Dir>, env: Env, stop: Stop, names0: set<string>)
    requires TargetConsistent(names0, s) && target.present
    requires SourcesRun(s, target, sources, env, stop).1 == Completed
    ensures var r := Merge(s, target, sources, env, stop);
            |r.events| > 0 && var e := r.events[|r.events| - 1];
            e.Progress? && e.note.MergeSummary?
            && |r.moves| == |s.moves| + e.note.moved
            && MovedReports(r.events) == MovedReports(s.events) + e.note.moved
            && SkipReports(r.events) == SkipReports(s.events) + e.note.skipped
            && r.success == (e.note.skipped == 0)
            && Summaries(r.events) == Summaries(s.events) + 1
  {
    var s0 := Emit(s, Progress(MergeStarted(target.path)));
    CountsEmit(s.events, Progress(MergeStarted(target.path)));
    var a0 := MergeAcc(s0, 0, 0, []);
    MergeSourcesEffect(a0, sources, env, stop, names0);
    var h := MergeSources(a0, sources, env, stop);
    var c0 := Emit(h.0.s, Progress(CheckingDeletion));
    TidyEmit(h.0.s, Progress(CheckingDeletion));
    CleanupEffect(c0, h.0.processed, 0, env, stop);
    var c := CleanupSources(c0, h.0.processed, 0, env, stop);
    var e := Progress(MergeSummary(h.0.moved, h.0.skipped, |h.0.processed|, c.1));
    CountsEmit(c.0.events, e);
    assert Merge(s, target, sources, env, stop) == Emit(c.0, e).(success := h.0.skipped == 0);
  }

  /**
   * Never stopped, with the target present and every listing readable, the
   * merge runs to its summary, which accounts for every file under the
   * sources that are directories (moved or skipped) and counts those
   * sources as processed.
   */
  lemma MergeUnstopped(s: WorkerState, target: Target, sources: seq<Dir>, env: Env, names0: set<string>)
    requires TargetConsistent(names0, s) && target.present && s.running && ListingsSucceed(sources)
    ensures var r := Merge(s, target, sources, env, Never);
            |r.events| > 0 && var e := r.events[|r.events| - 1];
            e.Progress? && e.note.MergeSummary?
            && e.note.moved + e.note.skipped == TotalFiles(sources)
            && e.note.processed == |DirsOnly(sources)|
  {
    var s0 := Emit(s, Progress(MergeStarted(target.path)));
    var a0 := MergeAcc(s0, 0, 0, []);
    MergeSourcesComplete(a0, sources, env, names0);
    var h := MergeSources(a0, sources, env, Never);
    assert h.0.processed == DirsOnly(sources);
    var c := CleanupSources(Emit(h.0.s, Progress(CheckingDeletion)), h.0.processed, 0, env, Never);
    var e := Progress(MergeSummary(h.0.moved, h.0.skipped, |h.0.processed|, c.1));
    assert Merge(s, target, sources, env, Never) == Emit(c.0, e).(success := h.0.skipped == 0);
  }

  /** A merge emits no `finished` signal of its own. */
  lemma MergeNoFinish(s: WorkerState, target: Target, sources: seq<Dir>, env: Env, stop: Stop, names0: set<string>)
    requires TargetConsistent(names0, s)
    ensures FinishedCount(Merge(s, target, sources, env, stop).events) == FinishedCount(s.events)
  {
    var s0 := Emit(s, Progress(MergeStarted(target.path)));
    CountsEmit(s.events, Progress(MergeStarted(target.path)));
    if !target.present {
      CountsEmit(s0.events, Error(TargetMissing(target.path)));
    } else {
      var a0 := MergeAcc(s0, 0, 0, []);
      MergeSourcesEffect(a0, sources, env, stop, names0);
      var h := MergeSources(a0, sources, env, stop);
      if h.1 == Raised {
        CountsEmit(h.0.s.events, Error(MergeFailed));
      } else if h.1 == Completed {
        var c0 := Emit(h.0.s, Progress(CheckingDeletion));
        TidyEmit(h.0.s, Progress(CheckingDeletion));
        CleanupEffect(c0, h.0.processed, 0, env, stop);
        var c := CleanupSources(c0, h.0.processed, 0, env, stop);
        var e := Progress(MergeSummary(h.0.moved, h.0.skipped, |h.0.processed|, c.1));
        CountsEmit(c.0.events, e);
        assert Merge(s, target, sources, env, stop) == Emit(c.0, e).(success := h.0.skipped == 0);
      }
    }
  }
}
