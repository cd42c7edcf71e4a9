/**
 * `_populate_subfolders`: the immediate subdirectories of a root, in listing
 * order, reported once the listing is done and the flag still reads set.
 */
module PopulateSpec {
  import opened Wrappers
  import opened FsModel
  import opened Events

  /** The `for item in root_folder_path.iterdir()` loop, collecting directories; `r.2` is whether it was cancelled. */
  function PopLoop(s: WorkerState, items: seq<Entry>, subs: seq<Path>, stop: Stop): (WorkerState, seq<Path>, bool)
    decreases |items|
  {
    if |items| == 0 then (s, subs, false)
    else
      var s1 := Poll(s, stop);
      if !s1.running then (Emit(s1, Progress(PopulateCancelled)), subs, true)
      else PopLoop(s1, items[1..], subs + (if items[0].kind == Directory then [items[0].path] else []), stop)
  }

  /** The whole task, with whether it raised to `run` (the listing failed; the error is reported and re-raised). */
  function Populate(s: WorkerState, dir: Dir, stop: Stop): (WorkerState, bool) {
    if !dir.isDir then (Emit(s, Error(CannotPopulate(dir.path))), false)
    else Finish(PopLoop(Emit(s, Progress(PopulateStarted(dir.path))), dir.children.entries, [], stop), dir, stop)
  }

  /** After the loop: a failed listing is reported and re-raised; otherwise one more read of the flag decides the report. */
  function Finish(r: (WorkerState, seq<Path>, bool), dir: Dir, stop: Stop): (WorkerState, bool) {
    if r.2 then (r.0, false)
    else if dir.children.raises then (Emit(r.0, Error(PopulateFailed(dir.path))), true)
    else
      var s2 := Poll(r.0, stop);
      if s2.running then (Emit(Emit(s2, SubfoldersFound(r.1)), Progress(SubfolderCount(|r.1|))), false)
      else (s2, false)
  }

  /** What the loop promises: the directories among the entries it got through, no report yet, cancelled exactly when it stopped short. */
  predicate LoopDone(s: WorkerState, items: seq<Entry>, subs: seq<Path>, stop: Stop, r: (WorkerState, seq<Path>, bool)) {
    var j := Reach(s, stop, |items|);
    r.1 == subs + Directories(items[..j])
    && Founds(r.0.events) == Founds(s.events)
    && (r.2 <==> j < |items|)
    && r.0.polls == s.polls + (if r.2 then j + 1 else |items|)
    && (!r.2 ==> r.0.running == s.running && r.0.events == s.events)
  }

  lemma PopStop(s: WorkerState, items: seq<Entry>, subs: seq<Path>, stop: Stop)
    requires |items| > 0 && !Poll(s, stop).running
    ensures LoopDone(s, items, subs, stop, PopLoop(s, items, subs, stop))
  {
    var s1 := Poll(s, stop);
    ReachStep(s, stop, |items|);
    CountsEmit(s.events, Progress(CancelRequested));
    CountsEmit(s1.events, Progress(PopulateCancelled));
    assert items[..0] == [];
    assert subs + [] == subs;
  }

  lemma PopStep(s: WorkerState, items: seq<Entry>, subs: seq<Path>, stop: Stop, r: (WorkerState, seq<Path>, bool))
    requires |items| > 0 && Poll(s, stop).running
    requires LoopDone(Poll(s, stop), items[1..], subs + Directories([items[0]]), stop, r)
    ensures LoopDone(s, items, subs, stop, r)
  {
    var s1 := Poll(s, stop);
    ReachStep(s, stop, |items|);
    var j := Reach(s, stop, |items|);
    assert items[..j] == [items[0]] + items[1..][..j - 1];
    DirectoriesAppend([items[0]], items[1..][..j - 1]);
  }

  lemma {:induction false} PopLoopEffect(s: WorkerState, items: seq<Entry>, subs: seq<Path>, stop: Stop)
    ensures LoopDone(s, items, subs, stop, PopLoop(s, items, subs, stop))
    decreases |items|
  {
    if |items| == 0 {
      assert items[..0] == [];
      assert subs + [] == subs;
    } else {
      var s1 := Poll(s, stop);
      if !s1.running {
        PopStop(s, items, subs, stop);
      } else {
        var subs1 := subs + Directories([items[0]]);
        assert [items[0]][1..] == [];
        assert Directories([items[0]]) == (if items[0].kind == Directory then [items[0].path] else []);
        PopLoopEffect(s1, items[1..], subs1, stop);
        PopStep(s, items, subs, stop, PopLoop(s1, items[1..], subs1, stop));
      }
    }
  }

  /** Whether the report goes out: a readable directory whose loop and final read of the flag all pass. */
  predicate Reports(s: WorkerState, dir: Dir, stop: Stop) {
    dir.isDir && !dir.children.raises
    && Reach(s, stop, |dir.children.entries| + 1) == |dir.children.entries| + 1
  }

  /** The loop as `Populate` starts it. */
  function LoopOf(s: WorkerState, dir: Dir, stop: Stop): (WorkerState, seq<Path>, bool) {
    PopLoop(Emit(s, Progress(PopulateStarted(dir.path))), dir.children.entries, [], stop)
  }

  /** After `n` passing reads, the next read passes exactly when `n + 1` reads from the start pass. */
  lemma ReachExtend(s: WorkerState, stop: Stop, n: nat, t: WorkerState)
    requires Reach(s, stop, n) == n && t.polls == s.polls + n && t.running == s.running
    ensures Poll(t, stop).running <==> Reach(s, stop, n + 1) == n + 1
  {
  }

  lemma LoopOfEffect(s: WorkerState, dir: Dir, stop: Stop)
    ensures var r := LoopOf(s, dir, stop);
            var es := dir.children.entries;
            var j := Reach(s, stop, |es|);
            r.1 == Directories(es[..j]) && Founds(r.0.events) == Founds(s.events)
            && (r.2 <==> j < |es|)
            && (!r.2 ==> r.0.polls == s.polls + |es| && r.0.running == s.running)
  {
    var s0 := Emit(s, Progress(PopulateStarted(dir.path)));
    CountsEmit(s.events, Progress(PopulateStarted(dir.path)));
    PopLoopEffect(s0, dir.children.entries, [], stop);
    assert Reach(s0, stop, |dir.children.entries|) == Reach(s, stop, |dir.children.entries|);
  }

  lemma PopulateCut(s: WorkerState, dir: Dir, stop: Stop)
    requires dir.isDir && LoopOf(s, dir, stop).2
    ensures var r := Populate(s, dir, stop);
            Founds(r.0.events) == Founds(s.events) && !Reports(s, dir, stop) && !r.1
            && Reach(s, stop, |dir.children.entries|) < |dir.children.entries|
  {
    LoopOfEffect(s, dir, stop);
  }

  lemma PopulateRaised(s: WorkerState, dir: Dir, stop: Stop)
    requires dir.isDir && !LoopOf(s, dir, stop).2 && dir.children.raises
    ensures var r := Populate(s, dir, stop);
            Founds(r.0.events) == Founds(s.events) && !Reports(s, dir, stop) && r.1
            && Reach(s, stop, |dir.children.entries|) == |dir.children.entries|
  {
    LoopOfEffect(s, dir, stop);
    var r := LoopOf(s, dir, stop);
    CountsEmit(r.0.events, Error(PopulateFailed(dir.path)));
  }

  lemma FinishEffect(r: (WorkerState, seq<Path>, bool), dir: Dir, stop: Stop)
    requires !r.2 && !dir.children.raises
    ensures var f := Finish(r, dir, stop);
            Founds(f.0.events) == Founds(r.0.events) + (if Poll(r.0, stop).running then [r.1] else [])
            && (Poll(r.0, stop).running ==> |f.0.events| > 0 && f.0.events[|f.0.events| - 1] == Progress(SubfolderCount(|r.1|)))
            && !f.1
  {
    var s2 := Poll(r.0, stop);
    if s2.running {
      var s3 := Emit(s2, SubfoldersFound(r.1));
      CountsEmit(s2.events, SubfoldersFound(r.1));
      CountsEmit(s3.events, Progress(SubfolderCount(|r.1|)));
    } else {
      CountsEmit(r.0.events, Progress(CancelRequested));
    }
  }

  lemma PopulateFinal(s: WorkerState, dir: Dir, stop: Stop)
    requires dir.isDir && !LoopOf(s, dir, stop).2 && !dir.children.raises
    ensures var r := Populate(s, dir, stop);
            var es := dir.children.entries;
            Founds(r.0.events) == Founds(s.events) + (if Reports(s, dir, stop) then [Directories(es)] else [])
            && (Reports(s, dir, stop) ==>
                  |r.0.events| > 0 && r.0.events[|r.0.events| - 1] == Progress(SubfolderCount(|Directories(es)|)))
            && !r.1
  {
    var es := dir.children.entries;
    LoopOfEffect(s, dir, stop);
    var r := LoopOf(s, dir, stop);
    assert es[..|es|] == es;
    ReachExtend(s, stop, |es|, r.0);
    FinishEffect(r, dir, stop);
    assert Populate(s, dir, stop) == Finish(r, dir, stop);
  }

  /**
   * The task reports the immediate directories, in listing order, exactly
   * when it is a readable directory and no stop fell due during its reads
   * of the flag; it then ends with the count. It raises exactly when the
   * listing fails before any stop.
   */
  lemma PopulateEffect(s: WorkerState, dir: Dir, stop: Stop)
    ensures var r := Populate(s, dir, stop);
            var es := dir.children.entries;
            Founds(r.0.events) == Founds(s.events) + (if Reports(s, dir, stop) then [Directories(es)] else [])
            && (Reports(s, dir, stop) ==>
                  |r.0.events| > 0 && r.0.events[|r.0.events| - 1] == Progress(SubfolderCount(|Directories(es)|)))
            && (r.1 <==> dir.isDir && dir.children.raises && Reach(s, stop, |es|) == |es|)
  {
    if !dir.isDir {
      CountsEmit(s.events, Error(CannotPopulate(dir.path)));
    } else if LoopOf(s, dir, stop).2 {
      PopulateCut(s, dir, stop);
    } else if dir.children.raises {
      PopulateRaised(s, dir, stop);
    } else {
      PopulateFinal(s, dir, stop);
      LoopOfEffect(s, dir, stop);
    }
  }

  lemma {:induction false} PopLoopNoFinish(s: WorkerState, items: seq<Entry>, subs: seq<Path>, stop: Stop)
    ensures FinishedCount(PopLoop(s, items, subs, stop).0.events) == FinishedCount(s.events)
    decreases |items|
  {
    if |items| > 0 {
      var s1 := Poll(s, stop);
      CountsEmit(s.events, Progress(CancelRequested));
      CountsEmit(s1.events, Progress(PopulateCancelled));
      PopLoopNoFinish(s1, items[1..], subs + (if items[0].kind == Directory then [items[0].path] else []), stop);
    }
  }

  /** The task emits no `finished` signal of its own. */
  lemma PopulateNoFinish(s: WorkerState, dir: Dir, stop: Stop)
    ensures FinishedCount(Populate(s, dir, stop).0.events) == FinishedCount(s.events)
  {
    CountsEmit(s.events, Error(CannotPopulate(dir.path)));
    if dir.isDir {
      var s0 := Emit(s, Progress(PopulateStarted(dir.path)));
      CountsEmit(s.events, Progress(PopulateStarted(dir.path)));
      PopLoopNoFinish(s0, dir.children.entries, [], stop);
      var r := PopLoop(s0, dir.children.entries, [], stop);
      CountsEmit(r.0.events, Error(PopulateFailed(dir.path)));
      var s2 := Poll(r.0, stop);
      CountsEmit(r.0.events, Progress(CancelRequested));
      CountsEmit(s2.events, SubfoldersFound(r.1));
      CountsEmit(s2.events + [SubfoldersFound(r.1)], Progress(SubfolderCount(|r.1|)));
      assert Populate(s, dir, stop) == Finish(r, dir, stop);
    }
  }
}
