/**
 * `_scan_folder_for_images`: the recursive listing is walked once, supported
 * files are buffered, and the buffer is emitted whenever it holds 50 paths;
 * after the walk the remainder is emitted and a completion report follows.
 */
module ScanSpec {
  import opened FsModel
  import opened Events

  const BatchSize: nat := 50

  /** The consecutive full batches of `xs`, dropping what is left over. */
  function Chunks(xs: seq<Path>): seq<seq<Path>>
    decreases |xs|
  {
    if |xs| < BatchSize then [] else [xs[..BatchSize]] + Chunks(xs[BatchSize..])
  }

  /** What is left of `xs` after its full batches. */
  function Rest(xs: seq<Path>): (r: seq<Path>)
    ensures |r| < BatchSize
    decreases |xs|
  {
    if |xs| < BatchSize then xs else Rest(xs[BatchSize..])
  }

  /** The batches a complete scan of `xs` emits: the full ones, then any remainder. */
  function Partition(xs: seq<Path>): seq<seq<Path>> {
    Chunks(xs) + (if Rest(xs) == [] then [] else [Rest(xs)])
  }

  function Flatten(bs: seq<seq<Path>>): seq<Path> {
    if |bs| == 0 then [] else bs[0] + Flatten(bs[1..])
  }

  lemma {:induction false} FlattenAppend(a: seq<seq<Path>>, b: seq<seq<Path>>)
    ensures Flatten(a + b) == Flatten(a) + Flatten(b)
  {
    if |a| == 0 {
      assert a + b == b;
    } else {
      assert (a + b)[1..] == a[1..] + b;
      FlattenAppend(a[1..], b);
    }
  }

  /** Every full batch has exactly 50 paths, and the batches followed by the remainder give back `xs`. */
  lemma {:induction false} ChunksSplit(xs: seq<Path>)
    ensures forall i :: 0 <= i < |Chunks(xs)| ==> |Chunks(xs)[i]| == BatchSize
    ensures Flatten(Chunks(xs)) + Rest(xs) == xs
    decreases |xs|
  {
    if |xs| >= BatchSize {
      ChunksSplit(xs[BatchSize..]);
      var c := Chunks(xs);
      assert c[1..] == Chunks(xs[BatchSize..]);
      assert xs == xs[..BatchSize] + xs[BatchSize..];
    }
  }

  /**
   * The batches of a complete scan are non-empty, hold at most 50 paths, all
   * but the last hold exactly 50, and together they are `xs` in order.
   */
  lemma PartitionShape(xs: seq<Path>)
    ensures var p := Partition(xs);
            (forall i :: 0 <= i < |p| ==> 0 < |p[i]| <= BatchSize)
            && (forall i :: 0 <= i < |p| - 1 ==> |p[i]| == BatchSize)
            && Flatten(p) == xs
  {
    ChunksSplit(xs);
    var tail := if Rest(xs) == [] then [] else [Rest(xs)];
    FlattenAppend(Chunks(xs), tail);
    if Rest(xs) != [] {
      assert Flatten(tail) == Rest(xs) + Flatten(tail[1..]);
    }
  }

  /** The loop's local variables: `paths_to_emit` and `count`. */
  datatype ScanAcc = ScanAcc(s: WorkerState, buffer: seq<Path>, count: nat)

  /** One supported file: buffered, and the buffer emitted once it holds 50 paths. */
  function Collect(a: ScanAcc, p: Path): (r: ScanAcc)
    ensures r.count == a.count + 1
  {
    var b := a.buffer + [p];
    if |b| >= BatchSize then ScanAcc(Emit(a.s, ImageBatch(b)), [], a.count + 1)
    else ScanAcc(a.s, b, a.count + 1)
  }

  /** One listed item: buffered when it is a supported file. */
  function Visit(a: ScanAcc, e: Entry, exts: set<string>): ScanAcc {
    if IsImage(e, exts) then Collect(a, e.path) else a
  }

  /** The loop over the recursive listing; the flag says it returned on a cleared flag. */
  function ScanLoop(a: ScanAcc, items: seq<Entry>, exts: set<string>, stop: Stop): (ScanAcc, bool)
    decreases |items|
  {
    if |items| == 0 then (a, false)
    else
      var s1 := Poll(a.s, stop);
      if !s1.running then (a.(s := Emit(s1, Progress(ScanCancelled))), true)
      else ScanLoop(Visit(a.(s := s1), items[0], exts), items[1..], exts, stop)
  }

  /** The scan as a whole, with whether it raised (the listing failed part-way) to its caller. */
  function Scan(s: WorkerState, dir: Dir, exts: set<string>, stop: Stop): (WorkerState, bool) {
    if !dir.isDir then (Emit(s, Error(CannotScan(dir.path))), false)
    else
      var s0 := Emit(s, Progress(ScanStarted(dir.path)));
      var r := ScanLoop(ScanAcc(s0, [], 0), dir.tree.entries, exts, stop);
      if r.1 then (r.0.s, false)
      else if dir.tree.raises then (Emit(r.0.s, Error(ScanFailed(dir.path))), true)
      else
        var s1 := if r.0.buffer != [] then Emit(r.0.s, ImageBatch(r.0.buffer)) else r.0.s;
        (Emit(s1, Progress(ScanComplete(dir.path, r.0.count))), false)
  }

  lemma BatchesEmit(evs: seq<Event>, e: Event)
    ensures Batches(evs + [e]) == Batches(evs) + (if e.ImageBatch? then [e.paths] else [])
  {
    CountsEmit(evs, e);
  }

  lemma PrefixOne(items: seq<Entry>, j: nat)
    requires 1 <= j <= |items|
    ensures items[..j] == [items[0]] + items[1..][..j - 1]
  {
  }

  /** Visiting one item keeps (emitted batches, chunking of what is buffered and still to come) in step. */
  lemma VisitStep(a: ScanAcc, e: Entry, exts: set<string>, m: seq<Path>)
    requires |a.buffer| < BatchSize
    ensures var a2 := Visit(a, e, exts);
            var xs := a.buffer + Images([e], exts) + m;
            |a2.buffer| < BatchSize
            && Batches(a2.s.events) + Chunks(a2.buffer + m) == Batches(a.s.events) + Chunks(xs)
            && Rest(a2.buffer + m) == Rest(xs)
            && a2.count == a.count + |Images([e], exts)|
            && a2.s.polls == a.s.polls && a2.s.running == a.s.running
  {
    ImagesOne(e, exts);
    if IsImage(e, exts) {
      CollectStep(a, e.path, m);
    } else {
      assert a.buffer + [] + m == a.buffer + m;
    }
  }

  /** Buffering one supported file keeps the same invariant; a buffer that fills up becomes one batch. */
  lemma CollectStep(a: ScanAcc, p: Path, m: seq<Path>)
    requires |a.buffer| < BatchSize
    ensures var a2 := Collect(a, p);
            var xs := a.buffer + [p] + m;
            |a2.buffer| < BatchSize
            && Batches(a2.s.events) + Chunks(a2.buffer + m) == Batches(a.s.events) + Chunks(xs)
            && Rest(a2.buffer + m) == Rest(xs)
            && a2.s.polls == a.s.polls && a2.s.running == a.s.running
  {
    var b := a.buffer + [p];
    if |b| >= BatchSize {
      BatchesEmit(a.s.events, ImageBatch(b));
      var xs := b + m;
      assert xs[..BatchSize] == b;
      assert xs[BatchSize..] == m;
      assert [] + m == m;
    }
  }

  /** What the loop has found when it stops: the buffer it started with, then the supported files it reached. */
  function Found(a: ScanAcc, items: seq<Entry>, exts: set<string>, stop: Stop): seq<Path> {
    a.buffer + Images(items[..Reach(a.s, stop, |items|)], exts)
  }

  /**
   * The loop emits exactly the full batches of (buffer so far ++ the supported
   * files among the items it reached), keeps the rest buffered, and is
   * cancelled exactly when it did not reach every item.
   */
  predicate LoopEmitsChunks(a: ScanAcc, items: seq<Entry>, exts: set<string>, stop: Stop) {
    var r := ScanLoop(a, items, exts, stop);
    var xs := Found(a, items, exts, stop);
    Batches(r.0.s.events) == Batches(a.s.events) + Chunks(xs)
    && r.0.buffer == Rest(xs)
    && r.0.count + |a.buffer| == a.count + |xs|
    && (r.1 <==> Reach(a.s, stop, |items|) < |items|)
  }

  lemma ScanLoopStops(a: ScanAcc, items: seq<Entry>, exts: set<string>, stop: Stop)
    requires |a.buffer| < BatchSize
    requires |items| == 0 || !Poll(a.s, stop).running
    ensures LoopEmitsChunks(a, items, exts, stop)
  {
    var j := Reach(a.s, stop, |items|);
    if |items| > 0 {
      var s1 := Poll(a.s, stop);
      ReachStep(a.s, stop, |items|);
      BatchesEmit(s1.events, Progress(ScanCancelled));
      BatchesEmit(a.s.events, Progress(CancelRequested));
    }
    assert items[..j] == [];
    assert Found(a, items, exts, stop) == a.buffer;
  }

  lemma FoundStep(a: ScanAcc, items: seq<Entry>, exts: set<string>, stop: Stop)
    requires |items| > 0 && Poll(a.s, stop).running
    ensures var a1 := a.(s := Poll(a.s, stop));
            var m := Images(items[1..][..Reach(a1.s, stop, |items| - 1)], exts);
            Found(a, items, exts, stop) == a.buffer + Images([items[0]], exts) + m
  {
    var a1 := a.(s := Poll(a.s, stop));
    ReachStep(a.s, stop, |items|);
    var j := Reach(a.s, stop, |items|);
    var j2 := Reach(a1.s, stop, |items| - 1);
    PrefixOne(items, j);
    ImagesAppend([items[0]], items[1..][..j2], exts);
  }

  lemma ScanLoopContinues(a: ScanAcc, items: seq<Entry>, exts: set<string>, stop: Stop)
    requires |a.buffer| < BatchSize
    requires |items| > 0 && Poll(a.s, stop).running
    requires LoopEmitsChunks(Visit(a.(s := Poll(a.s, stop)), items[0], exts), items[1..], exts, stop)
    ensures LoopEmitsChunks(a, items, exts, stop)
  {
    var a1 := a.(s := Poll(a.s, stop));
    var a2 := Visit(a1, items[0], exts);
    var m := Images(items[1..][..Reach(a1.s, stop, |items| - 1)], exts);
    VisitStep(a1, items[0], exts, m);
    FoundStep(a, items, exts, stop);
    assert Reach(a2.s, stop, |items| - 1) == Reach(a1.s, stop, |items| - 1);
  }

  lemma {:induction false} ScanLoopBatches(a: ScanAcc, items: seq<Entry>, exts: set<string>, stop: Stop)
    requires |a.buffer| < BatchSize
    ensures LoopEmitsChunks(a, items, exts, stop)
    decreases |items|
  {
    if |items| == 0 || !Poll(a.s, stop).running {
      ScanLoopStops(a, items, exts, stop);
    } else {
      var a2 := Visit(a.(s := Poll(a.s, stop)), items[0], exts);
      VisitStep(a.(s := Poll(a.s, stop)), items[0], exts, []);
      ScanLoopBatches(a2, items[1..], exts, stop);
      ScanLoopContinues(a, items, exts, stop);
    }
  }

  /** The loop as the scan starts it: empty buffer, and nothing found before. */
  lemma ScanStart(s: WorkerState, dir: Dir, exts: set<string>, stop: Stop)
    ensures var a := ScanAcc(Emit(s, Progress(ScanStarted(dir.path))), [], 0);
            LoopEmitsChunks(a, dir.tree.entries, exts, stop)
            && Batches(a.s.events) == Batches(s.events)
            && Found(a, dir.tree.entries, exts, stop) == Images(dir.tree.entries[..Reach(s, stop, |dir.tree.entries|)], exts)
  {
    var a := ScanAcc(Emit(s, Progress(ScanStarted(dir.path))), [], 0);
    BatchesEmit(s.events, Progress(ScanStarted(dir.path)));
    ScanLoopBatches(a, dir.tree.entries, exts, stop);
  }

  /**
   * A scan that is cancelled, or whose listing raises, emits after its earlier
   * batches only the full batches of the files it found: the unflushed
   * remainder is dropped. It raises exactly when the listing did.
   */
  lemma ScanCutShort(s: WorkerState, dir: Dir, exts: set<string>, stop: Stop)
    requires dir.isDir
    requires Reach(s, stop, |dir.tree.entries|) < |dir.tree.entries| || dir.tree.raises
    ensures var r := Scan(s, dir, exts, stop);
            var es := dir.tree.entries;
            var j := Reach(s, stop, |es|);
            Batches(r.0.events) == Batches(s.events) + Chunks(Images(es[..j], exts))
            && (r.1 <==> j == |es|)
  {
    ScanStart(s, dir, exts, stop);
    var a := ScanAcc(Emit(s, Progress(ScanStarted(dir.path))), [], 0);
    var r := ScanLoop(a, dir.tree.entries, exts, stop);
    if !r.1 {
      BatchesEmit(r.0.s.events, Error(ScanFailed(dir.path)));
    }
  }

  /** The loop of a scan that reaches the end: what it emitted and what it left buffered. */
  lemma ScanLoopEnds(s: WorkerState, dir: Dir, exts: set<string>, stop: Stop)
    requires Reach(s, stop, |dir.tree.entries|) == |dir.tree.entries|
    ensures var found := Images(dir.tree.entries, exts);
            var r := ScanLoop(ScanAcc(Emit(s, Progress(ScanStarted(dir.path))), [], 0), dir.tree.entries, exts, stop);
            Batches(r.0.s.events) == Batches(s.events) + Chunks(found)
            && r.0.buffer == Rest(found) && r.0.count == |found| && !r.1
  {
    ScanStart(s, dir, exts, stop);
    assert dir.tree.entries[..|dir.tree.entries|] == dir.tree.entries;
  }

  /**
   * A scan that reaches the end of a listing that does not raise emits,
   * after its earlier batches, exactly `Partition` of the supported files in
   * listing order, and ends by reporting how many it found.
   */
  lemma ScanCompletes(s: WorkerState, dir: Dir, exts: set<string>, stop: Stop)
    requires dir.isDir && !dir.tree.raises
    requires Reach(s, stop, |dir.tree.entries|) == |dir.tree.entries|
    ensures var r := Scan(s, dir, exts, stop);
            var found := Images(dir.tree.entries, exts);
            Batches(r.0.events) == Batches(s.events) + Partition(found)
            && |r.0.events| > 0 && r.0.events[|r.0.events| - 1] == Progress(ScanComplete(dir.path, |found|))
            && !r.1
  {
    ScanLoopEnds(s, dir, exts, stop);
    var found := Images(dir.tree.entries, exts);
    var r := ScanLoop(ScanAcc(Emit(s, Progress(ScanStarted(dir.path))), [], 0), dir.tree.entries, exts, stop);
    FlushStep(r.0, dir.path);
    var s1 := if r.0.buffer != [] then Emit(r.0.s, ImageBatch(r.0.buffer)) else r.0.s;
    var fin := Emit(s1, Progress(ScanComplete(dir.path, r.0.count)));
    assert Scan(s, dir, exts, stop) == (fin, false);
    var tail := if Rest(found) == [] then [] else [Rest(found)];
    assert Batches(fin.events) == (Batches(s.events) + Chunks(found)) + tail;
    assert (Batches(s.events) + Chunks(found)) + tail == Batches(s.events) + Partition(found);
  }

  /** The final flush: the remainder, when there is one, becomes the last batch. */
  lemma FlushStep(a: ScanAcc, folder: Path)
    ensures var s1 := if a.buffer != [] then Emit(a.s, ImageBatch(a.buffer)) else a.s;
            Batches(Emit(s1, Progress(ScanComplete(folder, a.count))).events)
            == Batches(a.s.events) + (if a.buffer == [] then [] else [a.buffer])
  {
    var s1 := if a.buffer != [] then Emit(a.s, ImageBatch(a.buffer)) else a.s;
    if a.buffer != [] {
      BatchesEmit(a.s.events, ImageBatch(a.buffer));
    }
    BatchesEmit(s1.events, Progress(ScanComplete(folder, a.count)));
  }

  lemma PollNoFinish(s: WorkerState, stop: Stop)
    ensures FinishedCount(Poll(s, stop).events) == FinishedCount(s.events)
  {
    CountsEmit(s.events, Progress(CancelRequested));
  }

  lemma {:induction false} ScanLoopNoFinish(a: ScanAcc, items: seq<Entry>, exts: set<string>, stop: Stop)
    ensures FinishedCount(ScanLoop(a, items, exts, stop).0.s.events) == FinishedCount(a.s.events)
    decreases |items|
  {
    if |items| > 0 {
      var s1 := Poll(a.s, stop);
      PollNoFinish(a.s, stop);
      CountsEmit(s1.events, Progress(ScanCancelled));
      CountsEmit(s1.events, ImageBatch(a.buffer + [items[0].path]));
      ScanLoopNoFinish(Visit(a.(s := s1), items[0], exts), items[1..], exts, stop);
    }
  }

  /** A scan emits no `finished` signal of its own: that one is `run`'s. */
  lemma ScanNoFinish(s: WorkerState, dir: Dir, exts: set<string>, stop: Stop)
    ensures FinishedCount(Scan(s, dir, exts, stop).0.events) == FinishedCount(s.events)
  {
    if !dir.isDir {
      CountsEmit(s.events, Error(CannotScan(dir.path)));
    } else {
      var s0 := Emit(s, Progress(ScanStarted(dir.path)));
      CountsEmit(s.events, Progress(ScanStarted(dir.path)));
      var r := ScanLoop(ScanAcc(s0, [], 0), dir.tree.entries, exts, stop);
      ScanLoopNoFinish(ScanAcc(s0, [], 0), dir.tree.entries, exts, stop);
      if r.1 {
        assert Scan(s, dir, exts, stop).0 == r.0.s;
      } else if dir.tree.raises {
        CountsEmit(r.0.s.events, Error(ScanFailed(dir.path)));
        assert Scan(s, dir, exts, stop).0 == Emit(r.0.s, Error(ScanFailed(dir.path)));
      } else {
        var s1 := if r.0.buffer != [] then Emit(r.0.s, ImageBatch(r.0.buffer)) else r.0.s;
        CountsEmit(r.0.s.events, ImageBatch(r.0.buffer));
        CountsEmit(s1.events, Progress(ScanComplete(dir.path, r.0.count)));
        assert Scan(s, dir, exts, stop).0 == Emit(s1, Progress(ScanComplete(dir.path, r.0.count)));
      }
    }
  }

  /** A scan raises to `run` exactly when its listing fails and no stop fell due first. */
  lemma ScanRaises(s: WorkerState, dir: Dir, exts: set<string>, stop: Stop)
    ensures Scan(s, dir, exts, stop).1
            <==> dir.isDir && dir.tree.raises && Reach(s, stop, |dir.tree.entries|) == |dir.tree.entries|
  {
    if dir.isDir {
      if Reach(s, stop, |dir.tree.entries|) < |dir.tree.entries| || dir.tree.raises {
        ScanCutShort(s, dir, exts, stop);
      } else {
        ScanCompletes(s, dir, exts, stop);
      }
    }
  }
}
