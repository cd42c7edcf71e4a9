/**
 * `_get_folder_preview_image`: the first usable image of a folder, searched
 * over the immediate entries, then the immediate entries once more (depth 1
 * of the depth loop repeats the pattern "*"), then the entries two levels down.
 */
module PreviewSpec {
  import opened Wrappers
  import opened FsModel
  import opened Events

  /** A supported image file whose size reads as positive. */
  predicate Usable(e: Entry, exts: set<string>) {
    IsImage(e, exts) && e.size.Some? && e.size.value > 0
  }

  /** Reference: the first usable entry of `es`, in order. */
  function FirstUsable(es: seq<Entry>, exts: set<string>): Option<Path> {
    if es == [] then None
    else if Usable(es[0], exts) then Some(es[0].path)
    else FirstUsable(es[1..], exts)
  }

  /** `FirstUsable` finds the usable entry that no usable entry precedes, or reports that there is none. */
  lemma {:induction false} FirstUsableMeans(es: seq<Entry>, exts: set<string>)
    ensures var r := FirstUsable(es, exts);
            (r.Some? <==> exists i :: 0 <= i < |es| && Usable(es[i], exts))
            && (r.Some? ==> exists i :: 0 <= i < |es| && Usable(es[i], exts) && es[i].path == r.value
                                      && forall j :: 0 <= j < i ==> !Usable(es[j], exts))
  {
    if es != [] {
      FirstUsableMeans(es[1..], exts);
      if !Usable(es[0], exts) && FirstUsable(es[1..], exts).Some? {
        var i :| 0 <= i < |es[1..]| && Usable(es[1..][i], exts) && es[1..][i].path == FirstUsable(es, exts).value
                 && forall j :: 0 <= j < i ==> !Usable(es[1..][j], exts);
        assert Usable(es[i + 1], exts) && forall j :: 0 <= j < i + 1 ==> !Usable(es[j], exts);
      }
      if !Usable(es[0], exts) && FirstUsable(es[1..], exts).None? {
        forall i | 0 <= i < |es| ensures !Usable(es[i], exts) {
          if i > 0 { assert es[i] == es[1..][i - 1]; }
        }
      }
    }
  }

  lemma {:induction false} FirstUsableAppend(a: seq<Entry>, b: seq<Entry>, exts: set<string>)
    ensures FirstUsable(a + b, exts) == if FirstUsable(a, exts).Some? then FirstUsable(a, exts) else FirstUsable(b, exts)
  {
    if a == [] {
      assert a + b == b;
    } else {
      assert (a + b)[0] == a[0];
      assert (a + b)[1..] == a[1..] + b;
      FirstUsableAppend(a[1..], b, exts);
    }
  }

  /** How one pass over a listing ends: an image emitted, the listing exhausted, or the flag read clear. */
  datatype PassEnd = Found | Exhausted | Quit

  /** One `for item in folder_path.glob(pattern)` loop. */
  function PreviewPass(s: WorkerState, folder: Path, items: seq<Entry>, exts: set<string>, stop: Stop): (WorkerState, PassEnd)
    decreases |items|
  {
    if |items| == 0 then (s, Exhausted)
    else
      var s1 := Poll(s, stop);
      var e := items[0];
      if !s1.running then (s1, Quit)
      else if IsImage(e, exts) && e.size.None? then
        PreviewPass(Emit(s1, Progress(SkippingInaccessible(e.path))), folder, items[1..], exts, stop)
      else if Usable(e, exts) then (Emit(s1, PreviewImage(folder, e.path)), Found)
      else PreviewPass(s1, folder, items[1..], exts, stop)
  }

  /** The passes in turn; a listing that raises ends the search with an error, which is caught. */
  function PreviewPasses(s: WorkerState, folder: Path, passes: seq<Listing>, exts: set<string>, stop: Stop): WorkerState
    decreases |passes|
  {
    if |passes| == 0 then Emit(s, Progress(NoPreviewFound(folder)))
    else
      var r := PreviewPass(s, folder, passes[0].entries, exts, stop);
      if r.1 != Exhausted then r.0
      else if passes[0].raises then Emit(r.0, Error(PreviewFailed(folder)))
      else PreviewPasses(r.0, folder, passes[1..], exts, stop)
  }

  /** The listings searched: pattern "*", then the depth loop's "*" and its two-level pattern. */
  function Passes(dir: Dir): seq<Listing> {
    [dir.children, dir.children, dir.grandchildren]
  }

  /**
   * The whole search. It never raises to `run`. The all-in-one variant
   * first reports that it is looking for a preview.
   */
  function Preview(s: WorkerState, dir: Dir, exts: set<string>, legacy: bool, stop: Stop): WorkerState {
    if !dir.isDir then Emit(s, Error(CannotScan(dir.path)))
    else PreviewPasses(Opening(s, dir, legacy), dir.path, Passes(dir), exts, stop)
  }

  /** What the search reports before its first pass. */
  function Opening(s: WorkerState, dir: Dir, legacy: bool): WorkerState {
    if legacy then Emit(s, Progress(FindingPreview(dir.path))) else s
  }

  /** Reference: the entries the passes examine in order, up to the first listing that raises. */
  function SearchOrder(passes: seq<Listing>): seq<Entry>
    decreases |passes|
  {
    if |passes| == 0 then []
    else passes[0].entries + (if passes[0].raises then [] else SearchOrder(passes[1..]))
  }

  /** Reference: does some examined listing raise? */
  predicate SearchRaises(passes: seq<Listing>)
    decreases |passes|
  {
    |passes| > 0 && (passes[0].raises || SearchRaises(passes[1..]))
  }

  /** What a pass leaves alone. */
  predicate Kept(s: WorkerState, r: WorkerState) {
    r.names == s.names && r.moves == s.moves && r.removed == s.removed && r.success == s.success
    && Batches(r.events) == Batches(s.events) && Founds(r.events) == Founds(s.events)
    && Summaries(r.events) == Summaries(s.events) && FinishedCount(r.events) == FinishedCount(s.events)
  }

  lemma KeptEmit(s: WorkerState, e: Event)
    requires !e.ImageBatch? && !e.SubfoldersFound? && !e.Finished? && !(e.Progress? && e.note.MergeSummary?)
    ensures Kept(s, Emit(s, e))
  {
    CountsEmit(s.events, e);
  }

  lemma KeptPoll(s: WorkerState, stop: Stop)
    ensures Kept(s, Poll(s, stop))
  {
    if stop == BeforePoll(s.polls) {
      KeptEmit(s.(running := false), Progress(CancelRequested));
    }
  }

  /**
   * What one pass promises: an emitted image is the first usable entry and
   * closes the event log; otherwise no image is emitted, and an exhausted
   * pass saw no usable entry. Never stopped, the pass finds exactly when a
   * usable entry exists.
   */
  predicate PassDone(s: WorkerState, folder: Path, items: seq<Entry>, exts: set<string>, stop: Stop, r: (WorkerState, PassEnd)) {
    Kept(s, r.0)
    && (r.1 == Found ==>
          FirstUsable(items, exts).Some? && Previews(r.0.events) == Previews(s.events) + [FirstUsable(items, exts).value]
          && |r.0.events| > 0 && r.0.events[|r.0.events| - 1] == PreviewImage(folder, FirstUsable(items, exts).value))
    && (r.1 != Found ==> Previews(r.0.events) == Previews(s.events))
    && (r.1 == Exhausted ==> FirstUsable(items, exts).None? && r.0.running == s.running)
    && (r.1 == Quit ==> !r.0.running)
    && (s.running && stop == Never ==> r.1 == (if FirstUsable(items, exts).Some? then Found else Exhausted))
  }

  /** An entry that is not usable: the pass goes on with the rest, and what the rest promises, the whole pass promises. */
  lemma PassStep(s: WorkerState, b: WorkerState, folder: Path, items: seq<Entry>, exts: set<string>, stop: Stop, r: (WorkerState, PassEnd))
    requires |items| > 0 && !Usable(items[0], exts)
    requires s.running && b.running && Kept(s, b) && Previews(b.events) == Previews(s.events)
    requires stop == Never ==> b.polls == s.polls + 1 && Poll(s, Never) == b.(events := s.events)
    requires PassDone(b, folder, items[1..], exts, stop, r)
    ensures PassDone(s, folder, items, exts, stop, r)
  {
    assert FirstUsable(items, exts) == FirstUsable(items[1..], exts);
  }

  lemma PassFound(s: WorkerState, folder: Path, items: seq<Entry>, exts: set<string>, stop: Stop)
    requires |items| > 0 && Poll(s, stop).running && Usable(items[0], exts)
    ensures PassDone(s, folder, items, exts, stop, PreviewPass(s, folder, items, exts, stop))
  {
    var s1 := Poll(s, stop);
    var e := PreviewImage(folder, items[0].path);
    KeptPoll(s, stop);
    KeptEmit(s1, e);
    CountsEmit(s1.events, e);
    assert FirstUsable(items, exts) == Some(items[0].path);
    assert PreviewPass(s, folder, items, exts, stop) == (Emit(s1, e), Found);
  }

  lemma PassQuit(s: WorkerState, folder: Path, items: seq<Entry>, exts: set<string>, stop: Stop)
    requires |items| > 0 && !Poll(s, stop).running
    ensures PassDone(s, folder, items, exts, stop, PreviewPass(s, folder, items, exts, stop))
  {
    KeptPoll(s, stop);
    CountsEmit(s.events, Progress(CancelRequested));
  }

  lemma {:induction false} PreviewPassEffect(s: WorkerState, folder: Path, items: seq<Entry>, exts: set<string>, stop: Stop)
    ensures PassDone(s, folder, items, exts, stop, PreviewPass(s, folder, items, exts, stop))
    decreases |items|
  {
    if |items| > 0 {
      var s1 := Poll(s, stop);
      var e := items[0];
      if !s1.running {
        PassQuit(s, folder, items, exts, stop);
      } else if Usable(e, exts) {
        PassFound(s, folder, items, exts, stop);
      } else {
        KeptPoll(s, stop);
        var b := if IsImage(e, exts) && e.size.None? then Emit(s1, Progress(SkippingInaccessible(e.path))) else s1;
        KeptEmit(s1, Progress(SkippingInaccessible(e.path)));
        CountsEmit(s1.events, Progress(SkippingInaccessible(e.path)));
        CountsEmit(s.events, Progress(CancelRequested));
        assert PreviewPass(s, folder, items, exts, stop) == PreviewPass(b, folder, items[1..], exts, stop);
        PreviewPassEffect(b, folder, items[1..], exts, stop);
        PassStep(s, b, folder, items, exts, stop, PreviewPass(b, folder, items[1..], exts, stop));
      }
    }
  }

  /**
   * What the passes promise: at most one image is emitted, and it is the
   * first usable entry in search order; never stopped, the search ends with
   * that image, or with the error of a raising listing, or with the report
   * that nothing was found.
   */
  predicate PassesDone(s: WorkerState, folder: Path, passes: seq<Listing>, exts: set<string>, stop: Stop, r: WorkerState) {
    var first := FirstUsable(SearchOrder(passes), exts);
    Kept(s, r)
    && (Previews(r.events) == Previews(s.events)
        || (first.Some? && Previews(r.events) == Previews(s.events) + [first.value]))
    && (s.running && stop == Never ==>
          Previews(r.events) == Previews(s.events) + (if first.Some? then [first.value] else [])
          && |r.events| > 0
          && r.events[|r.events| - 1] == (if first.Some? then PreviewImage(folder, first.value)
                                          else if SearchRaises(passes) then Error(PreviewFailed(folder))
                                          else Progress(NoPreviewFound(folder))))
  }

  lemma {:induction false} PreviewPassesEffect(s: WorkerState, folder: Path, passes: seq<Listing>, exts: set<string>, stop: Stop)
    ensures PassesDone(s, folder, passes, exts, stop, PreviewPasses(s, folder, passes, exts, stop))
    decreases |passes|
  {
    if |passes| == 0 {
      KeptEmit(s, Progress(NoPreviewFound(folder)));
      CountsEmit(s.events, Progress(NoPreviewFound(folder)));
    } else {
      var r := PreviewPass(s, folder, passes[0].entries, exts, stop);
      if r.1 != Exhausted {
        PassesStopped(s, folder, passes, exts, stop);
      } else if passes[0].raises {
        PassesRaised(s, folder, passes, exts, stop);
      } else {
        PreviewPassesEffect(r.0, folder, passes[1..], exts, stop);
        PassesNext(s, folder, passes, exts, stop);
      }
    }
  }

  /** The first pass found an image or was stopped: the search ends there. */
  lemma PassesStopped(s: WorkerState, folder: Path, passes: seq<Listing>, exts: set<string>, stop: Stop)
    requires |passes| > 0 && PreviewPass(s, folder, passes[0].entries, exts, stop).1 != Exhausted
    ensures PassesDone(s, folder, passes, exts, stop, PreviewPasses(s, folder, passes, exts, stop))
  {
    var p := passes[0];
    PreviewPassEffect(s, folder, p.entries, exts, stop);
    var tail := if p.raises then [] else SearchOrder(passes[1..]);
    assert SearchOrder(passes) == p.entries + tail;
    FirstUsableAppend(p.entries, tail, exts);
  }

  /** The first pass found nothing and its listing failed: the search ends with the error. */
  lemma PassesRaised(s: WorkerState, folder: Path, passes: seq<Listing>, exts: set<string>, stop: Stop)
    requires |passes| > 0 && passes[0].raises && PreviewPass(s, folder, passes[0].entries, exts, stop).1 == Exhausted
    ensures PassesDone(s, folder, passes, exts, stop, PreviewPasses(s, folder, passes, exts, stop))
  {
    var p := passes[0];
    var r := PreviewPass(s, folder, p.entries, exts, stop);
    PreviewPassEffect(s, folder, p.entries, exts, stop);
    assert SearchOrder(passes) == p.entries + [];
    FirstUsableAppend(p.entries, [], exts);
    KeptEmit(r.0, Error(PreviewFailed(folder)));
    CountsEmit(r.0.events, Error(PreviewFailed(folder)));
  }

  /** The first pass found nothing and its listing held: what the later passes promise, the search promises. */
  lemma PassesNext(s: WorkerState, folder: Path, passes: seq<Listing>, exts: set<string>, stop: Stop)
    requires |passes| > 0 && !passes[0].raises
    requires var r := PreviewPass(s, folder, passes[0].entries, exts, stop);
             r.1 == Exhausted && PassesDone(r.0, folder, passes[1..], exts, stop, PreviewPasses(r.0, folder, passes[1..], exts, stop))
    ensures PassesDone(s, folder, passes, exts, stop, PreviewPasses(s, folder, passes, exts, stop))
  {
    var p := passes[0];
    PreviewPassEffect(s, folder, p.entries, exts, stop);
    assert SearchOrder(passes) == p.entries + SearchOrder(passes[1..]);
    FirstUsableAppend(p.entries, SearchOrder(passes[1..]), exts);
  }

  /** The repeated "*" pass adds nothing: the first usable entry in search order is that of the immediate entries followed by the two-level ones. */
  lemma RepeatedPassRedundant(dir: Dir, exts: set<string>)
    ensures FirstUsable(SearchOrder(Passes(dir)), exts)
            == FirstUsable(dir.children.entries + (if dir.children.raises then [] else dir.grandchildren.entries), exts)
    ensures SearchRaises(Passes(dir)) == (dir.children.raises || dir.grandchildren.raises)
  {
    var c := dir.children;
    var g := dir.grandchildren;
    assert Passes(dir)[1..] == [c, g];
    assert Passes(dir)[1..][1..] == [g];
    assert [g][1..] == [];
    assert SearchRaises([g]) == g.raises;
    assert SearchRaises(Passes(dir)) == (c.raises || SearchRaises([c, g]));
    assert SearchOrder([g]) == g.entries;
    if !c.raises {
      assert SearchOrder(Passes(dir)) == c.entries + (c.entries + g.entries);
      FirstUsableAppend(c.entries, c.entries + g.entries, exts);
      FirstUsableAppend(c.entries, g.entries, exts);
    }
  }

  /** Reference: the first usable image among the immediate entries, then, if their listing did not fail, the entries two levels down. */
  function ExpectedPreview(dir: Dir, exts: set<string>): Option<Path> {
    FirstUsable(dir.children.entries + (if dir.children.raises then [] else dir.grandchildren.entries), exts)
  }

  /** The opening report shows no image and leaves the flag alone. */
  lemma OpeningEffect(s: WorkerState, dir: Dir, legacy: bool)
    ensures var s0 := Opening(s, dir, legacy);
            Kept(s, s0) && s0.running == s.running && Previews(s0.events) == Previews(s.events)
  {
    KeptEmit(s, Progress(FindingPreview(dir.path)));
    CountsEmit(s.events, Progress(FindingPreview(dir.path)));
  }

  /** The search on a directory promises what its passes promise, about the expected image. */
  lemma PreviewDirEffect(s: WorkerState, dir: Dir, exts: set<string>, legacy: bool, stop: Stop)
    requires dir.isDir
    ensures var s0 := Opening(s, dir, legacy);
            PassesDone(s0, dir.path, Passes(dir), exts, stop, Preview(s, dir, exts, legacy, stop))
            && Previews(s0.events) == Previews(s.events) && s0.running == s.running
            && FirstUsable(SearchOrder(Passes(dir)), exts) == ExpectedPreview(dir, exts)
            && SearchRaises(Passes(dir)) == (dir.children.raises || dir.grandchildren.raises)
  {
    var s0 := Opening(s, dir, legacy);
    OpeningEffect(s, dir, legacy);
    PreviewPassesEffect(s0, dir.path, Passes(dir), exts, stop);
    RepeatedPassRedundant(dir, exts);
  }

  /** However the search is stopped, it emits at most one image, and that image is the expected one. */
  lemma PreviewAtMostExpected(s: WorkerState, dir: Dir, exts: set<string>, legacy: bool, stop: Stop)
    ensures var r := Preview(s, dir, exts, legacy, stop);
            Previews(r.events) == Previews(s.events)
            || (ExpectedPreview(dir, exts).Some? && Previews(r.events) == Previews(s.events) + [ExpectedPreview(dir, exts).value])
  {
    if dir.isDir {
      PreviewDirEffect(s, dir, exts, legacy, stop);
    } else {
      CountsEmit(s.events, Error(CannotScan(dir.path)));
    }
  }

  /**
   * Never stopped, the search on a directory emits the expected image when
   * there is one and ends with it; otherwise it ends with the error of a
   * failing listing or with the report that no preview was found.
   */
  lemma PreviewUnstopped(s: WorkerState, dir: Dir, exts: set<string>, legacy: bool)
    requires dir.isDir && s.running
    ensures var r := Preview(s, dir, exts, legacy, Never);
            var p := ExpectedPreview(dir, exts);
            Previews(r.events) == Previews(s.events) + (if p.Some? then [p.value] else [])
            && |r.events| > 0
            && r.events[|r.events| - 1] == (if p.Some? then PreviewImage(dir.path, p.value)
                                            else if dir.children.raises || dir.grandchildren.raises then Error(PreviewFailed(dir.path))
                                            else Progress(NoPreviewFound(dir.path)))
  {
    PreviewDirEffect(s, dir, exts, legacy, Never);
  }

  /** A path that is not a directory: one error, nothing else. */
  lemma PreviewNotADirectory(s: WorkerState, dir: Dir, exts: set<string>, legacy: bool, stop: Stop)
    requires !dir.isDir
    ensures Preview(s, dir, exts, legacy, stop).events == s.events + [Error(CannotScan(dir.path))]
  {
  }

  /** The search emits no `finished` signal of its own. */
  lemma PreviewNoFinish(s: WorkerState, dir: Dir, exts: set<string>, legacy: bool, stop: Stop)
    ensures FinishedCount(Preview(s, dir, exts, legacy, stop).events) == FinishedCount(s.events)
  {
    CountsEmit(s.events, Error(CannotScan(dir.path)));
    if dir.isDir {
      PreviewDirEffect(s, dir, exts, legacy, stop);
    }
  }
}
