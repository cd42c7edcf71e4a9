/**
 * The older main window (`merge_subfolders.py`, class `MergeWindow`) as far
 * as its folder list goes. It differs from the newer one in four ways the
 * model keeps: the root is listed inline rather than by a worker, rows are
 * sorted by the plain name only, the preview cache survives a change of
 * root, and every finished merge, failed or not, rebuilds the list. Its
 * merge checks are the newer window's (`ListSteps.DecideMerge`); it does
 * not remember the merge in flight.
 */
module LegacyWindowModel {
  import opened Wrappers
  import opened FsModel
  import opened NaturalSort
  import opened Events
  import opened Catalog
  import opened Refresh
  import opened MergeList
  import opened ListSteps

  /** The older window's state: the rows, cache and preview pool, and the root folder. */
  datatype LegacyWindow = LegacyWindow(view: View, root: Option<Path>)

  function LegacyInitial(): LegacyWindow {
    LegacyWindow(View([], [], map[], [], 0), None)
  }

  predicate LegacyValid(w: LegacyWindow) {
    Valid(w.view)
  }

  /** Whether `current_root_folder` is set and is a folder. */
  predicate RootOk(w: LegacyWindow, disk: Disk) {
    w.root.Some? && disk.isDir(w.root.value)
  }

  // ---------------------------------------------------------------- the slots

  /** `populate_subfolder_list`, given what listing the root yields. */
  function Reload(w: LegacyWindow, listing: Listing, disk: Disk): LegacyWindow {
    w.(view := LegacyPopulate(w.view, RootOk(w, disk), listing, disk))
  }

  /** `select_root_folder`: set the root, clear the list (not the cache) and rebuild it. */
  function Choose(w: LegacyWindow, folder: Option<Path>, listing: Listing, disk: Disk): LegacyWindow {
    if folder.None? then w
    else Reload(w.(root := folder, view := w.view.(items := [])), listing, disk)
  }

  /** `task_finished` as far as the list goes: after any merge, rebuild it. */
  function Done(w: LegacyWindow, kind: TaskKind, success: bool, listing: Listing, disk: Disk): LegacyWindow {
    if kind == MergeSubs then Reload(w, listing, disk) else w
  }

  /** Everything that can happen to the older window's list. */
  datatype LegacyAction =
    | Chosen(chosen: Option<Path>, rootListing: Listing)
    | Reloaded(listing: Listing)
    | Asked(folder: Path)
    | PreviewFinished(kind: TaskKind, id: nat)
    | Shown(folder: Path, image: Path)
    | Ended(kind: TaskKind, success: bool, afterListing: Listing)

  function Step(w: LegacyWindow, a: LegacyAction, disk: Disk): LegacyWindow {
    match a
    case Chosen(chosen, rootListing) => Choose(w, chosen, rootListing, disk)
    case Reloaded(listing) => Reload(w, listing, disk)
    case Asked(folder) => w.(view := Request(w.view, folder, disk, true))
    case PreviewFinished(kind, id) => w.(view := Catalog.Finished(w.view, kind, id, disk, true))
    case Shown(folder, image) => w.(view := Thumbnail(w.view, folder, image))
    case Ended(kind, success, afterListing) => Done(w, kind, success, afterListing, disk)
  }

  function Steps(w: LegacyWindow, actions: seq<LegacyAction>, disk: Disk): LegacyWindow
    decreases |actions|
  {
    if |actions| == 0 then w else Steps(Step(w, actions[0], disk), actions[1..], disk)
  }

  // ---------------------------------------------------------------- what the window keeps

  lemma LegacyInitialValid()
    ensures LegacyValid(LegacyInitial())
  {
  }

  /** A rebuild keeps the pool valid whatever the listing holds. */
  lemma ReloadValid(w: LegacyWindow, listing: Listing, disk: Disk)
    requires LegacyValid(w)
    ensures var r := Reload(w, listing, disk);
            LegacyValid(r) && r.root == w.root && r.view.nextId >= w.view.nextId
  {
    var subdirs := Directories(listing.entries);
    if RootOk(w, disk) && !listing.raises && |subdirs| > 0 {
      var sorted := SortBy(subdirs, SubdirKey(false));
      var v1 := Cleared(w.view);
      LegacyCarryAllShape(v1, sorted, CheckedNames(w.view.items), ByName(w.view.cache), disk);
      var v2 := LegacyCarryAll(v1, sorted, CheckedNames(w.view.items), ByName(w.view.cache), disk);
      DispatchValid(v2, Uncached(v2.cache, Paths(v2.items)), disk, true);
      DispatchIds(v2, Uncached(v2.cache, Paths(v2.items)), disk);
    }
  }

  lemma StepValid(w: LegacyWindow, a: LegacyAction, disk: Disk)
    requires LegacyValid(w)
    ensures LegacyValid(Step(w, a, disk))
  {
    match a
    case Chosen(chosen, rootListing) =>
      if chosen.Some? {
        ReloadValid(w.(root := chosen, view := w.view.(items := [])), rootListing, disk);
      }
    case Reloaded(listing) => ReloadValid(w, listing, disk);
    case Asked(folder) => RequestOutcome(w.view, folder, disk, true);
    case PreviewFinished(kind, id) =>
      if kind == FindPreview {
        FinishedOutcome(w.view, id, disk, true);
      }
    case Shown(folder, image) => ThumbnailOutcome(w.view, folder, image);
    case Ended(kind, success, afterListing) =>
      if kind == MergeSubs {
        ReloadValid(w, afterListing, disk);
      }
  }

  /** However the slots fire, the older window's pool stays within two workers with distinct ids. */
  lemma {:induction false} StepsValid(w: LegacyWindow, actions: seq<LegacyAction>, disk: Disk)
    requires LegacyValid(w)
    ensures LegacyValid(Steps(w, actions, disk))
    decreases |actions|
  {
    if |actions| > 0 {
      StepValid(w, actions[0], disk);
      StepsValid(Step(w, actions[0], disk), actions[1..], disk);
    }
  }

  /**
   * Choosing a root forgets every check: the list is cleared before the
   * refresh remembers the checked names. The cache is kept, so a folder of
   * the new root named like a folder seen before gets that folder's image.
   */
  lemma ChooseForgetsChecks(w: LegacyWindow, folder: Path, listing: Listing, disk: Disk)
    requires LegacyValid(w)
    ensures var r := Choose(w, Some(folder), listing, disk);
            r.root == Some(folder)
            && (forall i :: 0 <= i < |r.view.items| ==> !r.view.items[i].checked)
            && (disk.isDir(folder) && !listing.raises ==>
                  Paths(r.view.items) == SortBy(Directories(listing.entries), SubdirKey(false)))
  {
    var w1 := w.(root := Some(folder), view := w.view.(items := []));
    var r := Choose(w, Some(folder), listing, disk);
    if RootOk(w1, disk) && !listing.raises && |Directories(listing.entries)| > 0 {
      LegacyRows(w1.view, true, listing, disk);
    } else if disk.isDir(folder) && !listing.raises {
      assert r.view.items == [];
      assert |SortBy(Directories(listing.entries), SubdirKey(false))| == 0 by {
        SortBySpec(Directories(listing.entries), SubdirKey(false));
      }
    }
  }

  /** Every merge, also a failed one, ends in a full rebuild of the list. */
  lemma DoneAfterMergeReloads(w: LegacyWindow, success: bool, listing: Listing, disk: Disk)
    requires LegacyValid(w) && RootOk(w, disk) && !listing.raises && |Directories(listing.entries)| > 0
    ensures var r := Done(w, MergeSubs, success, listing, disk);
            LegacyValid(r) && r.root == w.root && r.view.nextId >= w.view.nextId
            && Paths(r.view.items) == SortBy(Directories(listing.entries), SubdirKey(false))
  {
    ReloadValid(w, listing, disk);
    LegacyRows(w.view, true, listing, disk);
  }

  /** Dispatching never hands out an id already used. */
  lemma DispatchIds(v: View, need: seq<Path>, disk: Disk)
    ensures Dispatch(v, need, disk, true).nextId >= v.nextId
  {
    RequestAllIds(v, need[..Min(PoolSize, |need|)], disk);
  }

  lemma {:induction false} RequestAllIds(v: View, ps: seq<Path>, disk: Disk)
    ensures RequestAll(v, ps, disk, true).nextId >= v.nextId
    decreases |ps|
  {
    if |ps| > 0 {
      RequestAllIds(Request(v, ps[0], disk, true), ps[1..], disk);
    }
  }

  /**
   * The older `request_folder_preview` does not look for a running worker:
   * asking again for a folder whose worker runs, with a free slot, replaces
   * its entry, so the first worker's `finished` finds no entry to drop.
   */
  lemma DuplicateRequestOrphans(v: View, p: Path, disk: Disk)
    requires Valid(v) && p in v.tasks && |v.tasks| < PoolSize
    requires disk.isDir(p) && !CachedUsable(v, p, disk)
    ensures var r := Request(v, p, disk, true);
            var old_id := v.tasks[p];
            |r.tasks| == |v.tasks| && r.tasks[p] == v.nextId
            && (forall k :: k in r.tasks ==> r.tasks[k] != old_id)
            && Release(r.tasks, old_id) == r.tasks
  {
    var r := Request(v, p, disk, true);
    assert r.tasks.Keys == v.tasks.Keys;
    var old_id := v.tasks[p];
    forall k | k in r.tasks ensures r.tasks[k] != old_id {
      if k != p {
        assert r.tasks[k] == v.tasks[k];
      }
    }
  }

  // ---------------------------------------------------------------- loops

  /** The loop collecting `folders_needing_thumbnails`: listed folders with no cache entry, in list order. */
  method Unpreviewed(items: seq<Item>, cache: seq<Thumb>) returns (need: seq<Path>)
    ensures need == Uncached(cache, Paths(items))
  {
    ghost var ps := Paths(items);
    need := [];
    for i := 0 to |items|
      invariant need + Uncached(cache, ps[i..]) == Uncached(cache, ps)
    {
      assert ps[i..][1..] == ps[i + 1..];
      assert ps[i..][0] == items[i].path;
      var step := if Lookup(cache, items[i].path).None? then [items[i].path] else [];
      assert need + Uncached(cache, ps[i..]) == (need + step) + Uncached(cache, ps[i + 1..]);
      need := need + step;
    }
    assert ps[|items|..] == [];
  }

  // ---------------------------------------------------------------- the window object

  class LegacyFolderList {
    const disk: Disk
    var root: Option<Path>
    var items: seq<Item>
    var cache: seq<Thumb>
    var tasks: map<Path, nat>
    var waiting: seq<Path>
    var nextId: nat

    function ViewOf(): View
      reads this
    {
      View(items, cache, tasks, waiting, nextId)
    }

    function State(): LegacyWindow
      reads this
    {
      LegacyWindow(ViewOf(), root)
    }

    predicate Valid()
      reads this
    {
      LegacyValid(State())
    }

    constructor (disk: Disk)
      ensures this.disk == disk && State() == LegacyInitial() && Valid()
    {
      this.disk := disk;
      root := None;
      items := [];
      cache := [];
      tasks := map[];
      waiting := [];
      nextId := 0;
    }

    method SelectRootFolder(folder: Option<Path>, listing: Listing)
      modifies this
      requires Valid()
      ensures Valid() && State() == Choose(old(State()), folder, listing, disk)
    {
      if folder.Some? {
        root := folder;
        items := [];
        PopulateSubfolderList(listing);
      }
    }

    method PopulateSubfolderList(listing: Listing)
      modifies this
      requires Valid()
      ensures Valid() && State() == Reload(old(State()), listing, disk)
    {
      ghost var w0 := State();
      ReloadValid(w0, listing, disk);
      var names := RememberChecked(items);
      var byName := ThumbsByName(cache);
      items := [];
      tasks := map[];
      waiting := [];
      if root.None? || !disk.isDir(root.value) {
        return;
      }
      var subdirs := Directories(listing.entries);
      if listing.raises || |subdirs| == 0 {
        return;
      }
      var sorted := SortBy(subdirs, SubdirKey(false));
      AddRows(sorted, names, byName);
      var need := Unpreviewed(items, cache);
      var k := Min(PoolSize, |need|);
      StartFirst(need[..k]);
      QueueRest(need[k..]);
    }

    /** The row loop: each folder's row, checked when its name was, and its image carried by name when usable. */
    method AddRows(sorted: seq<Path>, names: set<string>, byName: map<string, Path>)
      modifies this
      requires Valid()
      ensures Valid()
      ensures ViewOf() == LegacyCarryAll(old(ViewOf()), sorted, names, byName, disk)
      ensures root == old(root)
    {
      ghost var v0 := ViewOf();
      ghost var goal := LegacyCarryAll(v0, sorted, names, byName, disk);
      for i := 0 to |sorted|
        invariant Valid() && root == old(root)
        invariant LegacyCarryAll(ViewOf(), sorted[i..], names, byName, disk) == goal
      {
        assert sorted[i..][1..] == sorted[i + 1..];
        var p := sorted[i];
        var n := NameOf(p);
        items := items + [Item(n, p, n in names)];
        if Hit(p, byName, disk) {
          PutUnique(cache, p, byName[n]);
          PutTwice(cache, p, byName[n]);
          cache := Put(cache, p, byName[n]);
          SetFolderThumbnail(p, byName[n]);
        }
      }
    }

    /** The `range(min(2, ...))` loop. */
    method StartFirst(ps: seq<Path>)
      modifies this
      requires Valid()
      ensures Valid() && State() == old(State()).(view := RequestAll(old(ViewOf()), ps, disk, true))
    {
      ghost var w0 := State();
      for i := 0 to |ps|
        invariant Valid()
        invariant w0.(view := RequestAll(ViewOf(), ps[i..], disk, true)) == w0.(view := RequestAll(w0.view, ps, disk, true))
        invariant State() == w0.(view := ViewOf())
      {
        assert ps[i..][1..] == ps[i + 1..];
        RequestFolderPreview(ps[i]);
      }
    }

    /** The `range(2, ...)` loop. */
    method QueueRest(ps: seq<Path>)
      modifies this
      requires Valid()
      ensures Valid() && State() == old(State()).(view := Enqueue(old(ViewOf()), ps))
    {
      ghost var w0 := State();
      for i := 0 to |ps|
        invariant Valid() && State() == w0.(view := Enqueue(w0.view, ps[..i]))
      {
        assert ps[..i + 1] == ps[..i] + [ps[i]];
        waiting := waiting + [ps[i]];
      }
      assert ps[..|ps|] == ps;
    }

    method SetFolderThumbnail(folder: Path, image: Path)
      modifies this
      requires Valid()
      ensures Valid() && State() == old(State()).(view := Thumbnail(old(ViewOf()), folder, image))
    {
      ThumbnailOutcome(ViewOf(), folder, image);
      cache := Put(cache, folder, image);
    }

    method RequestFolderPreview(folder: Path)
      modifies this
      requires Valid()
      ensures Valid() && State() == old(State()).(view := Request(old(ViewOf()), folder, disk, true))
    {
      RequestOutcome(ViewOf(), folder, disk, true);
      if !disk.isDir(folder) {
        return;
      }
      var cached := Lookup(cache, folder);
      if cached.Some? && disk.present(cached.value) && disk.readable(cached.value) {
        SetFolderThumbnail(folder, cached.value);
        return;
      }
      if |tasks| >= PoolSize {
        waiting := waiting + [folder];
        return;
      }
      tasks := tasks[folder := nextId];
      nextId := nextId + 1;
    }

    method FolderPreviewTaskFinished(kind: TaskKind, id: nat)
      modifies this
      requires Valid()
      ensures Valid() && State() == old(State()).(view := Catalog.Finished(old(ViewOf()), kind, id, disk, true))
    {
      if kind != FindPreview {
        return;
      }
      ReleaseValid(ViewOf(), id);
      tasks := Release(tasks, id);
      if |waiting| > 0 {
        var next := waiting[0];
        waiting := waiting[1..];
        RequestFolderPreview(next);
      }
    }

    /** The list work of `task_finished`, given what listing the root yields afterwards. */
    method TaskFinished(kind: TaskKind, success: bool, listing: Listing)
      modifies this
      requires Valid()
      ensures Valid() && State() == Done(old(State()), kind, success, listing, disk)
    {
      if kind == MergeSubs {
        PopulateSubfolderList(listing);
      }
    }
  }
}
