/**
 * The newer main window (`src/MergePicFolders/window.py`) as far as its
 * state goes: the root folder, the sort mode, the rows of the folder list,
 * the preview cache, the preview pool and queue, the checked names a refresh
 * remembers, and the sources and target of the merge in flight. Widgets,
 * dialogs and threads are not part of it; a dialog's answer is an argument.
 */
module WindowModel {
  import opened Wrappers
  import opened FsModel
  import opened NaturalSort
  import opened Events
  import opened Catalog
  import opened Refresh
  import opened MergeList
  import opened ListSteps

  /** The window's state. `names` is `_checked_folder_names_cache`. */
  datatype Window = Window(
    view: View,
    root: Option<Path>,
    natural: bool,
    names: set<string>,
    lastSources: seq<Path>,
    lastTarget: Option<Path>)

  /** The state `__init__` sets up: nothing listed, natural sort on. */
  function Initial(): Window {
    Window(View([], [], map[], [], 0), None, true, {}, [], None)
  }

  /** What the window keeps true: a valid pool, and a remembered merge target that is not one of its sources. */
  predicate WindowValid(w: Window) {
    Valid(w.view) && (w.lastTarget.Some? ==> w.lastTarget.value !in w.lastSources)
  }

  // ---------------------------------------------------------------- the slots

  /** `populate_subfolder_list` up to starting the listing worker: remember the checked names, clear the list, pool and queue. */
  function Populate(w: Window, disk: Disk): Window {
    if w.root.None? || !disk.isDir(w.root.value) then w
    else w.(names := CheckedNames(w.view.items), view := Cleared(w.view))
  }

  /** `select_root_folder`, given the folder the dialog returns (none when it is cancelled). */
  function SelectRoot(w: Window, folder: Option<Path>, disk: Disk): Window {
    if folder.None? then w
    else
      var blank := w.view.(items := [], cache := [], tasks := map[], waiting := []);
      Populate(w.(root := folder, names := {}, view := blank), disk)
  }

  /** `_handle_subfolders_found`. */
  function Found(w: Window, subdirs: seq<Path>, disk: Disk): Window {
    w.(view := HandleFound(w.view, w.names, subdirs, w.natural, disk))
  }

  /** `sort_subfolder_list`. */
  function Resort(w: Window): Window {
    w.(view := w.view.(items := SortList(w.view.items, w.natural)))
  }

  /** `toggle_folder_sort`, given the state of the toggle button. */
  function SortMode(w: Window, natural: bool): Window {
    Resort(w.(natural := natural))
  }

  /** `uncheck_all_subfolders`. */
  function Uncheck(w: Window): Window {
    w.(view := w.view.(items := Unchecked(w.view.items)), names := {})
  }

  /**
   * `task_finished` as far as the list goes: after a merge, patch the list
   * when it succeeded and the sources and target are known, refresh it fully
   * when they are not, leave it when the merge failed; then forget them.
   */
  function TaskDone(w: Window, kind: TaskKind, success: bool, disk: Disk): Window {
    if kind != MergeSubs then w
    else
      var w1 :=
        if success && w.lastTarget.Some? && |w.lastSources| > 0
        then w.(view := AfterMerge(w.view, w.root, w.lastSources, w.lastTarget.value, w.natural, disk))
        else if !success then w
        else Populate(w, disk);
      w1.(lastSources := [], lastTarget := None)
  }

  /** `confirm_and_start_merge_to_new`: a started merge is remembered for `task_finished`. */
  function Confirm(w: Window, disk: Disk, confirmed: bool, mkdirOk: bool): Window {
    var plan := Plan(w.root, w.view.items, disk, confirmed, mkdirOk);
    if plan.Start? then w.(lastSources := plan.sources, lastTarget := Some(plan.target)) else w
  }

  /** Everything that can happen to the window. */
  datatype Action =
    | ChooseRoot(chosen: Option<Path>)
    | Repopulate
    | Listed(subdirs: seq<Path>)
    | Requested(folder: Path)
    | PreviewDone(kind: TaskKind, id: nat)
    | ThumbnailShown(folder: Path, image: Path)
    | Resorted
    | SortToggled(natural: bool)
    | TaskEnded(kind: TaskKind, success: bool)
    | MergeConfirmed(confirmed: bool, mkdirOk: bool)
    | AllUnchecked

  function Apply(w: Window, a: Action, disk: Disk): Window {
    match a
    case ChooseRoot(chosen) => SelectRoot(w, chosen, disk)
    case Repopulate => Populate(w, disk)
    case Listed(subdirs) => Found(w, subdirs, disk)
    case Requested(folder) => w.(view := Request(w.view, folder, disk, false))
    case PreviewDone(kind, id) => w.(view := Catalog.Finished(w.view, kind, id, disk, false))
    case ThumbnailShown(folder, image) => w.(view := Thumbnail(w.view, folder, image))
    case Resorted => Resort(w)
    case SortToggled(natural) => SortMode(w, natural)
    case TaskEnded(kind, success) => TaskDone(w, kind, success, disk)
    case MergeConfirmed(confirmed, mkdirOk) => Confirm(w, disk, confirmed, mkdirOk)
    case AllUnchecked => Uncheck(w)
  }

  function ApplyAll(w: Window, actions: seq<Action>, disk: Disk): Window
    decreases |actions|
  {
    if |actions| == 0 then w else ApplyAll(Apply(w, actions[0], disk), actions[1..], disk)
  }

  // ---------------------------------------------------------------- what the window keeps

  lemma InitialValid()
    ensures WindowValid(Initial())
  {
  }

  /** A listing report keeps the pool valid, whatever state it meets. */
  lemma FoundValid(w: Window, subdirs: seq<Path>, disk: Disk)
    requires Valid(w.view)
    ensures Valid(Found(w, subdirs, disk).view)
  {
    if |subdirs| > 0 {
      var sorted := SortBy(subdirs, SubdirKey(w.natural));
      var byName := ByName(w.view.cache);
      CarryAllShape(w.view, sorted, w.names, byName, disk, []);
      CarryAllUnique(w.view, sorted, w.names, byName, disk, []);
      var c := CarryAll(w.view, sorted, w.names, byName, disk, []);
      DispatchValid(c.0, c.1, disk, false);
    }
  }

  /** Every slot keeps the window valid. */
  lemma ApplyValid(w: Window, a: Action, disk: Disk)
    requires WindowValid(w)
    ensures WindowValid(Apply(w, a, disk))
  {
    match a
    case Listed(subdirs) => FoundValid(w, subdirs, disk);
    case Requested(folder) => RequestOutcome(w.view, folder, disk, false);
    case PreviewDone(kind, id) =>
      if kind == FindPreview {
        FinishedOutcome(w.view, id, disk, false);
      }
    case ThumbnailShown(folder, image) => ThumbnailOutcome(w.view, folder, image);
    case TaskEnded(kind, success) => TaskDoneValid(w, kind, success, disk);
    case MergeConfirmed(confirmed, mkdirOk) => ConfirmValid(w, disk, confirmed, mkdirOk);
    case ChooseRoot(chosen) => SelectRootValid(w, chosen, disk);
    case Repopulate => PopulateValid(w, disk);
    case Resorted => assert Apply(w, a, disk).view.(items := w.view.items) == w.view;
    case SortToggled(natural) => assert Apply(w, a, disk).view.(items := w.view.items) == w.view;
    case AllUnchecked => assert Apply(w, a, disk).view.(items := w.view.items) == w.view;
  }

  lemma PopulateValid(w: Window, disk: Disk)
    requires WindowValid(w)
    ensures WindowValid(Populate(w, disk))
  {
  }

  lemma SelectRootValid(w: Window, folder: Option<Path>, disk: Disk)
    requires WindowValid(w)
    ensures WindowValid(SelectRoot(w, folder, disk))
  {
    if folder.Some? {
      var blank := w.view.(items := [], cache := [], tasks := map[], waiting := []);
      PopulateValid(w.(root := folder, names := {}, view := blank), disk);
    }
  }

  lemma TaskDoneValid(w: Window, kind: TaskKind, success: bool, disk: Disk)
    requires WindowValid(w)
    ensures WindowValid(TaskDone(w, kind, success, disk))
  {
    if kind == MergeSubs && success && w.lastTarget.Some? && |w.lastSources| > 0 {
      AfterMergePool(w.view, w.root, w.lastSources, w.lastTarget.value, w.natural, disk);
    }
  }

  lemma ConfirmValid(w: Window, disk: Disk, confirmed: bool, mkdirOk: bool)
    requires WindowValid(w)
    ensures WindowValid(Confirm(w, disk, confirmed, mkdirOk))
  {
    if Plan(w.root, w.view.items, disk, confirmed, mkdirOk).Start? {
      PlanTarget(w.root, w.view.items, disk, confirmed, mkdirOk);
    }
  }

  /** However the slots fire, the window stays valid: at most two preview workers, distinct ids, a proper cache. */
  lemma {:induction false} ApplyAllValid(w: Window, actions: seq<Action>, disk: Disk)
    requires WindowValid(w)
    ensures WindowValid(ApplyAll(w, actions, disk))
    decreases |actions|
  {
    if |actions| > 0 {
      ApplyValid(w, actions[0], disk);
      ApplyAllValid(Apply(w, actions[0], disk), actions[1..], disk);
    }
  }

  /**
   * A merge that is confirmed and then reported successful leaves no row for
   * a source, a row for the target (unchecked, since a checked target would
   * have been a source), and nothing remembered.
   */
  lemma ConfirmThenFinish(w: Window, disk: Disk)
    requires WindowValid(w)
    requires Plan(w.root, w.view.items, disk, true, true).Start?
    ensures var plan := Plan(w.root, w.view.items, disk, true, true);
            var w2 := TaskDone(Confirm(w, disk, true, true), MergeSubs, true, disk);
            var rows := w2.view.items;
            (forall i :: 0 <= i < |rows| ==> rows[i].path !in plan.sources)
            && (exists i :: 0 <= i < |rows| && rows[i].path == plan.target)
            && (forall i :: 0 <= i < |rows| && rows[i].path == plan.target ==> !rows[i].checked)
            && w2.lastSources == [] && w2.lastTarget == None
  {
    var plan := Plan(w.root, w.view.items, disk, true, true);
    PlanTarget(w.root, w.view.items, disk, true, true);
    var w2 := TaskDone(Confirm(w, disk, true, true), MergeSubs, true, disk);
    assert w2.view == AfterMerge(w.view, w.root, plan.sources, plan.target, w.natural, disk);
    AfterMergeRows(w.view, w.root, plan.sources, plan.target, w.natural, disk);
    var rows := w2.view.items;
    forall i | 0 <= i < |rows| && rows[i].path == plan.target ensures !rows[i].checked {
      if rows[i].checked {
        var j :| 0 <= j < |w.view.items| && w.view.items[j].path == rows[i].path && w.view.items[j].checked;
        CheckedInSources(w.view.items, j);
      }
    }
  }

  /** A checked row's folder is among the checked folders. */
  lemma CheckedInSources(items: seq<Item>, j: nat)
    requires j < |items| && items[j].checked
    ensures items[j].path in Paths(Checked(items))
  {
    CheckedMeans(items);
    assert items[j] in Checked(items);
    var k :| 0 <= k < |Checked(items)| && Checked(items)[k] == items[j];
    assert Paths(Checked(items))[k] == items[j].path;
  }

  // ---------------------------------------------------------------- the window object

  class FolderList {
    const disk: Disk
    var root: Option<Path>
    var natural: bool
    var items: seq<Item>
    var cache: seq<Thumb>
    var tasks: map<Path, nat>
    var waiting: seq<Path>
    var nextId: nat
    var names: set<string>
    var lastSources: seq<Path>
    var lastTarget: Option<Path>

    function ViewOf(): View
      reads this
    {
      View(items, cache, tasks, waiting, nextId)
    }

    function State(): Window
      reads this
    {
      Window(ViewOf(), root, natural, names, lastSources, lastTarget)
    }

    predicate Valid()
      reads this
    {
      WindowValid(State())
    }

    constructor (disk: Disk)
      ensures this.disk == disk && State() == Initial() && Valid()
    {
      this.disk := disk;
      root := None;
      natural := true;
      items := [];
      cache := [];
      tasks := map[];
      waiting := [];
      nextId := 0;
      names := {};
      lastSources := [];
      lastTarget := None;
    }

    method SelectRootFolder(folder: Option<Path>)
      modifies this
      requires Valid()
      ensures Valid() && State() == SelectRoot(old(State()), folder, disk)
    {
      if folder.Some? {
        root := folder;
        items := [];
        cache := [];
        tasks := map[];
        waiting := [];
        names := {};
        assert State() == old(State()).(root := folder, names := {}, view := old(ViewOf()).(items := [], cache := [], tasks := map[], waiting := []));
        PopulateSubfolderList();
      }
    }

    method PopulateSubfolderList()
      modifies this
      requires Valid()
      ensures Valid() && State() == Populate(old(State()), disk)
    {
      if root.None? || !disk.isDir(root.value) {
        return;
      }
      names := RememberChecked(items);
      items := [];
      tasks := map[];
      waiting := [];
    }

    method SetFolderThumbnail(folder: Path, image: Path)
      modifies this
      requires Valid()
      ensures Valid() && State() == old(State()).(view := Thumbnail(old(ViewOf()), folder, image))
    {
      ThumbnailOutcome(ViewOf(), folder, image);
      cache := Put(cache, folder, image);
    }

    method RequestFolderPreview(folder: Path)
      modifies this
      requires Valid()
      ensures Valid() && State() == old(State()).(view := Request(old(ViewOf()), folder, disk, false))
    {
      if !disk.isDir(folder) {
        return;
      }
      var cached := Lookup(cache, folder);
      if cached.Some? && disk.present(cached.value) && disk.readable(cached.value) {
        SetFolderThumbnail(folder, cached.value);
        return;
      }
      StartOrQueue(folder);
    }

    /** The part of `request_folder_preview` past the cache: skip a running folder, queue at two workers, else start one. */
    method StartOrQueue(folder: Path)
      modifies this
      requires Valid() && disk.isDir(folder) && !CachedUsable(ViewOf(), folder, disk)
      ensures Valid() && State() == old(State()).(view := Request(old(ViewOf()), folder, disk, false))
    {
      if folder in tasks {
        return;
      }
      if |tasks| >= PoolSize {
        QueueFolder(folder);
      } else {
        StartWorker(folder);
      }
    }

    /** Two workers are running: the folder joins the queue. */
    method QueueFolder(folder: Path)
      modifies this
      requires Valid() && Queues(ViewOf(), folder, disk, false)
      ensures Valid() && State() == old(State()).(view := Request(old(ViewOf()), folder, disk, false))
    {
      waiting := waiting + [folder];
    }

    /** Fewer than two workers: one starts for the folder under the next id. */
    method StartWorker(folder: Path)
      modifies this
      requires Valid() && Starts(ViewOf(), folder, disk, false)
      ensures Valid() && State() == old(State()).(view := Request(old(ViewOf()), folder, disk, false))
    {
      StartValid(ViewOf(), folder);
      tasks := tasks[folder := nextId];
      nextId := nextId + 1;
    }

    method FolderPreviewTaskFinished(kind: TaskKind, id: nat)
      modifies this
      requires Valid()
      ensures Valid() && State() == old(State()).(view := Catalog.Finished(old(ViewOf()), kind, id, disk, false))
    {
      if kind != FindPreview {
        return;
      }
      ReleaseValid(ViewOf(), id);
      tasks := Release(tasks, id);
      if |waiting| > 0 {
        var next := waiting[0];
        waiting := waiting[1..];
        RequestFolderPreview(next);
      }
    }

    method HandleSubfoldersFound(subdirs: seq<Path>)
      modifies this
      requires Valid()
      ensures Valid() && State() == Found(old(State()), subdirs, disk)
    {
      var byName := ThumbsByName(cache);
      if |subdirs| == 0 {
        return;
      }
      var sorted := SortBy(subdirs, SubdirKey(natural));
      var need := AddRows(sorted, byName);
      var k := Min(PoolSize, |need|);
      StartFirst(need[..k]);
      QueueRest(need[k..]);
    }

    /** The `range(2, ...)` loop: the remaining folders join the queue in order. */
    method QueueRest(ps: seq<Path>)
      modifies this
      requires Valid()
      ensures Valid() && State() == old(State()).(view := Enqueue(old(ViewOf()), ps))
    {
      ghost var w0 := State();
      for i := 0 to |ps|
        invariant Valid() && State() == w0.(view := Enqueue(w0.view, ps[..i]))
      {
        assert ps[..i + 1] == ps[..i] + [ps[i]];
        waiting := waiting + [ps[i]];
      }
      assert ps[..|ps|] == ps;
    }

    /** The row loop of `_handle_subfolders_found`, returning the folders needing a preview. */
    method AddRows(sorted: seq<Path>, byName: map<string, Path>) returns (need: seq<Path>)
      modifies this
      requires Valid()
      ensures Valid()
      ensures (ViewOf(), need) == CarryAll(old(ViewOf()), sorted, names, byName, disk, [])
      ensures State() == old(State()).(view := ViewOf())
    {
      need := [];
      ghost var w0 := State();
      ghost var goal := CarryAll(w0.view, sorted, names, byName, disk, []);
      for i := 0 to |sorted|
        invariant Valid() && State() == w0.(view := ViewOf())
        invariant CarryAll(ViewOf(), sorted[i..], names, byName, disk, need) == goal
      {
        assert sorted[i..][1..] == sorted[i + 1..];
        need := AddRow(sorted[i], byName, need);
      }
    }

    /** One turn of the row loop: the row, then the cached image reused, or the folder marked as needing one. */
    method AddRow(p: Path, byName: map<string, Path>, need0: seq<Path>) returns (need: seq<Path>)
      modifies this
      requires Valid()
      ensures Valid()
      ensures (ViewOf(), need) == Carry(old(ViewOf()), p, names, byName, disk, need0)
      ensures State() == old(State()).(view := ViewOf())
    {
      CarryStep(ViewOf(), p, names, byName, disk, need0);
      var n := NameOf(p);
      items := items + [Item(n, p, n in names)];
      need := need0;
      if Hit(p, byName, disk) {
        cache := Put(cache, p, byName[n]);
        PutTwice(old(cache), p, byName[n]);
        SetFolderThumbnail(p, byName[n]);
      } else {
        need := need + [p];
        if n in byName {
          cache := Del(cache, p);
        }
      }
    }

    /** The `range(min(2, ...))` loop: request a preview for each folder in turn. */
    method StartFirst(ps: seq<Path>)
      modifies this
      requires Valid()
      ensures Valid() && State() == old(State()).(view := RequestAll(old(ViewOf()), ps, disk, false))
    {
      ghost var w0 := State();
      for i := 0 to |ps|
        invariant Valid()
        invariant w0.(view := RequestAll(ViewOf(), ps[i..], disk, false)) == w0.(view := RequestAll(w0.view, ps, disk, false))
        invariant State() == w0.(view := ViewOf())
      {
        assert ps[i..][1..] == ps[i + 1..];
        RequestFolderPreview(ps[i]);
      }
    }

    method SortSubfolderList()
      modifies this
      requires Valid()
      ensures Valid() && State() == Resort(old(State()))
    {
      var m := CheckedMap(items);
      var sorted := SortBy(items, ResortKey(natural));
      items := Restored(sorted, m);
    }

    method ToggleFolderSort(on: bool)
      modifies this
      requires Valid()
      ensures Valid() && State() == SortMode(old(State()), on)
    {
      natural := on;
      SortSubfolderList();
    }

    method UncheckAllSubfolders()
      modifies this
      requires Valid()
      ensures Valid() && State() == Uncheck(old(State()))
    {
      ghost var w0 := State();
      ghost var rows := items;
      for i := 0 to |items|
        invariant |items| == |rows|
        invariant forall j :: 0 <= j < |rows| ==> items[j] == if j < i then rows[j].(checked := false) else rows[j]
        invariant State() == w0.(view := w0.view.(items := items))
      {
        if items[i].checked {
          items := items[i := items[i].(checked := false)];
        }
      }
      assert items == Unchecked(rows);
      names := {};
    }

    /** The list work of `task_finished`. */
    method TaskFinished(kind: TaskKind, success: bool)
      modifies this
      requires Valid()
      ensures Valid() && State() == TaskDone(old(State()), kind, success, disk)
    {
      if kind != MergeSubs {
        return;
      }
      if success && lastTarget.Some? && |lastSources| > 0 {
        MergeSucceeded();
      } else if success {
        PopulateSubfolderList();
      }
      lastSources := [];
      lastTarget := None;
    }

    /** The success branch: take out the source rows, add the target's row under the root, re-sort. */
    method MergeSucceeded()
      modifies this
      requires Valid() && lastTarget.Some?
      ensures Valid()
      ensures State() == old(State()).(view := AfterMerge(old(ViewOf()), old(root), old(lastSources), old(lastTarget).value, old(natural), disk))
    {
      var target := lastTarget.value;
      ghost var v0 := ViewOf();
      PatchRows(lastSources, target);
      AfterMergeSorted(v0, root, lastSources, target, natural, disk);
      SortSubfolderList();
    }

    /** The list just before the re-sort: the source rows gone, the target's row added when it sits under the root. */
    method PatchRows(sources: seq<Path>, target: Path)
      modifies this
      requires Valid()
      ensures Valid() && State() == old(State()).(view := Patched(old(ViewOf()), root, sources, target, disk))
    {
      DropSources(sources);
      if root == Some(ParentOf(target)) {
        items := items + [Item(NameOf(target), target, false)];
        RequestFolderPreview(target);
      }
    }

    /** Taking the source rows out of the list, with their cache entries and workers. */
    method DropSources(sources: seq<Path>)
      modifies this
      requires Valid()
      ensures Valid() && State() == old(State()).(view := DropAll(old(ViewOf()).(items := []), old(items), sources))
    {
      ghost var w0 := State();
      var rows := items;
      items := [];
      ghost var goal := DropAll(ViewOf(), rows, sources);
      for i := 0 to |rows|
        invariant Valid() && State() == w0.(view := ViewOf())
        invariant DropAll(ViewOf(), rows[i..], sources) == goal
      {
        DropStepValid(ViewOf(), rows[i], sources);
        assert rows[i..][1..] == rows[i + 1..];
        if rows[i].path in sources {
          cache := Del(cache, rows[i].path);
          tasks := tasks - {rows[i].path};
        } else {
          items := items + [rows[i]];
        }
      }
    }

    method ConfirmAndStartMergeToNew(confirmed: bool, mkdirOk: bool) returns (plan: MergePlan)
      modifies this
      requires Valid()
      ensures plan == Plan(old(root), old(items), disk, confirmed, mkdirOk)
      ensures Valid() && State() == Confirm(old(State()), disk, confirmed, mkdirOk)
    {
      plan := DecideMerge(root, items, disk, confirmed, mkdirOk);
      if plan.Start? {
        PlanTarget(root, items, disk, confirmed, mkdirOk);
        lastSources := plan.sources;
        lastTarget := Some(plan.target);
      }
    }
  }
}
