/**
 * What both windows do around a merge: choose the target folder from the
 * checked rows (`confirm_and_start_merge_to_new`), and, in the newer window,
 * patch the list once the merge has finished (`task_finished` for
 * `merge_subs`, `sort_subfolder_list`, `uncheck_all_subfolders`).
 */
module MergeList {
  import opened Wrappers
  import opened Names
  import opened FsModel
  import opened NaturalSort
  import opened Catalog
  import opened Refresh

  // ---------------------------------------------------------------- target name

  /** The target folder's name: `first1` when `first` already carries `_merged` (in any case), else `first_merged`. */
  function TargetName(first: string): (t: string)
    ensures |t| > |first| && t[..|first|] == first
  {
    if Contains(Lower(first), "_merged") then first + "1" else first + "_merged"
  }

  lemma LowerAppend(a: string, b: string)
    ensures Lower(a + b) == Lower(a) + Lower(b)
  {
    assert forall i :: 0 <= i < |a + b| ==> Lower(a + b)[i] == (Lower(a) + Lower(b))[i];
  }

  lemma {:induction false} ContainsEnd(s: string, sub: string)
    ensures Contains(s + sub, sub)
    decreases |s|
  {
    if |s| == 0 {
      assert s + sub == sub;
    } else {
      assert (s + sub)[1..] == s[1..] + sub;
      ContainsEnd(s[1..], sub);
    }
  }

  /** Whichever branch is taken, the target's lower-cased name carries `_merged`. */
  lemma TargetNameMarked(first: string)
    ensures Contains(Lower(TargetName(first)), "_merged")
  {
    if Contains(Lower(first), "_merged") {
      LowerAppend(first, "1");
      ContainsAppend(Lower(first), Lower("1"), "_merged");
    } else {
      LowerAppend(first, "_merged");
      assert Lower("_merged") == "_merged";
      ContainsEnd(Lower(first), "_merged");
    }
  }

  /** Merging into a target and then picking that target as the first source gives the same name with a `1` appended. */
  lemma TargetNameAgain(first: string)
    ensures TargetName(TargetName(first)) == TargetName(first) + "1"
  {
    TargetNameMarked(first);
  }

  // ---------------------------------------------------------------- merge plan

  /** How `confirm_and_start_merge_to_new` ends: one of its early returns, or the merge it starts. */
  datatype MergePlan =
    | NoRoot
    | InvalidSource(name: string)
    | NoSources
    | Conflict(target: Path)
    | Declined
    | MkdirFailed(target: Path)
    | Start(sources: seq<Path>, target: Path)

  /** The text of the first checked row whose folder is not a directory. */
  function FirstInvalid(checked: seq<Item>, disk: Disk): Option<string> {
    if |checked| == 0 then None
    else if !disk.isDir(checked[0].path) then Some(checked[0].name)
    else FirstInvalid(checked[1..], disk)
  }

  lemma {:induction false} FirstInvalidMeans(checked: seq<Item>, disk: Disk)
    ensures var r := FirstInvalid(checked, disk);
            (r.None? <==> forall i :: 0 <= i < |checked| ==> disk.isDir(checked[i].path))
            && (r.Some? ==> exists i :: 0 <= i < |checked| && !disk.isDir(checked[i].path) && checked[i].name == r.value)
  {
    if |checked| > 0 && disk.isDir(checked[0].path) {
      FirstInvalidMeans(checked[1..], disk);
      var r := FirstInvalid(checked, disk);
      if r.Some? {
        var i :| 0 <= i < |checked[1..]| && !disk.isDir(checked[1..][i].path) && checked[1..][i].name == r.value;
        assert checked[i + 1] == checked[1..][i];
      }
      forall i | 1 <= i < |checked| ensures checked[i] == checked[1..][i - 1] { }
    }
  }

  function FolderNames(ps: seq<Path>): (r: seq<string>)
    ensures |r| == |ps| && forall i :: 0 <= i < |ps| ==> r[i] == NameOf(ps[i])
  {
    seq(|ps|, i requires 0 <= i < |ps| => NameOf(ps[i]))
  }

  /** The least of the names: what `source_names.sort()` puts first (see `FirstNameSorted`). */
  function FirstName(names: seq<string>): string
    decreases |names|
  {
    if |names| == 0 then ""
    else if |names| == 1 then names[0]
    else
      var rest := FirstName(names[1..]);
      if StrLess(names[0], rest) then names[0] else rest
  }

  lemma {:induction false} FirstNameLeast(names: seq<string>)
    requires |names| > 0
    ensures FirstName(names) in names
    ensures forall n :: n in names ==> !StrLess(n, FirstName(names))
    decreases |names|
  {
    if |names| > 1 {
      var rest := FirstName(names[1..]);
      FirstNameLeast(names[1..]);
      assert names == [names[0]] + names[1..];
      if StrLess(names[0], rest) {
        forall n | n in names ensures !StrLess(n, names[0]) {
          if n == names[0] {
            StrLessIrreflexive(n);
          } else if StrLess(n, names[0]) {
            StrLessTransitive(n, names[0], rest);
          }
        }
      } else {
        forall n | n in names ensures !StrLess(n, rest) {
          if n != names[0] {
            assert n in names[1..];
          }
        }
      }
    } else {
      StrLessIrreflexive(names[0]);
    }
  }

  /** Sorting the names and taking the first gives that least name. */
  lemma FirstNameSorted(names: seq<string>)
    requires |names| > 0
    ensures SortBy(names, PlainKey)[0] == FirstName(names)
  {
    var sorted := SortBy(names, PlainKey);
    SortBySpec(names, PlainKey);
    assert |sorted| == |multiset(sorted)| == |multiset(names)| == |names|;
    FirstNameLeast(names);
    var first := FirstName(names);
    assert sorted[0] in multiset(names);
    assert first in multiset(sorted);
    var j :| 0 <= j < |sorted| && sorted[j] == first;
    if j > 0 {
      PlainKeyOrder(first, sorted[0]);
    }
    StrLessTotal(first, sorted[0]);
  }

  /** The folder `confirm_and_start_merge_to_new` would merge into, from the checked rows. */
  function MergeTarget(root: Path, checked: seq<Item>): Path {
    Child(root, TargetName(FirstName(FolderNames(Paths(checked)))))
  }

  /**
   * `confirm_and_start_merge_to_new`, given the user's answer to the
   * confirmation dialog and whether `mkdir` succeeds.
   */
  function Plan(root: Option<Path>, items: seq<Item>, disk: Disk, confirmed: bool, mkdirOk: bool): MergePlan {
    if root.None? then NoRoot
    else
      var checked := Checked(items);
      var bad := FirstInvalid(checked, disk);
      if bad.Some? then InvalidSource(bad.value)
      else if |checked| == 0 then NoSources
      else
        var sources := Paths(checked);
        var target := MergeTarget(root.value, checked);
        if target in sources then Conflict(target)
        else if !confirmed then Declined
        else if !mkdirOk then MkdirFailed(target)
        else Start(sources, target)
  }

  lemma CheckedSome(items: seq<Item>)
    ensures |Checked(items)| > 0 <==> exists i :: 0 <= i < |items| && items[i].checked
  {
    CheckedMeans(items);
    var checked := Checked(items);
    if |checked| > 0 {
      assert checked[0] in checked;
      var i :| 0 <= i < |items| && items[i] == checked[0];
    }
    if exists i :: 0 <= i < |items| && items[i].checked {
      var i :| 0 <= i < |items| && items[i].checked;
      assert items[i] in checked;
    }
  }

  lemma CheckedDirs(items: seq<Item>, disk: Disk)
    ensures (forall j :: 0 <= j < |Checked(items)| ==> disk.isDir(Checked(items)[j].path))
            <==> (forall i :: 0 <= i < |items| && items[i].checked ==> disk.isDir(items[i].path))
  {
    CheckedMeans(items);
    var checked := Checked(items);
    if forall j :: 0 <= j < |checked| ==> disk.isDir(checked[j].path) {
      forall i | 0 <= i < |items| && items[i].checked ensures disk.isDir(items[i].path) {
        assert items[i] in checked;
      }
    }
    if forall i :: 0 <= i < |items| && items[i].checked ==> disk.isDir(items[i].path) {
      forall j | 0 <= j < |checked| ensures disk.isDir(checked[j].path) {
        assert checked[j] in checked;
        var i :| 0 <= i < |items| && items[i] == checked[j];
        assert items[i].checked;
      }
    }
  }

  /** A merge starts exactly when a root is set, at least one row is checked, every checked row is a folder, the target is not one of them, and the user and `mkdir` agree. */
  lemma PlanStarts(root: Option<Path>, items: seq<Item>, disk: Disk, confirmed: bool, mkdirOk: bool)
    ensures Plan(root, items, disk, confirmed, mkdirOk).Start? <==>
              root.Some?
              && (exists i :: 0 <= i < |items| && items[i].checked)
              && (forall i :: 0 <= i < |items| && items[i].checked ==> disk.isDir(items[i].path))
              && MergeTarget(root.value, Checked(items)) !in Paths(Checked(items))
              && confirmed && mkdirOk
  {
    PlanStartsUnfold(root, items, disk, confirmed, mkdirOk);
    CheckedSome(items);
    CheckedAllDirs(items, disk);
  }

  lemma PlanStartsUnfold(root: Option<Path>, items: seq<Item>, disk: Disk, confirmed: bool, mkdirOk: bool)
    ensures Plan(root, items, disk, confirmed, mkdirOk).Start? <==>
              root.Some? && |Checked(items)| > 0 && FirstInvalid(Checked(items), disk).None?
              && MergeTarget(root.value, Checked(items)) !in Paths(Checked(items))
              && confirmed && mkdirOk
  {
  }

  /** No checked row is invalid exactly when every checked row is a folder. */
  lemma CheckedAllDirs(items: seq<Item>, disk: Disk)
    ensures FirstInvalid(Checked(items), disk).None?
            <==> (forall i :: 0 <= i < |items| && items[i].checked ==> disk.isDir(items[i].path))
  {
    CheckedDirs(items, disk);
    FirstInvalidMeans(Checked(items), disk);
  }

  /** The merge a positive answer starts: the checked folders, and the target named after them. */
  lemma PlanStartValue(root: Option<Path>, items: seq<Item>, disk: Disk, confirmed: bool, mkdirOk: bool)
    requires Plan(root, items, disk, confirmed, mkdirOk).Start?
    ensures root.Some? && |Checked(items)| > 0 && FirstInvalid(Checked(items), disk).None?
    ensures Plan(root, items, disk, confirmed, mkdirOk) == Start(Paths(Checked(items)), MergeTarget(root.value, Checked(items)))
  {
  }

  /**
   * A started merge takes the checked folders in list order as its sources,
   * all of them folders, and a target that is not among them, sits directly
   * under the root and carries `_merged` in its name.
   */
  lemma PlanTarget(root: Option<Path>, items: seq<Item>, disk: Disk, confirmed: bool, mkdirOk: bool)
    requires Plan(root, items, disk, confirmed, mkdirOk).Start?
    ensures var p := Plan(root, items, disk, confirmed, mkdirOk);
            p.sources == Paths(Checked(items)) && |p.sources| > 0
            && (forall s :: s in p.sources ==> disk.isDir(s))
            && p.target !in p.sources
            && root == Some(ParentOf(p.target))
            && Contains(Lower(NameOf(p.target)), "_merged")
  {
    PlanStartValue(root, items, disk, confirmed, mkdirOk);
    var checked := Checked(items);
    var sources := Paths(checked);
    FirstInvalidMeans(checked, disk);
    TargetNameMarked(FirstName(FolderNames(sources)));
    forall s | s in sources ensures disk.isDir(s) {
      var j :| 0 <= j < |sources| && sources[j] == s;
      assert checked[j].path == s;
    }
  }

  /** The target is named after the least of the source names. */
  lemma PlanTargetName(root: Option<Path>, items: seq<Item>, disk: Disk, confirmed: bool, mkdirOk: bool)
    requires Plan(root, items, disk, confirmed, mkdirOk).Start?
    ensures var p := Plan(root, items, disk, confirmed, mkdirOk);
            exists s :: s in p.sources
              && NameOf(p.target) == TargetName(NameOf(s))
              && forall s' :: s' in p.sources ==> !StrLess(NameOf(s'), NameOf(s))
  {
    PlanStartValue(root, items, disk, confirmed, mkdirOk);
    var sources := Paths(Checked(items));
    var names := FolderNames(sources);
    FirstNameLeast(names);
    var first := FirstName(names);
    var k :| 0 <= k < |names| && names[k] == first;
    forall s' | s' in sources ensures !StrLess(NameOf(s'), first) {
      var j :| 0 <= j < |sources| && sources[j] == s';
      assert names[j] in names;
    }
    assert sources[k] in sources;
  }

  /** The early returns, each for its own reason. */
  lemma PlanRefusals(root: Option<Path>, items: seq<Item>, disk: Disk, confirmed: bool, mkdirOk: bool)
    ensures var p := Plan(root, items, disk, confirmed, mkdirOk);
            (p.NoRoot? <==> root.None?)
            && (p.InvalidSource? ==> exists i :: 0 <= i < |items| && items[i].checked && !disk.isDir(items[i].path) && items[i].name == p.name)
            && (p.NoSources? ==> forall i :: 0 <= i < |items| ==> !items[i].checked)
            && (p.Conflict? ==> p.target in Paths(Checked(items)))
            && (p.Declined? ==> !confirmed)
            && (p.MkdirFailed? ==> confirmed && !mkdirOk)
  {
    if root.Some? {
      var bad := FirstInvalid(Checked(items), disk);
      if bad.Some? {
        assert Plan(root, items, disk, confirmed, mkdirOk) == InvalidSource(bad.value);
        InvalidChecked(items, disk);
      } else if |Checked(items)| == 0 {
        assert Plan(root, items, disk, confirmed, mkdirOk) == NoSources;
        CheckedSome(items);
      }
    }
  }

  /** The name the first check refuses is that of a checked row that is not a folder. */
  lemma InvalidChecked(items: seq<Item>, disk: Disk)
    requires FirstInvalid(Checked(items), disk).Some?
    ensures exists i :: 0 <= i < |items| && items[i].checked && !disk.isDir(items[i].path)
                        && items[i].name == FirstInvalid(Checked(items), disk).value
  {
    var checked := Checked(items);
    FirstInvalidMeans(checked, disk);
    CheckedMeans(items);
    var j :| 0 <= j < |checked| && !disk.isDir(checked[j].path) && checked[j].name == FirstInvalid(checked, disk).value;
    assert checked[j] in checked;
    var i :| 0 <= i < |items| && items[i] == checked[j];
  }

  lemma ExampleRows(root: Path, disk: Disk, items: seq<Item>)
    requires disk.isDir(root + ["a"]) && disk.isDir(root + ["a_merged"])
    requires items == [Item("a", root + ["a"], true), Item("a_merged", root + ["a_merged"], true)]
    ensures Checked(items) == items && FirstInvalid(items, disk) == None
    ensures Paths(items) == [root + ["a"], root + ["a_merged"]]
  {
    assert items[..1] == [items[0]];
    assert Checked([items[0]]) == [items[0]];
    assert items[1..] == [items[1]] && items[1..][1..] == [];
    assert FirstInvalid(items[1..][1..], disk) == None;
    assert FirstInvalid(items[1..], disk) == None;
  }

  lemma ExampleName()
    ensures FirstName(["a", "a_merged"]) == "a" && TargetName("a") == "a_merged"
  {
    assert ["a", "a_merged"][1..] == ["a_merged"];
    assert StrLess("a", "a_merged");
    assert !Contains("", "_merged");
    assert !Contains("a", "_merged");
  }

  /** Checking `a` together with `a_merged` makes the target one of the sources. */
  lemma PlanConflictExample(root: Path, disk: Disk)
    requires disk.isDir(root + ["a"]) && disk.isDir(root + ["a_merged"])
    ensures Plan(Some(root), [Item("a", root + ["a"], true), Item("a_merged", root + ["a_merged"], true)], disk, true, true)
              == Conflict(root + ["a_merged"])
  {
    var items := [Item("a", root + ["a"], true), Item("a_merged", root + ["a_merged"], true)];
    ExampleRows(root, disk, items);
    var sources := Paths(items);
    assert FolderNames(sources) == ["a", "a_merged"];
    ExampleName();
    assert MergeTarget(root, items) == root + ["a_merged"];
    assert sources[1] == root + ["a_merged"];
  }

  // ---------------------------------------------------------------- re-sorting the list

  /** `checked_items[str(path)] = checked` over the rows in order: a later row for the same folder wins. */
  function CheckedByPath(items: seq<Item>): map<Path, bool> {
    if |items| == 0 then map[]
    else CheckedByPath(items[..|items| - 1])[items[|items| - 1].path := items[|items| - 1].checked]
  }

  /** The map knows every listed folder, and for each the checked state of its last row. */
  lemma {:induction false} CheckedByPathMeans(items: seq<Item>)
    ensures var m := CheckedByPath(items);
            (forall p :: p in m <==> p in Paths(items))
            && forall i :: 0 <= i < |items| && (forall j :: i < j < |items| ==> items[j].path != items[i].path)
                 ==> m[items[i].path] == items[i].checked
  {
    if |items| > 0 {
      var init := items[..|items| - 1];
      CheckedByPathMeans(init);
      assert Paths(items) == Paths(init) + [items[|items| - 1].path];
      forall i | 0 <= i < |items| - 1 && (forall j :: i < j < |items| ==> items[j].path != items[i].path)
        ensures CheckedByPath(items)[items[i].path] == items[i].checked
      {
        assert init[i] == items[i];
        assert forall j :: i < j < |init| ==> init[j].path != init[i].path;
      }
    }
  }

  /** Re-adding the rows: each is checked exactly when the map says so. */
  function Restore(items: seq<Item>, m: map<Path, bool>): (r: seq<Item>)
    ensures |r| == |items|
  {
    seq(|items|, i requires 0 <= i < |items| => items[i].(checked := items[i].path in m && m[items[i].path]))
  }

  /** The sort key of a row: the natural key of its text, or its lower-cased text. */
  function ResortKey(natural: bool): Item -> Key {
    (it: Item) => if natural then NaturalKey(it.name) else PlainKey(Lower(it.name))
  }

  /** `sort_subfolder_list`. */
  function SortList(items: seq<Item>, natural: bool): seq<Item> {
    Restore(SortBy(items, ResortKey(natural)), CheckedByPath(items))
  }

  /** The re-sorted list is in key order. */
  lemma SortListSorted(items: seq<Item>, natural: bool)
    ensures SortedBy(SortList(items, natural), ResortKey(natural))
  {
    var sorted := SortBy(items, ResortKey(natural));
    SortBySpec(items, ResortKey(natural));
    var r := SortList(items, natural);
    forall i | 0 <= i < |r| ensures ResortKey(natural)(r[i]) == ResortKey(natural)(sorted[i]) {
      assert r[i].name == sorted[i].name;
    }
  }

  /** With one row per folder, re-sorting is a permutation of the rows: every row keeps its checked state. */
  lemma SortListPermutes(items: seq<Item>, natural: bool)
    requires Distinct(Paths(items))
    ensures multiset(SortList(items, natural)) == multiset(items)
  {
    var sorted := SortBy(items, ResortKey(natural));
    SortBySpec(items, ResortKey(natural));
    var m := CheckedByPath(items);
    CheckedByPathMeans(items);
    assert |sorted| == |multiset(sorted)| == |multiset(items)| == |items|;
    forall k | 0 <= k < |sorted| ensures Restore(sorted, m)[k] == sorted[k] {
      assert sorted[k] in multiset(items);
      var i :| 0 <= i < |items| && items[i] == sorted[k];
      forall j | i < j < |items| ensures items[j].path != items[i].path {
        assert Paths(items)[i] == items[i].path && Paths(items)[j] == items[j].path;
      }
      assert Paths(items)[i] in Paths(items);
    }
    assert Restore(sorted, m) == sorted;
  }

  // ---------------------------------------------------------------- unchecking

  /** `uncheck_all_subfolders`: every row unchecked. */
  function Unchecked(items: seq<Item>): (r: seq<Item>)
    ensures |r| == |items|
  {
    seq(|items|, i requires 0 <= i < |items| => items[i].(checked := false))
  }

  lemma {:induction false} CheckedNone(items: seq<Item>)
    requires forall i :: 0 <= i < |items| ==> !items[i].checked
    ensures Checked(items) == []
  {
    if |items| > 0 {
      CheckedNone(items[..|items| - 1]);
    }
  }

  lemma UncheckedMeans(items: seq<Item>)
    ensures var r := Unchecked(items);
            Paths(r) == Paths(items) && Checked(r) == [] && CheckedNames(r) == {}
            && forall i :: 0 <= i < |r| ==> r[i].name == items[i].name
  {
    var r := Unchecked(items);
    CheckedNone(r);
    forall n ensures n !in CheckedNames(r) {
      CheckedNamesMeans(r, n);
    }
  }

  // ---------------------------------------------------------------- after a merge

  /** Handling one row of the list after a merge: a source row goes, with its cache entry and its worker; any other row stays. */
  function DropStep(v: View, row: Item, sources: seq<Path>): View {
    if row.path in sources then v.(cache := Del(v.cache, row.path), tasks := v.tasks - {row.path})
    else v.(items := v.items + [row])
  }

  function DropAll(v: View, rows: seq<Item>, sources: seq<Path>): View
    decreases |rows|
  {
    if |rows| == 0 then v else DropAll(DropStep(v, rows[0], sources), rows[1..], sources)
  }

  /** The rows that are not sources, in order. */
  function Kept(rows: seq<Item>, sources: seq<Path>): seq<Item> {
    if |rows| == 0 then [] else (if rows[0].path in sources then [] else [rows[0]]) + Kept(rows[1..], sources)
  }

  /** Whether a folder leaves the list: it is a source and one of the rows. */
  predicate Gone(rows: seq<Item>, sources: seq<Path>, q: Path) {
    q in sources && q in Paths(rows)
  }

  lemma PathsCons(rows: seq<Item>)
    requires |rows| > 0
    ensures Paths(rows) == [rows[0].path] + Paths(rows[1..])
  {
  }

  lemma {:induction false} KeptMeans(rows: seq<Item>, sources: seq<Path>)
    ensures forall r :: r in Kept(rows, sources) <==> r in rows && r.path !in sources
  {
    if |rows| > 0 {
      KeptMeans(rows[1..], sources);
      assert rows == [rows[0]] + rows[1..];
    }
  }

  lemma DropStepValid(v: View, row: Item, sources: seq<Path>)
    requires Valid(v)
    ensures Valid(DropStep(v, row, sources))
  {
    if row.path in sources {
      DelUnique(v.cache, row.path);
      assert (v.tasks - {row.path}).Keys <= v.tasks.Keys;
    }
  }

  /** Dropping the source rows keeps the other rows in order and leaves the queue and ids alone. */
  lemma {:induction false} DropAllShape(v: View, rows: seq<Item>, sources: seq<Path>)
    requires Valid(v)
    ensures var r := DropAll(v, rows, sources);
            Valid(r) && r.items == v.items + Kept(rows, sources) && r.waiting == v.waiting && r.nextId == v.nextId
    decreases |rows|
  {
    if |rows| > 0 {
      var v1 := DropStep(v, rows[0], sources);
      DropStepValid(v, rows[0], sources);
      DropAllShape(v1, rows[1..], sources);
      var kr := if rows[0].path in sources then [] else [rows[0]];
      assert Kept(rows, sources) == kr + Kept(rows[1..], sources);
      assert (v.items + kr) + Kept(rows[1..], sources) == v.items + (kr + Kept(rows[1..], sources));
    } else {
      assert v.items + [] == v.items;
    }
  }

  /** Dropping the source rows forgets the cache entry and the worker of exactly the listed sources. */
  lemma {:induction false} DropAllForgets(v: View, rows: seq<Item>, sources: seq<Path>, q: Path)
    ensures var r := DropAll(v, rows, sources);
            Lookup(r.cache, q) == (if Gone(rows, sources, q) then None else Lookup(v.cache, q))
            && (q in r.tasks <==> q in v.tasks && !Gone(rows, sources, q))
            && (q in r.tasks ==> r.tasks[q] == v.tasks[q])
    decreases |rows|
  {
    if |rows| > 0 {
      var v1 := DropStep(v, rows[0], sources);
      if rows[0].path in sources {
        LookupDel(v.cache, rows[0].path, q);
      }
      DropAllForgets(v1, rows[1..], sources, q);
      PathsCons(rows);
    }
  }

  /**
   * The success branch of `task_finished` for `merge_subs` in the newer
   * window: drop the source rows, add an unchecked row for the target when
   * it sits directly under the root and request its preview, then re-sort.
   */
  function AfterMerge(v: View, root: Option<Path>, sources: seq<Path>, target: Path, natural: bool, disk: Disk): View {
    var v1 := DropAll(v.(items := []), v.items, sources);
    var v2 := if root == Some(ParentOf(target))
              then Request(v1.(items := v1.items + [Item(NameOf(target), target, false)]), target, disk, false)
              else v1;
    v2.(items := SortList(v2.items, natural))
  }

  /** The list just before the re-sort: the kept rows, then the target's unchecked row when it sits under the root. */
  function Patched(v: View, root: Option<Path>, sources: seq<Path>, target: Path, disk: Disk): View {
    var v1 := DropAll(v.(items := []), v.items, sources);
    if root == Some(ParentOf(target))
    then Request(v1.(items := v1.items + [Item(NameOf(target), target, false)]), target, disk, false)
    else v1
  }

  /** The patch-up is the patched list re-sorted. */
  lemma AfterMergeSorted(v: View, root: Option<Path>, sources: seq<Path>, target: Path, natural: bool, disk: Disk)
    ensures var p := Patched(v, root, sources, target, disk);
            AfterMerge(v, root, sources, target, natural, disk) == p.(items := SortList(p.items, natural))
  {
  }

  lemma PatchedShape(v: View, root: Option<Path>, sources: seq<Path>, target: Path, disk: Disk)
    requires Valid(v)
    ensures var p := Patched(v, root, sources, target, disk);
            var v1 := DropAll(v.(items := []), v.items, sources);
            Valid(p) && p.cache == v1.cache
            && p.items == Kept(v.items, sources) + (if root == Some(ParentOf(target)) then [Item(NameOf(target), target, false)] else [])
            && (forall q :: q in p.tasks ==> q in v1.tasks || q == target)
            && AfterMerge(v, root, sources, target, false, disk) == p.(items := SortList(p.items, false))
            && AfterMerge(v, root, sources, target, true, disk) == p.(items := SortList(p.items, true))
  {
    var v0 := v.(items := []);
    var v1 := DropAll(v0, v.items, sources);
    DropAllShape(v0, v.items, sources);
    assert [] + Kept(v.items, sources) == Kept(v.items, sources);
    if root == Some(ParentOf(target)) {
      var row := Item(NameOf(target), target, false);
      RequestOutcome(v1.(items := v1.items + [row]), target, disk, false);
      if CachedUsable(v1.(items := v1.items + [row]), target, disk) {
        PutStored(v1.cache, target);
      }
    }
  }

  /** After a merge the pool stays valid, the sources' cache entries are gone and the rest unchanged, and no worker runs for a source. */
  lemma AfterMergePool(v: View, root: Option<Path>, sources: seq<Path>, target: Path, natural: bool, disk: Disk)
    requires Valid(v) && target !in sources
    ensures var r := AfterMerge(v, root, sources, target, natural, disk);
            Valid(r)
            && (forall q :: Lookup(r.cache, q) == if Gone(v.items, sources, q) then None else Lookup(v.cache, q))
            && (forall q :: q in r.tasks ==> !Gone(v.items, sources, q))
  {
    PatchedShape(v, root, sources, target, disk);
    var v0 := v.(items := []);
    forall q ensures Lookup(DropAll(v0, v.items, sources).cache, q) == if Gone(v.items, sources, q) then None else Lookup(v.cache, q)
      ensures q in DropAll(v0, v.items, sources).tasks ==> !Gone(v.items, sources, q)
    {
      DropAllForgets(v0, v.items, sources, q);
    }
  }

  /**
   * After a merge no row is a source, every other folder keeps a row, the
   * target gets one when it sits directly under the root, and a row is
   * checked only if a row of its folder was; the list is in key order.
   */
  lemma AfterMergeRows(v: View, root: Option<Path>, sources: seq<Path>, target: Path, natural: bool, disk: Disk)
    requires Valid(v) && target !in sources
    ensures var r := AfterMerge(v, root, sources, target, natural, disk);
            var listed := root == Some(ParentOf(target));
            SortedBy(r.items, ResortKey(natural))
            && (forall i :: 0 <= i < |r.items| ==> r.items[i].path !in sources)
            && (forall i :: 0 <= i < |r.items| ==> r.items[i].path in Paths(v.items) || (listed && r.items[i].path == target))
            && (forall i :: 0 <= i < |r.items| && r.items[i].checked ==>
                  exists j :: 0 <= j < |v.items| && v.items[j].path == r.items[i].path && v.items[j].checked)
            && (forall j :: 0 <= j < |v.items| && v.items[j].path !in sources ==>
                  exists i :: 0 <= i < |r.items| && r.items[i].path == v.items[j].path)
            && (listed ==> exists i :: 0 <= i < |r.items| && r.items[i].path == target)
  {
    PatchedShape(v, root, sources, target, disk);
    SortListSorted(Patched(v, root, sources, target, disk).items, natural);
    AfterMergeRowsFrom(v, root, sources, target, natural, disk);
    AfterMergeRowsKept(v, root, sources, target, natural, disk);
  }

  /** Each row after the patch-up is a kept row's folder, or the target's. */
  lemma AfterMergeRowsFrom(v: View, root: Option<Path>, sources: seq<Path>, target: Path, natural: bool, disk: Disk)
    requires Valid(v) && target !in sources
    ensures var r := AfterMerge(v, root, sources, target, natural, disk).items;
            (forall i :: 0 <= i < |r| ==> r[i].path !in sources)
            && (forall i :: 0 <= i < |r| ==> r[i].path in Paths(v.items) || (root == Some(ParentOf(target)) && r[i].path == target))
            && (forall i :: 0 <= i < |r| && r[i].checked ==>
                  exists j :: 0 <= j < |v.items| && v.items[j].path == r[i].path && v.items[j].checked)
  {
    PatchedShape(v, root, sources, target, disk);
    var pre := Patched(v, root, sources, target, disk).items;
    var kept := Kept(v.items, sources);
    KeptMeans(v.items, sources);
    var r := SortList(pre, natural);
    forall i | 0 <= i < |r|
      ensures r[i].path !in sources
      ensures r[i].path in Paths(v.items) || (root == Some(ParentOf(target)) && r[i].path == target)
      ensures r[i].checked ==> exists j :: 0 <= j < |v.items| && v.items[j].path == r[i].path && v.items[j].checked
    {
      var j := SortListFrom(pre, natural, i);
      if pre[j] in kept {
        var k :| 0 <= k < |v.items| && v.items[k] == pre[j];
        assert Paths(v.items)[k] == pre[j].path;
      }
    }
  }

  /** Every row whose folder was not merged away keeps a row, and the target gets one when it sits under the root. */
  lemma AfterMergeRowsKept(v: View, root: Option<Path>, sources: seq<Path>, target: Path, natural: bool, disk: Disk)
    requires Valid(v)
    ensures var r := AfterMerge(v, root, sources, target, natural, disk).items;
            (forall j :: 0 <= j < |v.items| && v.items[j].path !in sources ==>
               exists i :: 0 <= i < |r| && r[i].path == v.items[j].path)
            && (root == Some(ParentOf(target)) ==> exists i :: 0 <= i < |r| && r[i].path == target)
  {
    PatchedShape(v, root, sources, target, disk);
    var pre := Patched(v, root, sources, target, disk).items;
    var kept := Kept(v.items, sources);
    KeptMeans(v.items, sources);
    var r := SortList(pre, natural);
    forall j | 0 <= j < |v.items| && v.items[j].path !in sources
      ensures exists i :: 0 <= i < |r| && r[i].path == v.items[j].path
    {
      assert v.items[j] in kept;
      SortListKeeps(pre, natural, v.items[j]);
    }
    if root == Some(ParentOf(target)) {
      SortListKeeps(pre, natural, Item(NameOf(target), target, false));
    }
  }

  /** Every re-sorted row comes from a row of the same folder, and is checked only if one of that folder's rows was. */
  lemma SortListFrom(pre: seq<Item>, natural: bool, i: nat) returns (j: nat)
    requires i < |SortList(pre, natural)|
    ensures j < |pre| && pre[j].path == SortList(pre, natural)[i].path
    ensures SortList(pre, natural)[i].checked ==> pre[j].checked
  {
    var sorted := SortBy(pre, ResortKey(natural));
    SortBySpec(pre, ResortKey(natural));
    var r := SortList(pre, natural);
    assert r[i].path == sorted[i].path;
    if r[i].checked {
      j := LastIndex(pre, r[i].path);
      CheckedByPathMeans(pre);
    } else {
      assert sorted[i] in multiset(pre);
      j :| 0 <= j < |pre| && pre[j] == sorted[i];
    }
  }

  /** Every row before the re-sort still has its folder listed after it. */
  lemma SortListKeeps(pre: seq<Item>, natural: bool, x: Item)
    requires x in pre
    ensures exists i :: 0 <= i < |SortList(pre, natural)| && SortList(pre, natural)[i].path == x.path
  {
    var sorted := SortBy(pre, ResortKey(natural));
    SortBySpec(pre, ResortKey(natural));
    assert x in multiset(sorted);
    var i :| 0 <= i < |sorted| && sorted[i] == x;
    assert SortList(pre, natural)[i].path == x.path;
  }

  /** The index of the last row for folder `p`. */
  function LastIndex(pre: seq<Item>, p: Path): (j: nat)
    requires p in Paths(pre)
    ensures j < |pre| && pre[j].path == p && forall k :: j < k < |pre| ==> pre[k].path != p
  {
    var n := |pre| - 1;
    if pre[n].path == p then n
    else
      assert Paths(pre) == Paths(pre[..n]) + [pre[n].path];
      var j := LastIndex(pre[..n], p);
      assert pre[..n][j] == pre[j];
      j
  }
}
