/**
 * The loops both windows run over their rows and their cache, each proved
 * to compute the function that specifies it.
 */
module ListSteps {
  import opened Wrappers
  import opened Names
  import opened FsModel
  import opened NaturalSort
  import opened Catalog
  import opened MergeList

  /** `get_checked_subfolder_items`. */
  method GetChecked(items: seq<Item>) returns (checked: seq<Item>)
    ensures checked == Checked(items)
  {
    checked := [];
    for i := 0 to |items|
      invariant checked == Checked(items[..i])
    {
      assert items[..i + 1][..i] == items[..i];
      if items[i].checked {
        checked := checked + [items[i]];
      }
    }
    assert items[..|items|] == items;
  }

  /** The texts of the checked rows (`_checked_folder_names_cache`, `checked_names_before_refresh`). */
  method RememberChecked(items: seq<Item>) returns (names: set<string>)
    ensures names == CheckedNames(items)
  {
    names := {};
    for i := 0 to |items|
      invariant names == CheckedNames(items[..i])
    {
      assert items[..i + 1][..i] == items[..i];
      if items[i].checked {
        names := names + {items[i].name};
      }
    }
    assert items[..|items|] == items;
  }

  /** `cached_thumbnails_by_name`: each cached image under its folder's name, later entries winning. */
  method ThumbsByName(cache: seq<Thumb>) returns (byName: map<string, Path>)
    ensures byName == ByName(cache)
  {
    byName := map[];
    for i := 0 to |cache|
      invariant byName == ByName(cache[..i])
    {
      assert cache[..i + 1][..i] == cache[..i];
      byName := byName[NameOf(cache[i].folder) := cache[i].image];
    }
    assert cache[..|cache|] == cache;
  }

  /** `checked_items` in `sort_subfolder_list`: each listed folder's checked state, later rows winning. */
  method CheckedMap(items: seq<Item>) returns (m: map<Path, bool>)
    ensures m == CheckedByPath(items)
  {
    m := map[];
    for i := 0 to |items|
      invariant m == CheckedByPath(items[..i])
    {
      assert items[..i + 1][..i] == items[..i];
      m := m[items[i].path := items[i].checked];
    }
    assert items[..|items|] == items;
  }

  /** Re-adding the sorted rows, each checked exactly when the map says so. */
  method Restored(sorted: seq<Item>, m: map<Path, bool>) returns (out: seq<Item>)
    ensures out == Restore(sorted, m)
  {
    out := [];
    for i := 0 to |sorted|
      invariant |out| == i
      invariant forall j :: 0 <= j < i ==> out[j] == sorted[j].(checked := sorted[j].path in m && m[sorted[j].path])
    {
      var checked := sorted[i].path in m && m[sorted[i].path];
      out := out + [sorted[i].(checked := checked)];
    }
  }

  /**
   * `confirm_and_start_merge_to_new` up to starting the worker: the checks
   * on the checked rows, the target name, the conflict check, the user's
   * answer and `mkdir`.
   */
  method DecideMerge(root: Option<Path>, items: seq<Item>, disk: Disk, confirmed: bool, mkdirOk: bool) returns (plan: MergePlan)
    ensures plan == Plan(root, items, disk, confirmed, mkdirOk)
  {
    if root.None? {
      return NoRoot;
    }
    var checked := GetChecked(items);
    var bad, sources, names := CheckSources(checked, disk);
    if bad.Some? {
      return InvalidSource(bad.value);
    }
    if |sources| == 0 {
      return NoSources;
    }
    var sortedNames := SortBy(names, PlainKey);
    FirstNameSorted(names);
    var first := sortedNames[0];
    var target := Child(root.value, TargetName(first));
    if target in sources {
      return Conflict(target);
    }
    if !confirmed {
      return Declined;
    }
    if !mkdirOk {
      return MkdirFailed(target);
    }
    plan := Start(sources, target);
  }

  /** The loop over the checked rows: the first that is not a folder, else their folders and those folders' names. */
  method CheckSources(checked: seq<Item>, disk: Disk) returns (bad: Option<string>, sources: seq<Path>, names: seq<string>)
    ensures bad == FirstInvalid(checked, disk)
    ensures bad.None? ==> sources == Paths(checked) && names == FolderNames(sources)
  {
    sources := [];
    names := [];
    for i := 0 to |checked|
      invariant sources == Paths(checked[..i]) && names == FolderNames(sources)
      invariant FirstInvalid(checked, disk) == FirstInvalid(checked[i..], disk)
    {
      assert checked[i..][1..] == checked[i + 1..];
      if !disk.isDir(checked[i].path) {
        return Some(checked[i].name), sources, names;
      }
      assert checked[..i + 1][..i] == checked[..i];
      sources := sources + [checked[i].path];
      names := names + [NameOf(checked[i].path)];
    }
    assert checked[..|checked|] == checked;
    bad := None;
  }
}
