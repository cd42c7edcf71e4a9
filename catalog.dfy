/**
 * The folder list's bookkeeping, shared by both windows: the rows, the
 * preview cache (a dict, so an insertion-ordered list of entries with
 * distinct keys), the preview workers keyed by folder, and the waiting
 * queue. Workers are their ids; the disk is a set of oracles.
 */
module Catalog {
  import opened Wrappers
  import opened FsModel
  import opened Events

  /** A row of the subfolder list: its text, the folder it stands for, and its check box. */
  datatype Item = Item(name: string, path: Path, checked: bool)

  /** One `folder_preview_cache` entry: a folder and the image shown for it. */
  datatype Thumb = Thumb(folder: Path, image: Path)

  /** What the windows ask of the disk: `is_dir`, `os.path.isfile`, `Path.exists` and `os.access(.., R_OK)`. */
  datatype Disk = Disk(isDir: Path -> bool, isFile: Path -> bool, present: Path -> bool, readable: Path -> bool)

  /** The rows, the cache, the preview workers by folder, the waiting queue, and the id the next worker gets. */
  datatype View = View(items: seq<Item>, cache: seq<Thumb>, tasks: map<Path, nat>, waiting: seq<Path>, nextId: nat)

  /** `max_workers`: preview workers allowed at once. */
  const PoolSize: nat := 2

  // ---------------------------------------------------------------- cache

  /** `cache.get(k)`. */
  function Lookup(c: seq<Thumb>, k: Path): Option<Path> {
    if |c| == 0 then None
    else if c[0].folder == k then Some(c[0].image)
    else Lookup(c[1..], k)
  }

  /** `cache[k] = v`: a present key keeps its place, a new one goes last. */
  function Put(c: seq<Thumb>, k: Path, v: Path): seq<Thumb> {
    if |c| == 0 then [Thumb(k, v)]
    else if c[0].folder == k then [Thumb(k, v)] + c[1..]
    else [c[0]] + Put(c[1..], k, v)
  }

  /** `del cache[k]` when present. */
  function Del(c: seq<Thumb>, k: Path): seq<Thumb> {
    if |c| == 0 then []
    else if c[0].folder == k then Del(c[1..], k)
    else [c[0]] + Del(c[1..], k)
  }

  /** A dict holds each key once. */
  predicate UniqueKeys(c: seq<Thumb>) {
    forall i, j :: 0 <= i < j < |c| ==> c[i].folder != c[j].folder
  }

  predicate HasKey(c: seq<Thumb>, k: Path) {
    exists i :: 0 <= i < |c| && c[i].folder == k
  }

  lemma {:induction false} LookupPut(c: seq<Thumb>, k: Path, v: Path, q: Path)
    ensures Lookup(Put(c, k, v), q) == if q == k then Some(v) else Lookup(c, q)
  {
    if |c| > 0 && c[0].folder != k {
      LookupPut(c[1..], k, v, q);
    }
  }

  lemma {:induction false} LookupDel(c: seq<Thumb>, k: Path, q: Path)
    ensures Lookup(Del(c, k), q) == if q == k then None else Lookup(c, q)
  {
    if |c| > 0 {
      LookupDel(c[1..], k, q);
    }
  }

  lemma {:induction false} LookupHasKey(c: seq<Thumb>, k: Path)
    ensures Lookup(c, k).Some? <==> HasKey(c, k)
  {
    if |c| > 0 {
      LookupHasKey(c[1..], k);
      if HasKey(c, k) && c[0].folder != k {
        var i :| 0 <= i < |c| && c[i].folder == k;
        assert c[1..][i - 1].folder == k;
      }
      if HasKey(c[1..], k) {
        var i :| 0 <= i < |c[1..]| && c[1..][i].folder == k;
        assert c[i + 1].folder == k;
      }
    }
  }

  /** Writing the value already stored changes nothing (`set_folder_thumbnail` with the cached image). */
  lemma {:induction false} PutStored(c: seq<Thumb>, k: Path)
    requires Lookup(c, k).Some?
    ensures Put(c, k, Lookup(c, k).value) == c
  {
    if c[0].folder != k {
      PutStored(c[1..], k);
      assert c == [c[0]] + c[1..];
    } else {
      assert c == [Thumb(k, c[0].image)] + c[1..];
    }
  }

  /** A second identical write changes nothing. */
  lemma {:induction false} PutTwice(c: seq<Thumb>, k: Path, v: Path)
    ensures Put(Put(c, k, v), k, v) == Put(c, k, v)
  {
    if |c| > 0 && c[0].folder != k {
      PutTwice(c[1..], k, v);
    }
  }

  lemma {:induction false} PutKeys(c: seq<Thumb>, k: Path, v: Path, q: Path)
    ensures HasKey(Put(c, k, v), q) <==> q == k || HasKey(c, q)
  {
    LookupPut(c, k, v, q);
    LookupHasKey(Put(c, k, v), q);
    LookupHasKey(c, q);
  }

  lemma {:induction false} PutUnique(c: seq<Thumb>, k: Path, v: Path)
    requires UniqueKeys(c)
    ensures UniqueKeys(Put(c, k, v))
  {
    if |c| > 0 {
      assert UniqueKeys(c[1..]) by {
        forall i, j | 0 <= i < j < |c[1..]| ensures c[1..][i].folder != c[1..][j].folder {
          assert c[1..][i] == c[i + 1] && c[1..][j] == c[j + 1];
        }
      }
      var r := Put(c, k, v);
      if c[0].folder == k {
        forall i, j | 0 <= i < j < |r| ensures r[i].folder != r[j].folder {
          assert r[j] == c[j];
          if i > 0 {
            assert r[i] == c[i];
          }
        }
      } else {
        PutUnique(c[1..], k, v);
        var t := Put(c[1..], k, v);
        forall i, j | 0 <= i < j < |r| ensures r[i].folder != r[j].folder {
          assert r[j] == t[j - 1];
          if i == 0 {
            if t[j - 1].folder == c[0].folder {
              assert HasKey(t, c[0].folder);
              PutKeys(c[1..], k, v, c[0].folder);
              var m :| 0 <= m < |c[1..]| && c[1..][m].folder == c[0].folder;
            }
          } else {
            assert r[i] == t[i - 1];
          }
        }
      }
    }
  }

  lemma {:induction false} DelKeys(c: seq<Thumb>, k: Path, q: Path)
    ensures HasKey(Del(c, k), q) <==> q != k && HasKey(c, q)
  {
    LookupDel(c, k, q);
    LookupHasKey(Del(c, k), q);
    LookupHasKey(c, q);
  }

  lemma {:induction false} DelUnique(c: seq<Thumb>, k: Path)
    requires UniqueKeys(c)
    ensures UniqueKeys(Del(c, k))
  {
    if |c| > 0 {
      assert UniqueKeys(c[1..]) by {
        forall i, j | 0 <= i < j < |c[1..]| ensures c[1..][i].folder != c[1..][j].folder {
          assert c[1..][i] == c[i + 1] && c[1..][j] == c[j + 1];
        }
      }
      DelUnique(c[1..], k);
      if c[0].folder != k {
        var t := Del(c[1..], k);
        var r := [c[0]] + t;
        DelKeys(c[1..], k, c[0].folder);
        assert !HasKey(c[1..], c[0].folder) by {
          if HasKey(c[1..], c[0].folder) {
            var m :| 0 <= m < |c[1..]| && c[1..][m].folder == c[0].folder;
          }
        }
        forall i, j | 0 <= i < j < |r| ensures r[i].folder != r[j].folder {
          assert r[j] == t[j - 1];
          if i == 0 {
            assert !HasKey(t, c[0].folder);
          } else {
            assert r[i] == t[i - 1];
          }
        }
      }
    }
  }

  /** The name-to-image map a refresh builds from the cache: for a shared name the later entry wins. */
  function ByName(c: seq<Thumb>): map<string, Path> {
    if |c| == 0 then map[]
    else ByName(c[..|c| - 1])[NameOf(c[|c| - 1].folder) := c[|c| - 1].image]
  }

  /** A name is in the map exactly when some entry's folder has it, and maps to the last such entry's image. */
  lemma ByNameMeans(c: seq<Thumb>, name: string)
    ensures name in ByName(c) <==> exists i :: 0 <= i < |c| && NameOf(c[i].folder) == name
    ensures name in ByName(c) ==> exists i :: 0 <= i < |c| && NameOf(c[i].folder) == name
                                    && ByName(c)[name] == c[i].image
                                    && forall j :: i < j < |c| ==> NameOf(c[j].folder) != name
  {
    ByNameKeys(c, name);
    if name in ByName(c) {
      ByNameLast(c, name);
    }
  }

  lemma {:induction false} ByNameKeys(c: seq<Thumb>, name: string)
    ensures name in ByName(c) <==> exists i :: 0 <= i < |c| && NameOf(c[i].folder) == name
  {
    if |c| > 0 {
      var init := c[..|c| - 1];
      ByNameKeys(init, name);
      if NameOf(c[|c| - 1].folder) != name {
        if exists i :: 0 <= i < |c| && NameOf(c[i].folder) == name {
          var i :| 0 <= i < |c| && NameOf(c[i].folder) == name;
          assert init[i] == c[i];
        }
        if name in ByName(init) {
          var i :| 0 <= i < |init| && NameOf(init[i].folder) == name;
          assert c[i] == init[i];
        }
      }
    }
  }

  lemma {:induction false} ByNameLast(c: seq<Thumb>, name: string)
    requires name in ByName(c)
    ensures exists i :: 0 <= i < |c| && NameOf(c[i].folder) == name
                        && ByName(c)[name] == c[i].image
                        && forall j :: i < j < |c| ==> NameOf(c[j].folder) != name
  {
    var init := c[..|c| - 1];
    if NameOf(c[|c| - 1].folder) == name {
      assert ByName(c)[name] == c[|c| - 1].image;
    } else {
      ByNameLast(init, name);
      var i :| 0 <= i < |init| && NameOf(init[i].folder) == name && ByName(init)[name] == init[i].image
               && forall j :: i < j < |init| ==> NameOf(init[j].folder) != name;
      assert c[i] == init[i];
      forall j | i < j < |c| ensures NameOf(c[j].folder) != name {
        if j < |c| - 1 {
          assert c[j] == init[j];
        }
      }
    }
  }

  /** A cached folder's name is in the map. */
  lemma CachedNamed(c: seq<Thumb>, p: Path)
    requires Lookup(c, p).Some?
    ensures NameOf(p) in ByName(c)
  {
    LookupHasKey(c, p);
    var i :| 0 <= i < |c| && c[i].folder == p;
    ByNameMeans(c, NameOf(p));
  }

  // ---------------------------------------------------------------- rows

  /** `get_checked_subfolder_items`: the checked rows, in list order. */
  function Checked(items: seq<Item>): seq<Item> {
    if |items| == 0 then []
    else Checked(items[..|items| - 1]) + (if items[|items| - 1].checked then [items[|items| - 1]] else [])
  }

  lemma {:induction false} CheckedMeans(items: seq<Item>)
    ensures forall x :: x in Checked(items) <==> x in items && x.checked
  {
    if |items| > 0 {
      var init := items[..|items| - 1];
      CheckedMeans(init);
      assert items == init + [items[|items| - 1]];
    }
  }

  /** The texts of the checked rows, as a refresh remembers them. */
  function CheckedNames(items: seq<Item>): set<string> {
    if |items| == 0 then {}
    else CheckedNames(items[..|items| - 1]) + (if items[|items| - 1].checked then {items[|items| - 1].name} else {})
  }

  lemma {:induction false} CheckedNamesMeans(items: seq<Item>, name: string)
    ensures name in CheckedNames(items) <==> exists i :: 0 <= i < |items| && items[i].checked && items[i].name == name
  {
    if |items| > 0 {
      var init := items[..|items| - 1];
      CheckedNamesMeans(init, name);
      if exists i :: 0 <= i < |init| && init[i].checked && init[i].name == name {
        var i :| 0 <= i < |init| && init[i].checked && init[i].name == name;
        assert items[i] == init[i];
      }
      if exists i :: 0 <= i < |items| - 1 && items[i].checked && items[i].name == name {
        var i :| 0 <= i < |items| - 1 && items[i].checked && items[i].name == name;
        assert init[i] == items[i];
      }
    }
  }

  /** The folders the rows stand for, in list order. */
  function Paths(items: seq<Item>): (r: seq<Path>)
    ensures |r| == |items|
    ensures forall i :: 0 <= i < |items| ==> r[i] == items[i].path
  {
    if |items| == 0 then [] else Paths(items[..|items| - 1]) + [items[|items| - 1].path]
  }

  // ---------------------------------------------------------------- preview pool

  /** The state the windows keep: at most two workers, each with its own id below the next one, and a proper dict. */
  predicate Valid(v: View) {
    |v.tasks| <= PoolSize
    && (forall k :: k in v.tasks ==> v.tasks[k] < v.nextId)
    && (forall k1, k2 :: k1 in v.tasks && k2 in v.tasks && k1 != k2 ==> v.tasks[k1] != v.tasks[k2])
    && UniqueKeys(v.cache)
  }

  /** The cached image for `p`, when `request_folder_preview` may show it instead of starting a worker. */
  predicate CachedUsable(v: View, p: Path, disk: Disk) {
    var c := Lookup(v.cache, p);
    c.Some? && disk.present(c.value) && disk.readable(c.value)
  }

  /**
   * `request_folder_preview`: ignore a non-folder; reuse a readable cached
   * image; (newer window only) ignore a folder whose worker is running;
   * queue the folder when two workers are running; else start one.
   */
  function Request(v: View, p: Path, disk: Disk, legacy: bool): View {
    if !disk.isDir(p) then v
    else if CachedUsable(v, p, disk) then v.(cache := Put(v.cache, p, Lookup(v.cache, p).value))
    else if !legacy && p in v.tasks then v
    else if |v.tasks| >= PoolSize then v.(waiting := v.waiting + [p])
    else v.(tasks := v.tasks[p := v.nextId], nextId := v.nextId + 1)
  }

  /** Whether a request for `p` starts a worker. */
  predicate Starts(v: View, p: Path, disk: Disk, legacy: bool) {
    disk.isDir(p) && !CachedUsable(v, p, disk) && (legacy || p !in v.tasks) && |v.tasks| < PoolSize
  }

  /** Whether a request for `p` joins the queue. */
  predicate Queues(v: View, p: Path, disk: Disk, legacy: bool) {
    disk.isDir(p) && !CachedUsable(v, p, disk) && (legacy || p !in v.tasks) && |v.tasks| >= PoolSize
  }

  /**
   * The pool bound: a request either starts a worker for `p` under a fresh
   * id (only below two workers), or appends `p` to the queue (only at two),
   * or changes nothing (not a folder, a readable cached image, already
   * running); rows and cache are left as they were.
   */
  lemma RequestOutcome(v: View, p: Path, disk: Disk, legacy: bool)
    requires Valid(v)
    ensures var r := Request(v, p, disk, legacy);
            Valid(r) && r.items == v.items && r.cache == v.cache
            && (Starts(v, p, disk, legacy) ==>
                  r.tasks == v.tasks[p := v.nextId] && r.waiting == v.waiting && r.nextId == v.nextId + 1)
            && (Queues(v, p, disk, legacy) ==> r.tasks == v.tasks && r.waiting == v.waiting + [p] && r.nextId == v.nextId)
            && (!Starts(v, p, disk, legacy) && !Queues(v, p, disk, legacy) ==> r == v)
  {
    if disk.isDir(p) && CachedUsable(v, p, disk) {
      PutStored(v.cache, p);
    }
    var r := Request(v, p, disk, legacy);
    if Starts(v, p, disk, legacy) {
      assert |r.tasks| <= |v.tasks| + 1;
      forall k1, k2 | k1 in r.tasks && k2 in r.tasks && k1 != k2 ensures r.tasks[k1] != r.tasks[k2] {
      }
    }
  }

  /** Starting a worker for a folder without one, below two workers, keeps the pool valid. */
  lemma StartValid(v: View, p: Path)
    requires Valid(v) && |v.tasks| < PoolSize && p !in v.tasks
    ensures Valid(v.(tasks := v.tasks[p := v.nextId], nextId := v.nextId + 1))
  {
    var t := v.tasks[p := v.nextId];
    assert |t| == |v.tasks| + 1;
  }

  /** `folder_preview_tasks` without the entry of the finished worker. */
  function Release(tasks: map<Path, nat>, id: nat): map<Path, nat> {
    map k | k in tasks && tasks[k] != id :: tasks[k]
  }

  /** Since ids are distinct, at most one entry goes, and it is the finished worker's. */
  lemma ReleaseOne(tasks: map<Path, nat>, id: nat)
    requires forall k1, k2 :: k1 in tasks && k2 in tasks && k1 != k2 ==> tasks[k1] != tasks[k2]
    ensures var r := Release(tasks, id);
            (forall k :: k in r <==> k in tasks && tasks[k] != id)
            && (forall k :: k in r ==> r[k] == tasks[k])
            && |r| == |tasks| - (if exists k :: k in tasks && tasks[k] == id then 1 else 0)
  {
    var r := Release(tasks, id);
    if k :| k in tasks && tasks[k] == id {
      assert r.Keys == tasks.Keys - {k};
    } else {
      assert r.Keys == tasks.Keys;
    }
  }

  /**
   * `folder_preview_task_finished`: for a preview worker's signal, drop its
   * entry, then pop the head of the queue and request it.
   */
  function Finished(v: View, kind: TaskKind, id: nat, disk: Disk, legacy: bool): View {
    if kind != FindPreview then v
    else
      var v1 := v.(tasks := Release(v.tasks, id));
      if |v1.waiting| == 0 then v1
      else Request(v1.(waiting := v1.waiting[1..]), v1.waiting[0], disk, legacy)
  }

  /** The view with the finished worker's entry dropped: still valid, and only that entry is gone. */
  lemma ReleaseValid(v: View, id: nat)
    requires Valid(v)
    ensures var freed := Release(v.tasks, id);
            Valid(v.(tasks := freed))
            && (forall k :: k in v.tasks && v.tasks[k] != id ==> k in freed && freed[k] == v.tasks[k])
            && (forall k :: k in freed ==> k in v.tasks && v.tasks[k] != id)
  {
    ReleaseOne(v.tasks, id);
  }

  /**
   * Draining is first in, first out: only the finished worker's entry goes,
   * the head of the queue is the one requested, and the rest of the queue
   * keeps its order (the head goes to its back when the pool is still full).
   */
  lemma FinishedOutcome(v: View, id: nat, disk: Disk, legacy: bool)
    requires Valid(v)
    ensures var r := Finished(v, FindPreview, id, disk, legacy);
            var freed := Release(v.tasks, id);
            Valid(r) && r.items == v.items && r.cache == v.cache
            && (|v.waiting| == 0 ==> r.tasks == freed && r.waiting == [])
            && (|v.waiting| > 0 ==>
                  var head := v.waiting[0];
                  var v1 := v.(tasks := freed, waiting := v.waiting[1..]);
                  (Starts(v1, head, disk, legacy) ==> r.tasks == freed[head := v.nextId] && r.waiting == v.waiting[1..])
                  && (Queues(v1, head, disk, legacy) ==> r.tasks == freed && r.waiting == v.waiting[1..] + [head])
                  && (!Starts(v1, head, disk, legacy) && !Queues(v1, head, disk, legacy) ==>
                        r.tasks == freed && r.waiting == v.waiting[1..]))
  {
    ReleaseValid(v, id);
    var freed := Release(v.tasks, id);
    if |v.waiting| > 0 {
      var v1 := v.(tasks := freed, waiting := v.waiting[1..]);
      RequestOutcome(v1, v.waiting[0], disk, legacy);
      assert Finished(v, FindPreview, id, disk, legacy) == Request(v1, v.waiting[0], disk, legacy);
    }
  }

  /** Any other `finished` signal reaching the slot is ignored. */
  lemma FinishedOtherKind(v: View, kind: TaskKind, id: nat, disk: Disk, legacy: bool)
    requires kind != FindPreview
    ensures Finished(v, kind, id, disk, legacy) == v
  {
  }

  /** `set_folder_thumbnail`'s one effect on the model: the cache write. */
  function Thumbnail(v: View, folder: Path, image: Path): View {
    v.(cache := Put(v.cache, folder, image))
  }

  lemma ThumbnailOutcome(v: View, folder: Path, image: Path)
    requires Valid(v)
    ensures var r := Thumbnail(v, folder, image);
            Valid(r) && Lookup(r.cache, folder) == Some(image)
            && (forall q :: q != folder ==> Lookup(r.cache, q) == Lookup(v.cache, q))
            && r.items == v.items && r.tasks == v.tasks && r.waiting == v.waiting
  {
    PutUnique(v.cache, folder, image);
    forall q {
      LookupPut(v.cache, folder, image, q);
    }
  }

  /** Requests for several folders in turn (the `range(min(2, ...))` loop). */
  function RequestAll(v: View, ps: seq<Path>, disk: Disk, legacy: bool): View
    decreases |ps|
  {
    if |ps| == 0 then v else RequestAll(Request(v, ps[0], disk, legacy), ps[1..], disk, legacy)
  }

  /** Appending folders to the queue (the `for i in range(2, ...)` loop). */
  function Enqueue(v: View, ps: seq<Path>): View {
    v.(waiting := v.waiting + ps)
  }

  function Min(a: nat, b: nat): nat {
    if a <= b then a else b
  }

  /** The first two folders needing a preview are requested, the rest wait in order. */
  function Dispatch(v: View, need: seq<Path>, disk: Disk, legacy: bool): View {
    var k := Min(PoolSize, |need|);
    Enqueue(RequestAll(v, need[..k], disk, legacy), need[k..])
  }
}
