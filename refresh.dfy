/**
 * Rebuilding the subfolder list: the checked names and the cached images
 * are carried over by folder name, and the folders still without a preview
 * are requested two at a time, the rest queued. The newer window does this
 * in `_handle_subfolders_found` once the populate worker reports; the older
 * window does it inline after listing the root itself.
 */
module Refresh {
  import opened Wrappers
  import opened FsModel
  import opened NaturalSort
  import opened Catalog

  /** No element twice. */
  predicate Distinct<T(==)>(s: seq<T>) {
    forall i, j :: 0 <= i < j < |s| ==> s[i] != s[j]
  }

  lemma {:induction false} DistinctCount<T>(s: seq<T>, x: T)
    requires Distinct(s)
    ensures multiset(s)[x] <= 1
  {
    if |s| > 0 {
      assert s == [s[0]] + s[1..];
      DistinctTail(s);
      DistinctCount(s[1..], x);
    }
  }

  /** A permutation of a list without repeats has none either. */
  lemma DistinctPerm<T>(a: seq<T>, b: seq<T>)
    requires Distinct(a) && multiset(a) == multiset(b)
    ensures Distinct(b)
  {
    forall i, j | 0 <= i < j < |b| ensures b[i] != b[j] {
      if b[i] == b[j] {
        assert b == b[..i] + [b[i]] + b[i + 1..j] + [b[j]] + b[j + 1..];
        assert multiset(b)[b[i]] >= 2;
        DistinctCount(a, b[i]);
      }
    }
  }

  lemma DistinctTail<T>(s: seq<T>)
    requires Distinct(s) && |s| > 0
    ensures Distinct(s[1..]) && s[0] !in s[1..]
  {
    forall i, j | 0 <= i < j < |s[1..]| ensures s[1..][i] != s[1..][j] {
      assert s[1..][i] == s[i + 1] && s[1..][j] == s[j + 1];
    }
    forall k | 0 <= k < |s[1..]| ensures s[1..][k] != s[0] {
      assert s[1..][k] == s[k + 1];
    }
  }

  /** The key `_handle_subfolders_found` sorts by: the natural key of the name, or the name itself. */
  function SubdirKey(natural: bool): Path -> Key {
    p => if natural then NaturalKey(NameOf(p)) else PlainKey(NameOf(p))
  }

  /** The rows a rebuild adds for `ps`: named after the folder, checked when the name was remembered as checked. */
  function Rows(ps: seq<Path>, names: set<string>): seq<Item> {
    if |ps| == 0 then [] else [Item(NameOf(ps[0]), ps[0], NameOf(ps[0]) in names)] + Rows(ps[1..], names)
  }

  lemma {:induction false} RowsAt(ps: seq<Path>, names: set<string>)
    ensures var r := Rows(ps, names);
            |r| == |ps| && forall i :: 0 <= i < |ps| ==> r[i] == Item(NameOf(ps[i]), ps[i], NameOf(ps[i]) in names)
  {
    if |ps| > 0 {
      RowsAt(ps[1..], names);
      var r := Rows(ps, names);
      var t := Rows(ps[1..], names);
      forall i | 1 <= i < |ps| ensures r[i] == Item(NameOf(ps[i]), ps[i], NameOf(ps[i]) in names) {
        assert r[i] == t[i - 1];
      }
    }
  }

  /** The cleared list, worker table and queue a rebuild starts from. */
  function Cleared(v: View): View {
    v.(items := [], tasks := map[], waiting := [])
  }

  /** A carried-over image the rebuild may use (`os.path.isfile` and readable). */
  predicate Usable(disk: Disk, image: Path) {
    disk.isFile(image) && disk.readable(image)
  }

  /** Whether the name carries a usable image over. */
  predicate Hit(p: Path, byName: map<string, Path>, disk: Disk) {
    NameOf(p) in byName && Usable(disk, byName[NameOf(p)])
  }

  // ---------------------------------------------------------------- newer window

  /** One turn of the newer window's row loop: the row, then the cache entry carried by name, kept, or dropped. */
  function Carry(v: View, p: Path, names: set<string>, byName: map<string, Path>, disk: Disk, need: seq<Path>): (View, seq<Path>) {
    var n := NameOf(p);
    var v1 := v.(items := v.items + [Item(n, p, n in names)]);
    if Hit(p, byName, disk) then (v1.(cache := Put(v1.cache, p, byName[n])), need)
    else if n in byName then (v1.(cache := Del(v1.cache, p)), need + [p])
    else (v1, need + [p])
  }

  function CarryAll(v: View, ps: seq<Path>, names: set<string>, byName: map<string, Path>, disk: Disk, need: seq<Path>): (View, seq<Path>)
    decreases |ps|
  {
    if |ps| == 0 then (v, need)
    else
      var c := Carry(v, ps[0], names, byName, disk, need);
      CarryAll(c.0, ps[1..], names, byName, disk, c.1)
  }

  /** The folders whose name carries no usable image, in order. */
  function Needing(ps: seq<Path>, byName: map<string, Path>, disk: Disk): seq<Path> {
    if |ps| == 0 then []
    else (if Hit(ps[0], byName, disk) then [] else [ps[0]]) + Needing(ps[1..], byName, disk)
  }

  lemma {:induction false} NeedingMeans(ps: seq<Path>, byName: map<string, Path>, disk: Disk)
    ensures forall p :: p in Needing(ps, byName, disk) <==> p in ps && !Hit(p, byName, disk)
  {
    if |ps| > 0 {
      NeedingMeans(ps[1..], byName, disk);
      assert ps == [ps[0]] + ps[1..];
    }
  }

  /** `_handle_subfolders_found`, given the checked names the refresh remembered. */
  function HandleFound(v: View, names: set<string>, subdirs: seq<Path>, natural: bool, disk: Disk): View {
    var byName := ByName(v.cache);
    if |subdirs| == 0 then v
    else
      var c := CarryAll(v, SortBy(subdirs, SubdirKey(natural)), names, byName, disk, []);
      Dispatch(c.0, c.1, disk, false)
  }

  /** One turn of the row loop: one more row, the folder needing a preview or not, and only its cache entry touched. */
  lemma CarryStep(v: View, p: Path, names: set<string>, byName: map<string, Path>, disk: Disk, need: seq<Path>)
    requires UniqueKeys(v.cache)
    ensures var c := Carry(v, p, names, byName, disk, need);
            c.0.items == v.items + [Item(NameOf(p), p, NameOf(p) in names)]
            && c.1 == need + (if Hit(p, byName, disk) then [] else [p])
            && c.0.tasks == v.tasks && c.0.waiting == v.waiting && c.0.nextId == v.nextId
            && UniqueKeys(c.0.cache)
            && (forall q :: q != p ==> Lookup(c.0.cache, q) == Lookup(v.cache, q))
            && Lookup(c.0.cache, p) == if Hit(p, byName, disk) then Some(byName[NameOf(p)])
                                       else if NameOf(p) in byName then None
                                       else Lookup(v.cache, p)
  {
    if Hit(p, byName, disk) {
      PutUnique(v.cache, p, byName[NameOf(p)]);
      forall q {
        LookupPut(v.cache, p, byName[NameOf(p)], q);
      }
    } else if NameOf(p) in byName {
      DelUnique(v.cache, p);
      forall q {
        LookupDel(v.cache, p, q);
      }
    }
  }

  /** What the row loop builds: the rows in order and the folders needing a preview in order. */
  lemma {:induction false} CarryAllShape(v: View, ps: seq<Path>, names: set<string>, byName: map<string, Path>, disk: Disk, need: seq<Path>)
    ensures var c := CarryAll(v, ps, names, byName, disk, need);
            c.0.items == v.items + Rows(ps, names)
            && c.1 == need + Needing(ps, byName, disk)
            && c.0.tasks == v.tasks && c.0.waiting == v.waiting && c.0.nextId == v.nextId
    decreases |ps|
  {
    if |ps| > 0 {
      var row := Item(NameOf(ps[0]), ps[0], NameOf(ps[0]) in names);
      var more := if Hit(ps[0], byName, disk) then [] else [ps[0]];
      var c1 := Carry(v, ps[0], names, byName, disk, need);
      assert c1.0.items == v.items + [row] && c1.1 == need + more;
      CarryAllShape(c1.0, ps[1..], names, byName, disk, c1.1);
      assert Rows(ps, names) == [row] + Rows(ps[1..], names);
      assert Needing(ps, byName, disk) == more + Needing(ps[1..], byName, disk);
      assert (v.items + [row]) + Rows(ps[1..], names) == v.items + ([row] + Rows(ps[1..], names));
      assert (need + more) + Needing(ps[1..], byName, disk) == need + (more + Needing(ps[1..], byName, disk));
    } else {
      assert v.items + [] == v.items;
      assert need + [] == need;
    }
  }

  /** The row loop keeps the cache a proper dict. */
  lemma {:induction false} CarryAllUnique(v: View, ps: seq<Path>, names: set<string>, byName: map<string, Path>, disk: Disk, need: seq<Path>)
    requires UniqueKeys(v.cache)
    ensures UniqueKeys(CarryAll(v, ps, names, byName, disk, need).0.cache)
    decreases |ps|
  {
    if |ps| > 0 {
      var c1 := Carry(v, ps[0], names, byName, disk, need);
      CarryStep(v, ps[0], names, byName, disk, need);
      CarryAllUnique(c1.0, ps[1..], names, byName, disk, c1.1);
    }
  }

  /** The cache the row loop leaves: each listed folder maps to its carried image, or to nothing when that is unusable. */
  lemma {:induction false} CarryAllCache(v: View, ps: seq<Path>, names: set<string>, byName: map<string, Path>, disk: Disk, need: seq<Path>, q: Path)
    requires Distinct(ps) && UniqueKeys(v.cache)
    ensures Lookup(CarryAll(v, ps, names, byName, disk, need).0.cache, q) ==
              if q !in ps then Lookup(v.cache, q)
              else if Hit(q, byName, disk) then Some(byName[NameOf(q)])
              else if NameOf(q) in byName then None
              else Lookup(v.cache, q)
    decreases |ps|
  {
    if |ps| > 0 {
      var c1 := Carry(v, ps[0], names, byName, disk, need);
      CarryStep(v, ps[0], names, byName, disk, need);
      DistinctTail(ps);
      CarryAllCache(c1.0, ps[1..], names, byName, disk, c1.1, q);
    }
  }

  /** Requests change neither the rows nor the cache. */
  lemma {:induction false} RequestAllKeeps(v: View, ps: seq<Path>, disk: Disk, legacy: bool)
    ensures RequestAll(v, ps, disk, legacy).items == v.items && RequestAll(v, ps, disk, legacy).cache == v.cache
    decreases |ps|
  {
    if |ps| > 0 {
      if disk.isDir(ps[0]) && CachedUsable(v, ps[0], disk) {
        PutStored(v.cache, ps[0]);
      }
      RequestAllKeeps(Request(v, ps[0], disk, legacy), ps[1..], disk, legacy);
    }
  }

  /** Requests keep the pool valid. */
  lemma {:induction false} RequestAllValid(v: View, ps: seq<Path>, disk: Disk, legacy: bool)
    requires Valid(v)
    ensures Valid(RequestAll(v, ps, disk, legacy))
    decreases |ps|
  {
    if |ps| > 0 {
      RequestOutcome(v, ps[0], disk, legacy);
      RequestAllValid(Request(v, ps[0], disk, legacy), ps[1..], disk, legacy);
    }
  }

  /**
   * From an empty pool, requests for at most two distinct uncached folders
   * start one worker for each of them that is a folder, and queue nothing.
   */
  lemma FreshRequests(v: View, ps: seq<Path>, disk: Disk, legacy: bool)
    requires Valid(v) && v.tasks == map[] && |ps| <= PoolSize && Distinct(ps)
    requires forall p :: p in ps ==> Lookup(v.cache, p).None?
    ensures var r := RequestAll(v, ps, disk, legacy);
            r.tasks.Keys == (set p | p in ps && disk.isDir(p)) && r.waiting == v.waiting
            && r.items == v.items && r.cache == v.cache
  {
    if |ps| == 1 {
      FreshRequestOne(v, ps, disk, legacy);
    } else if |ps| == 2 {
      FreshRequestTwo(v, ps, disk, legacy);
    }
  }

  lemma FreshRequestOne(v: View, ps: seq<Path>, disk: Disk, legacy: bool)
    requires Valid(v) && v.tasks == map[] && |ps| == 1 && Lookup(v.cache, ps[0]).None?
    ensures var r := RequestAll(v, ps, disk, legacy);
            r.tasks.Keys == (set p | p in ps && disk.isDir(p)) && r.waiting == v.waiting
            && r.items == v.items && r.cache == v.cache
  {
    FreshOne(v, ps[0], disk, legacy);
    RequestAllOne(v, ps, disk, legacy);
    assert (set p | p in ps && disk.isDir(p)) == (if disk.isDir(ps[0]) then {ps[0]} else {});
  }

  lemma FreshRequestTwo(v: View, ps: seq<Path>, disk: Disk, legacy: bool)
    requires Valid(v) && v.tasks == map[] && |ps| == 2 && ps[0] != ps[1]
    requires Lookup(v.cache, ps[0]).None? && Lookup(v.cache, ps[1]).None?
    ensures var r := RequestAll(v, ps, disk, legacy);
            r.tasks.Keys == (set p | p in ps && disk.isDir(p)) && r.waiting == v.waiting
            && r.items == v.items && r.cache == v.cache
  {
    var v1 := Request(v, ps[0], disk, legacy);
    FreshOne(v, ps[0], disk, legacy);
    assert |v1.tasks| <= 1 by {
      if disk.isDir(ps[0]) {
        assert v1.tasks == map[ps[0] := v.nextId];
      }
    }
    FreshOne(v1, ps[1], disk, legacy);
    RequestAllTwo(v, ps, disk, legacy);
    DirsOfTwo(ps, disk);
  }

  lemma DirsOfTwo(ps: seq<Path>, disk: Disk)
    requires |ps| == 2
    ensures (set p | p in ps && disk.isDir(p))
            == (if disk.isDir(ps[0]) then {ps[0]} else {}) + (if disk.isDir(ps[1]) then {ps[1]} else {})
  {
    assert forall p :: p in ps <==> p == ps[0] || p == ps[1];
  }

  lemma RequestAllOne(v: View, ps: seq<Path>, disk: Disk, legacy: bool)
    requires |ps| == 1
    ensures RequestAll(v, ps, disk, legacy) == Request(v, ps[0], disk, legacy)
  {
    assert ps[1..] == [];
  }

  lemma RequestAllTwo(v: View, ps: seq<Path>, disk: Disk, legacy: bool)
    requires |ps| == 2
    ensures RequestAll(v, ps, disk, legacy) == Request(Request(v, ps[0], disk, legacy), ps[1], disk, legacy)
  {
    var v1 := Request(v, ps[0], disk, legacy);
    assert ps[1..][0] == ps[1] && ps[1..][1..] == [];
    assert RequestAll(v, ps, disk, legacy) == RequestAll(v1, ps[1..], disk, legacy);
    RequestAllOne(v1, ps[1..], disk, legacy);
  }

  /** A request for an uncached folder with no worker, below two workers: a worker starts when it is a folder. */
  lemma FreshOne(v: View, p: Path, disk: Disk, legacy: bool)
    requires Valid(v) && |v.tasks| < PoolSize && p !in v.tasks && Lookup(v.cache, p).None?
    ensures var r := Request(v, p, disk, legacy);
            Valid(r) && r.tasks.Keys == v.tasks.Keys + (if disk.isDir(p) then {p} else {})
            && r.waiting == v.waiting && r.items == v.items && r.cache == v.cache
            && (disk.isDir(p) ==> r.tasks == v.tasks[p := v.nextId])
  {
    RequestOutcome(v, p, disk, legacy);
  }

  /** Dispatching keeps the rows and cache and the pool valid. */
  lemma DispatchValid(v: View, need: seq<Path>, disk: Disk, legacy: bool)
    requires Valid(v)
    ensures var r := Dispatch(v, need, disk, legacy);
            Valid(r) && r.items == v.items && r.cache == v.cache
  {
    var k := Min(PoolSize, |need|);
    RequestAllValid(v, need[..k], disk, legacy);
    RequestAllKeeps(v, need[..k], disk, legacy);
  }

  /** Dispatching from an empty pool: workers for the first two folders, the rest queued in order. */
  lemma DispatchFresh(v: View, need: seq<Path>, disk: Disk, legacy: bool)
    requires Valid(v) && v.tasks == map[] && v.waiting == [] && Distinct(need)
    requires forall p :: p in need ==> Lookup(v.cache, p).None?
    ensures var r := Dispatch(v, need, disk, legacy);
            var k := Min(PoolSize, |need|);
            r.tasks.Keys == (set p | p in need[..k] && disk.isDir(p)) && r.waiting == need[k..]
  {
    var k := Min(PoolSize, |need|);
    var head := need[..k];
    assert Distinct(head) by {
      forall i, j | 0 <= i < j < |head| ensures head[i] != head[j] {
        assert head[i] == need[i] && head[j] == need[j];
      }
    }
    FreshRequests(v, head, disk, legacy);
  }

  /** Folders the rebuild needs a preview for have no cache entry left. */
  lemma NeedingUncached(v: View, ps: seq<Path>, names: set<string>, disk: Disk)
    requires Distinct(ps) && UniqueKeys(v.cache)
    ensures var c := CarryAll(v, ps, names, ByName(v.cache), disk, []);
            forall p :: p in c.1 ==> Lookup(c.0.cache, p).None?
  {
    var byName := ByName(v.cache);
    CarryAllShape(v, ps, names, byName, disk, []);
    NeedingMeans(ps, byName, disk);
    var c := CarryAll(v, ps, names, byName, disk, []);
    forall p | p in c.1 ensures Lookup(c.0.cache, p).None? {
      CarryAllCache(v, ps, names, byName, disk, [], p);
      if NameOf(p) !in byName && Lookup(v.cache, p).Some? {
        CachedNamed(v.cache, p);
      }
    }
  }

  /** The row loop of a refresh, from the list as it was. */
  function Built(v: View, subdirs: seq<Path>, natural: bool, disk: Disk): (View, seq<Path>) {
    CarryAll(Cleared(v), SortBy(subdirs, SubdirKey(natural)), CheckedNames(v.items), ByName(v.cache), disk, [])
  }

  /** A whole refresh of the newer window: the populate slot's clearing, then the report handler. */
  function Refreshed(v: View, subdirs: seq<Path>, natural: bool, disk: Disk): View {
    HandleFound(Cleared(v), CheckedNames(v.items), subdirs, natural, disk)
  }

  lemma RefreshUnfold(v: View, subdirs: seq<Path>, natural: bool, disk: Disk)
    requires Valid(v) && |subdirs| > 0
    ensures var c := Built(v, subdirs, natural, disk);
            Refreshed(v, subdirs, natural, disk) == Dispatch(c.0, c.1, disk, false)
            && Valid(c.0)
            && c.0.items == Rows(SortBy(subdirs, SubdirKey(natural)), CheckedNames(v.items))
            && c.1 == Needing(SortBy(subdirs, SubdirKey(natural)), ByName(v.cache), disk)
            && c.0.tasks == map[] && c.0.waiting == []
  {
    var v0 := Cleared(v);
    assert ByName(v0.cache) == ByName(v.cache);
    CarryAllShape(v0, SortBy(subdirs, SubdirKey(natural)), CheckedNames(v.items), ByName(v.cache), disk, []);
    CarryAllUnique(v0, SortBy(subdirs, SubdirKey(natural)), CheckedNames(v.items), ByName(v.cache), disk, []);
  }

  /**
   * Across a refresh of the newer window the rows are the reported folders
   * sorted by the current key, each named after its folder and checked
   * exactly when a row of that name was checked before.
   */
  lemma RefreshRows(v: View, subdirs: seq<Path>, natural: bool, disk: Disk)
    requires Valid(v) && |subdirs| > 0
    ensures var r := Refreshed(v, subdirs, natural, disk);
            Paths(r.items) == SortBy(subdirs, SubdirKey(natural))
            && forall i :: 0 <= i < |r.items| ==>
                 (r.items[i].name == NameOf(r.items[i].path)
                  && (r.items[i].checked <==>
                        exists j :: 0 <= j < |v.items| && v.items[j].checked && v.items[j].name == r.items[i].name))
  {
    RefreshUnfold(v, subdirs, natural, disk);
    var c := Built(v, subdirs, natural, disk);
    DispatchValid(c.0, c.1, disk, false);
    var r := Refreshed(v, subdirs, natural, disk);
    RowsAt(SortBy(subdirs, SubdirKey(natural)), CheckedNames(v.items));
    forall i | 0 <= i < |r.items|
      ensures r.items[i].checked <==> exists j :: 0 <= j < |v.items| && v.items[j].checked && v.items[j].name == r.items[i].name
    {
      CheckedNamesMeans(v.items, r.items[i].name);
    }
  }

  /**
   * Across a refresh each reported folder's cache entry is the image carried
   * over by its name when that is a readable file, and is gone otherwise.
   */
  lemma RefreshCache(v: View, subdirs: seq<Path>, natural: bool, disk: Disk, p: Path)
    requires Valid(v) && |subdirs| > 0 && Distinct(subdirs) && p in subdirs
    ensures var byName := ByName(v.cache);
            Lookup(Refreshed(v, subdirs, natural, disk).cache, p) ==
              if Hit(p, byName, disk) then Some(byName[NameOf(p)]) else None
  {
    var sorted := SortBy(subdirs, SubdirKey(natural));
    SortBySpec(subdirs, SubdirKey(natural));
    DistinctPerm(subdirs, sorted);
    RefreshUnfold(v, subdirs, natural, disk);
    var c := Built(v, subdirs, natural, disk);
    DispatchValid(c.0, c.1, disk, false);
    assert p in multiset(sorted);
    CarryAllCache(Cleared(v), sorted, CheckedNames(v.items), ByName(v.cache), disk, [], p);
    if NameOf(p) !in ByName(v.cache) && Lookup(v.cache, p).Some? {
      CachedNamed(v.cache, p);
    }
  }

  /**
   * Across a refresh the first two folders without a usable carried image
   * get preview workers (those that are folders) and the rest wait, in list
   * order; the pool stays within its bound.
   */
  lemma RefreshPool(v: View, subdirs: seq<Path>, natural: bool, disk: Disk)
    requires Valid(v) && |subdirs| > 0 && Distinct(subdirs)
    ensures var need := Needing(SortBy(subdirs, SubdirKey(natural)), ByName(v.cache), disk);
            var k := Min(PoolSize, |need|);
            var r := Refreshed(v, subdirs, natural, disk);
            Valid(r) && r.tasks.Keys == (set p | p in need[..k] && disk.isDir(p)) && r.waiting == need[k..]
  {
    RefreshUnfold(v, subdirs, natural, disk);
    var c := Built(v, subdirs, natural, disk);
    BuiltNeeds(v, subdirs, natural, disk);
    DispatchValid(c.0, c.1, disk, false);
    DispatchFresh(c.0, c.1, disk, false);
  }

  lemma SortedDistinct(subdirs: seq<Path>, natural: bool)
    requires Distinct(subdirs)
    ensures Distinct(SortBy(subdirs, SubdirKey(natural)))
  {
    SortBySpec(subdirs, SubdirKey(natural));
    DistinctPerm(subdirs, SortBy(subdirs, SubdirKey(natural)));
  }

  /** The folders a refresh finds needing a preview are distinct and uncached. */
  lemma BuiltNeeds(v: View, subdirs: seq<Path>, natural: bool, disk: Disk)
    requires Valid(v) && Distinct(subdirs)
    ensures var c := Built(v, subdirs, natural, disk);
            Distinct(c.1) && forall p :: p in c.1 ==> Lookup(c.0.cache, p).None?
  {
    var sorted := SortBy(subdirs, SubdirKey(natural));
    SortedDistinct(subdirs, natural);
    var v0 := Cleared(v);
    assert ByName(v0.cache) == ByName(v.cache);
    NeedingUncached(v0, sorted, CheckedNames(v.items), disk);
    NeedingDistinct(sorted, ByName(v.cache), disk);
    CarryAllShape(v0, sorted, CheckedNames(v.items), ByName(v.cache), disk, []);
  }

  lemma {:induction false} NeedingDistinct(ps: seq<Path>, byName: map<string, Path>, disk: Disk)
    requires Distinct(ps)
    ensures Distinct(Needing(ps, byName, disk))
  {
    if |ps| > 0 {
      DistinctTail(ps);
      NeedingDistinct(ps[1..], byName, disk);
      NeedingMeans(ps[1..], byName, disk);
      var t := Needing(ps[1..], byName, disk);
      var r := Needing(ps, byName, disk);
      forall i, j | 0 <= i < j < |r| ensures r[i] != r[j] {
        if !Hit(ps[0], byName, disk) {
          assert r == [ps[0]] + t;
          if i == 0 {
            assert r[j] == t[j - 1] && r[j] in t;
          } else {
            assert r[i] == t[i - 1] && r[j] == t[j - 1];
          }
        }
      }
    }
  }

  // ---------------------------------------------------------------- older window

  /** One turn of the older window's row loop: the row, and the carried image when it is usable; no entry is dropped. */
  function LegacyCarry(v: View, p: Path, names: set<string>, byName: map<string, Path>, disk: Disk): View {
    var n := NameOf(p);
    var v1 := v.(items := v.items + [Item(n, p, n in names)]);
    if Hit(p, byName, disk) then v1.(cache := Put(v1.cache, p, byName[n])) else v1
  }

  function LegacyCarryAll(v: View, ps: seq<Path>, names: set<string>, byName: map<string, Path>, disk: Disk): View
    decreases |ps|
  {
    if |ps| == 0 then v else LegacyCarryAll(LegacyCarry(v, ps[0], names, byName, disk), ps[1..], names, byName, disk)
  }

  /** The folders without a cache entry, in list order (`str(folder_path) not in self.folder_preview_cache`). */
  function Uncached(c: seq<Thumb>, ps: seq<Path>): seq<Path> {
    if |ps| == 0 then []
    else (if Lookup(c, ps[0]).None? then [ps[0]] else []) + Uncached(c, ps[1..])
  }

  /**
   * `populate_subfolder_list` of the older window, given whether the root is
   * a folder and its listing: the list, workers and queue are cleared first,
   * even when the root turns out not to be a folder; a listing that raises
   * adds no row.
   */
  function LegacyPopulate(v: View, rootOk: bool, listing: Listing, disk: Disk): View {
    var names := CheckedNames(v.items);
    var byName := ByName(v.cache);
    var v1 := Cleared(v);
    var subdirs := Directories(listing.entries);
    if !rootOk || listing.raises || |subdirs| == 0 then v1
    else
      var v2 := LegacyCarryAll(v1, SortBy(subdirs, SubdirKey(false)), names, byName, disk);
      Dispatch(v2, Uncached(v2.cache, Paths(v2.items)), disk, true)
  }

  lemma {:induction false} LegacyCarryAllShape(v: View, ps: seq<Path>, names: set<string>, byName: map<string, Path>, disk: Disk)
    requires UniqueKeys(v.cache)
    ensures var r := LegacyCarryAll(v, ps, names, byName, disk);
            r.items == v.items + Rows(ps, names)
            && r.tasks == v.tasks && r.waiting == v.waiting && r.nextId == v.nextId
            && UniqueKeys(r.cache)
    decreases |ps|
  {
    if |ps| > 0 {
      var row := Item(NameOf(ps[0]), ps[0], NameOf(ps[0]) in names);
      var v1 := LegacyCarry(v, ps[0], names, byName, disk);
      if Hit(ps[0], byName, disk) {
        PutUnique(v.cache, ps[0], byName[NameOf(ps[0])]);
      }
      LegacyCarryAllShape(v1, ps[1..], names, byName, disk);
      assert Rows(ps, names) == [row] + Rows(ps[1..], names);
      assert (v.items + [row]) + Rows(ps[1..], names) == v.items + ([row] + Rows(ps[1..], names));
    } else {
      assert v.items + [] == v.items;
    }
  }

  /** The older row loop only ever adds or overwrites entries: an unusable carried image leaves the old entry in place. */
  lemma {:induction false} LegacyCarryAllCache(v: View, ps: seq<Path>, names: set<string>, byName: map<string, Path>, disk: Disk, q: Path)
    requires Distinct(ps)
    ensures Lookup(LegacyCarryAll(v, ps, names, byName, disk).cache, q) ==
              if q in ps && Hit(q, byName, disk) then Some(byName[NameOf(q)]) else Lookup(v.cache, q)
    decreases |ps|
  {
    if |ps| > 0 {
      var v1 := LegacyCarry(v, ps[0], names, byName, disk);
      if Hit(ps[0], byName, disk) {
        LookupPut(v.cache, ps[0], byName[NameOf(ps[0])], q);
      }
      DistinctTail(ps);
      LegacyCarryAllCache(v1, ps[1..], names, byName, disk, q);
    }
  }

  lemma {:induction false} UncachedMeans(c: seq<Thumb>, ps: seq<Path>)
    ensures forall p :: p in Uncached(c, ps) <==> p in ps && Lookup(c, p).None?
  {
    if |ps| > 0 {
      UncachedMeans(c, ps[1..]);
      assert ps == [ps[0]] + ps[1..];
    }
  }

  lemma {:induction false} UncachedDistinct(c: seq<Thumb>, ps: seq<Path>)
    requires Distinct(ps)
    ensures Distinct(Uncached(c, ps))
  {
    if |ps| > 0 {
      DistinctTail(ps);
      UncachedDistinct(c, ps[1..]);
      UncachedMeans(c, ps[1..]);
      var t := Uncached(c, ps[1..]);
      var r := Uncached(c, ps);
      forall i, j | 0 <= i < j < |r| ensures r[i] != r[j] {
        if Lookup(c, ps[0]).None? {
          assert r == [ps[0]] + t;
          if i == 0 {
            assert r[j] == t[j - 1] && r[j] in t;
          } else {
            assert r[i] == t[i - 1] && r[j] == t[j - 1];
          }
        }
      }
    }
  }

  /** The older window's row loop, from the list as it was. */
  function LegacyBuilt(v: View, subdirs: seq<Path>, disk: Disk): View {
    LegacyCarryAll(Cleared(v), SortBy(subdirs, SubdirKey(false)), CheckedNames(v.items), ByName(v.cache), disk)
  }

  lemma LegacyUnfold(v: View, rootOk: bool, listing: Listing, disk: Disk)
    requires Valid(v) && rootOk && !listing.raises && |Directories(listing.entries)| > 0
    ensures var subdirs := Directories(listing.entries);
            var b := LegacyBuilt(v, subdirs, disk);
            var sorted := SortBy(subdirs, SubdirKey(false));
            LegacyPopulate(v, rootOk, listing, disk) == Dispatch(b, Uncached(b.cache, sorted), disk, true)
            && Valid(b) && b.items == Rows(sorted, CheckedNames(v.items)) && b.tasks == map[] && b.waiting == []
  {
    var subdirs := Directories(listing.entries);
    var sorted := SortBy(subdirs, SubdirKey(false));
    var v0 := Cleared(v);
    assert ByName(v0.cache) == ByName(v.cache);
    LegacyCarryAllShape(v0, sorted, CheckedNames(v.items), ByName(v.cache), disk);
    var b := LegacyBuilt(v, subdirs, disk);
    RowsAt(sorted, CheckedNames(v.items));
    assert Paths(b.items) == sorted;
  }

  /** When the root is not a folder, the listing raises, or it holds no folder, the older window is left cleared. */
  lemma LegacyPopulateEmpty(v: View, rootOk: bool, listing: Listing, disk: Disk)
    requires !rootOk || listing.raises || |Directories(listing.entries)| == 0
    ensures LegacyPopulate(v, rootOk, listing, disk) == Cleared(v)
  {
  }

  /**
   * The older window's refresh: rows as the newer window's but sorted by the
   * plain name, each checked exactly when a row of that name was checked
   * before.
   */
  lemma LegacyRows(v: View, rootOk: bool, listing: Listing, disk: Disk)
    requires Valid(v) && rootOk && !listing.raises && |Directories(listing.entries)| > 0
    ensures var r := LegacyPopulate(v, rootOk, listing, disk);
            Paths(r.items) == SortBy(Directories(listing.entries), SubdirKey(false))
            && forall i :: 0 <= i < |r.items| ==>
                 (r.items[i].name == NameOf(r.items[i].path)
                  && (r.items[i].checked <==>
                        exists j :: 0 <= j < |v.items| && v.items[j].checked && v.items[j].name == r.items[i].name))
  {
    var subdirs := Directories(listing.entries);
    var sorted := SortBy(subdirs, SubdirKey(false));
    LegacyUnfold(v, rootOk, listing, disk);
    var b := LegacyBuilt(v, subdirs, disk);
    DispatchValid(b, Uncached(b.cache, sorted), disk, true);
    var r := LegacyPopulate(v, rootOk, listing, disk);
    RowsAt(sorted, CheckedNames(v.items));
    forall i | 0 <= i < |r.items|
      ensures r.items[i].checked <==> exists j :: 0 <= j < |v.items| && v.items[j].checked && v.items[j].name == r.items[i].name
    {
      CheckedNamesMeans(v.items, r.items[i].name);
    }
  }

  /**
   * The older window's cache after a refresh: a usable image carried by name
   * is written; otherwise the folder's old entry, if any, stays, even when
   * its image is gone.
   */
  lemma LegacyCache(v: View, rootOk: bool, listing: Listing, disk: Disk, p: Path)
    requires Valid(v) && rootOk && !listing.raises && |Directories(listing.entries)| > 0
    requires Distinct(Directories(listing.entries)) && p in Directories(listing.entries)
    ensures var byName := ByName(v.cache);
            Lookup(LegacyPopulate(v, rootOk, listing, disk).cache, p) ==
              if Hit(p, byName, disk) then Some(byName[NameOf(p)]) else Lookup(v.cache, p)
  {
    var subdirs := Directories(listing.entries);
    var sorted := SortBy(subdirs, SubdirKey(false));
    SortBySpec(subdirs, SubdirKey(false));
    SortedDistinct(subdirs, false);
    LegacyUnfold(v, rootOk, listing, disk);
    var b := LegacyBuilt(v, subdirs, disk);
    DispatchValid(b, Uncached(b.cache, sorted), disk, true);
    assert p in multiset(sorted);
    LegacyCarryAllCache(Cleared(v), sorted, CheckedNames(v.items), ByName(v.cache), disk, p);
  }

  /**
   * The older window requests previews only for folders with no cache entry
   * at all: the first two get workers and the rest wait, in list order. A
   * folder whose old entry points at an image that is gone gets none.
   */
  lemma LegacyPool(v: View, rootOk: bool, listing: Listing, disk: Disk)
    requires Valid(v) && rootOk && !listing.raises && |Directories(listing.entries)| > 0
    requires Distinct(Directories(listing.entries))
    ensures var subdirs := Directories(listing.entries);
            var sorted := SortBy(subdirs, SubdirKey(false));
            var b := LegacyBuilt(v, subdirs, disk);
            var need := Uncached(b.cache, sorted);
            var k := Min(PoolSize, |need|);
            var r := LegacyPopulate(v, rootOk, listing, disk);
            Valid(r) && r.tasks.Keys == (set p | p in need[..k] && disk.isDir(p)) && r.waiting == need[k..]
            && forall p :: p in need <==> p in sorted && !Hit(p, ByName(v.cache), disk) && Lookup(v.cache, p).None?
  {
    var subdirs := Directories(listing.entries);
    var sorted := SortBy(subdirs, SubdirKey(false));
    SortBySpec(subdirs, SubdirKey(false));
    SortedDistinct(subdirs, false);
    LegacyUnfold(v, rootOk, listing, disk);
    var b := LegacyBuilt(v, subdirs, disk);
    var need := Uncached(b.cache, sorted);
    UncachedMeans(b.cache, sorted);
    UncachedDistinct(b.cache, sorted);
    DispatchValid(b, need, disk, true);
    DispatchFresh(b, need, disk, true);
    forall p | p in sorted
      ensures Lookup(b.cache, p).None? <==> !Hit(p, ByName(v.cache), disk) && Lookup(v.cache, p).None?
    {
      LegacyCarryAllCache(Cleared(v), sorted, CheckedNames(v.items), ByName(v.cache), disk, p);
    }
  }
}
