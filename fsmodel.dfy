/**
 * The filesystem as the background tasks see it. Nothing here touches a disk:
 * every query the program makes (`is_dir`, `is_file`, `getsize`, `glob`,
 * `rglob`, `iterdir`, `os.walk`, `exists`) is answered by a value given in advance.
 */
module FsModel {
  import opened Wrappers
  import opened Names

  /** A path is its sequence of components; `a / b` appends a component. */
  type Path = seq<string>

  /** `Path.name`: the last component ("" for the empty path). */
  function NameOf(p: Path): string {
    if p == [] then "" else p[|p| - 1]
  }

  /** `Path.parent`. */
  function ParentOf(p: Path): Path {
    if p == [] then [] else p[..|p| - 1]
  }

  /** `folder / name`. */
  function Child(folder: Path, name: string): (p: Path)
    ensures NameOf(p) == name && ParentOf(p) == folder
  {
    folder + [name]
  }

  /** What `is_file()` / `is_dir()` report for a listed entry (both are false for, say, a broken link). */
  datatype Kind = File | Directory | OtherKind

  /**
   * One entry produced by a listing. `size` is what `os.path.getsize` returns,
   * `None` when it raises `OSError`.
   */
  datatype Entry = Entry(path: Path, kind: Kind, size: Option<nat>)

  /**
   * A lazy listing (`glob`, `rglob`, `iterdir`): it yields `entries` in order and,
   * when `raises` holds, raises an exception after the last of them.
   */
  datatype Listing = Listing(entries: seq<Entry>, raises: bool)

  /** One triple `(root, dirs, files)` yielded by `os.walk(..., topdown=False)`. */
  datatype WalkRow = WalkRow(dir: Path, hasDirs: bool, hasFiles: bool)

  /**
   * A folder the tasks are pointed at: whether it is a directory, and what each
   * kind of listing of it yields at the moment it is taken.
   */
  datatype Dir = Dir(
    path: Path,
    isDir: bool,
    children: Listing,       // glob("*") and iterdir()
    grandchildren: Listing,  // glob("*/*")
    tree: Listing,           // rglob("*")
    walk: seq<WalkRow>)      // os.walk bottom-up, taken during cleanup

  /** The merge target: whether it exists and the names it currently holds. */
  datatype Target = Target(path: Path, present: bool, names: set<string>)

  /** `SUPPORTED_IMAGE_EXTENSIONS` of the packaged worker and of src/worker.py. */
  const SupportedExtensions: set<string> :=
    {".png", ".jpg", ".jpeg", ".bmp", ".gif", ".tif", ".tiff", ".webp", ".heic"}

  /** The same set in the all-in-one merge_subfolders.py: no ".heic". */
  const LegacyExtensions: set<string> :=
    {".png", ".jpg", ".jpeg", ".bmp", ".gif", ".tif", ".tiff", ".webp"}

  function Extensions(legacy: bool): set<string> {
    if legacy then LegacyExtensions else SupportedExtensions
  }

  /** `item.is_file() and item.suffix.lower() in SUPPORTED_IMAGE_EXTENSIONS`. */
  predicate IsImage(e: Entry, exts: set<string>) {
    e.kind == File && Lower(Suffix(NameOf(e.path))) in exts
  }

  /** The supported image files of a listing, in listing order. */
  function Images(es: seq<Entry>, exts: set<string>): seq<Path> {
    if es == [] then []
    else (if IsImage(es[0], exts) then [es[0].path] else []) + Images(es[1..], exts)
  }

  lemma {:induction false} ImagesAppend(a: seq<Entry>, b: seq<Entry>, exts: set<string>)
    ensures Images(a + b, exts) == Images(a, exts) + Images(b, exts)
  {
    if a == [] {
      assert a + b == b;
    } else {
      assert (a + b)[1..] == a[1..] + b;
      ImagesAppend(a[1..], b, exts);
    }
  }

  lemma ImagesOne(e: Entry, exts: set<string>)
    ensures Images([e], exts) == if IsImage(e, exts) then [e.path] else []
  {
    assert [e][1..] == [];
  }

  /** The directories of a listing, in listing order. */
  function Directories(es: seq<Entry>): seq<Path> {
    if es == [] then []
    else (if es[0].kind == Directory then [es[0].path] else []) + Directories(es[1..])
  }

  lemma {:induction false} DirectoriesAppend(a: seq<Entry>, b: seq<Entry>)
    ensures Directories(a + b) == Directories(a) + Directories(b)
  {
    if a == [] {
      assert a + b == b;
    } else {
      assert (a + b)[1..] == a[1..] + b;
      DirectoriesAppend(a[1..], b);
    }
  }

  /** The suffix is compared lower-cased; the all-in-one variant does not know ".heic". */
  lemma ExtensionExamples()
    ensures IsImage(Entry(["r", "IMG.JPG"], File, None), SupportedExtensions)
    ensures IsImage(Entry(["r", "a.heic"], File, None), SupportedExtensions)
    ensures !IsImage(Entry(["r", "a.heic"], File, None), LegacyExtensions)
    ensures !IsImage(Entry(["r", ".png"], File, None), SupportedExtensions)
    ensures !IsImage(Entry(["r", "a.png"], Directory, None), SupportedExtensions)
  {
    var jpg := "IMG.JPG";
    assert jpg[3] == '.' && jpg[4] != '.' && jpg[5] != '.' && jpg[6] != '.';
    LastDotMeans(jpg);
    assert LastDot(jpg) == 3;
    assert Suffix(jpg) == ".JPG";
    assert Lower(".JPG") == ".jpg";
    var heic := "a.heic";
    assert heic[1] == '.' && heic[2] != '.' && heic[3] != '.' && heic[4] != '.' && heic[5] != '.';
    LastDotMeans(heic);
    assert LastDot(heic) == 1;
    assert Suffix(heic) == ".heic";
    assert Lower(".heic") == ".heic";
    assert ".png"[..3] == ".pn" && ".png"[..3][..2] == ".p" && ".png"[..3][..2][..1] == ".";
    assert LastDot(".png") == 0;
    assert Suffix(".png") == "";
  }
}
