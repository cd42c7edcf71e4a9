/**
 * The standalone empty-folder remover (`remove_empty.py`): walk a folder
 * bottom-up and `rmdir` every directory below it whose walk row lists no
 * files and no subdirectories, or only report them in a dry run. The walk
 * is the sequence of rows `os.walk(root, topdown=False)` yields, each row's
 * listing taken before any directory below it is removed; whether each
 * `rmdir` succeeds is a parameter.
 */
module Pruner {
  import opened FsModel

  /** A row the loop acts on: not the root itself, and listing nothing. */
  predicate Candidate(root: Path, row: WalkRow) {
    row.dir != root && !row.hasDirs && !row.hasFiles
  }

  /** Reference definition: the directories the loop acts on, in walk order. */
  function Candidates(root: Path, rows: seq<WalkRow>): seq<Path> {
    if |rows| == 0 then []
    else (if Candidate(root, rows[0]) then [rows[0].dir] else []) + Candidates(root, rows[1..])
  }

  /** The candidates whose `rmdir` succeeds, in walk order. */
  function Pruned(root: Path, rows: seq<WalkRow>, rmdirOk: Path -> bool): seq<Path> {
    if |rows| == 0 then []
    else (if Candidate(root, rows[0]) && rmdirOk(rows[0].dir) then [rows[0].dir] else []) + Pruned(root, rows[1..], rmdirOk)
  }

  /** What `remove_empty_folders` removes: nothing for a non-folder or a dry run. */
  function Removal(rootIsDir: bool, root: Path, rows: seq<WalkRow>, dryRun: bool, rmdirOk: Path -> bool): seq<Path> {
    if !rootIsDir || dryRun then [] else Pruned(root, rows, rmdirOk)
  }

  /** What a dry run reports as "Would remove", in walk order. */
  function Report(rootIsDir: bool, root: Path, rows: seq<WalkRow>, dryRun: bool): seq<Path> {
    if !rootIsDir || !dryRun then [] else Candidates(root, rows)
  }

  /**
   * `remove_empty_folders(root_dir, dry_run)`: the count it returns, the
   * directories it removed and, in a dry run, the ones it would remove.
   */
  method RemoveEmptyFolders(rootIsDir: bool, root: Path, rows: seq<WalkRow>, dryRun: bool, rmdirOk: Path -> bool)
    returns (count: nat, removed: seq<Path>, reported: seq<Path>)
    ensures removed == Removal(rootIsDir, root, rows, dryRun, rmdirOk) && count == |removed|
    ensures reported == Report(rootIsDir, root, rows, dryRun)
  {
    count := 0;
    removed := [];
    reported := [];
    if !rootIsDir {
      return;
    }
    for i := 0 to |rows|
      invariant count == |removed|
      invariant dryRun ==> removed == [] && reported + Candidates(root, rows[i..]) == Candidates(root, rows)
      invariant !dryRun ==> reported == [] && removed + Pruned(root, rows[i..], rmdirOk) == Pruned(root, rows, rmdirOk)
    {
      assert rows[i..][1..] == rows[i + 1..];
      var row := rows[i];
      if row.dir == root {
        continue;
      }
      if !row.hasFiles && !row.hasDirs {
        if dryRun {
          reported := reported + [row.dir];
        } else if rmdirOk(row.dir) {
          removed := removed + [row.dir];
          count := count + 1;
        }
      }
    }
    assert rows[|rows|..] == [];
  }

  /**
   * `main`: 1 when the path does not exist, otherwise 0 after pruning it,
   * also when it is a file (which `remove_empty_folders` refuses).
   */
  method ExitStatus(present: bool, rootIsDir: bool, root: Path, rows: seq<WalkRow>, dryRun: bool, rmdirOk: Path -> bool)
    returns (code: int, removed: seq<Path>)
    ensures code == (if present then 0 else 1)
    ensures removed == (if present then Removal(rootIsDir, root, rows, dryRun, rmdirOk) else [])
  {
    if !present {
      return 1, [];
    }
    var count, reported;
    count, removed, reported := RemoveEmptyFolders(rootIsDir, root, rows, dryRun, rmdirOk);
    code := 0;
  }

  // ---------------------------------------------------------------- properties

  lemma {:induction false} CandidatesMeans(root: Path, rows: seq<WalkRow>)
    ensures forall p :: p in Candidates(root, rows) <==> exists i :: 0 <= i < |rows| && rows[i].dir == p && Candidate(root, rows[i])
  {
    if |rows| > 0 {
      CandidatesMeans(root, rows[1..]);
      forall p | p in Candidates(root, rows[1..])
        ensures exists i :: 0 <= i < |rows| && rows[i].dir == p && Candidate(root, rows[i])
      {
        var i :| 0 <= i < |rows[1..]| && rows[1..][i].dir == p && Candidate(root, rows[1..][i]);
        assert rows[i + 1] == rows[1..][i];
      }
      forall p | exists i :: 0 <= i < |rows| && rows[i].dir == p && Candidate(root, rows[i])
        ensures p in Candidates(root, rows)
      {
        var i :| 0 <= i < |rows| && rows[i].dir == p && Candidate(root, rows[i]);
        if i > 0 {
          assert rows[1..][i - 1] == rows[i];
        }
      }
    }
  }

  lemma {:induction false} PrunedMeans(root: Path, rows: seq<WalkRow>, rmdirOk: Path -> bool)
    ensures forall p :: p in Pruned(root, rows, rmdirOk) <==> p in Candidates(root, rows) && rmdirOk(p)
  {
    if |rows| > 0 {
      PrunedMeans(root, rows[1..], rmdirOk);
    }
  }

  /**
   * A directory is removed exactly when the tool is not in a dry run, the
   * root is a folder, and the directory is below the root, its walk row
   * listed neither files nor subdirectories, and its `rmdir` succeeded.
   */
  lemma RemovalMeans(rootIsDir: bool, root: Path, rows: seq<WalkRow>, dryRun: bool, rmdirOk: Path -> bool, p: Path)
    ensures p in Removal(rootIsDir, root, rows, dryRun, rmdirOk) <==>
              rootIsDir && !dryRun && rmdirOk(p)
              && exists i :: 0 <= i < |rows| && rows[i].dir == p && p != root && !rows[i].hasDirs && !rows[i].hasFiles
  {
    PrunedMeans(root, rows, rmdirOk);
    CandidatesMeans(root, rows);
  }

  /** The root itself is never removed, nor reported. */
  lemma RootKept(rootIsDir: bool, root: Path, rows: seq<WalkRow>, dryRun: bool, rmdirOk: Path -> bool)
    ensures root !in Removal(rootIsDir, root, rows, dryRun, rmdirOk)
    ensures root !in Report(rootIsDir, root, rows, dryRun)
  {
    RemovalMeans(rootIsDir, root, rows, dryRun, rmdirOk, root);
    CandidatesMeans(root, rows);
  }

  /**
   * A directory whose row listed a subdirectory is kept, even when that
   * subdirectory was removed earlier in the same walk: the listing was taken
   * first, so nested empty folders go one level per run.
   */
  lemma ParentKept(root: Path, rows: seq<WalkRow>, rmdirOk: Path -> bool, i: nat)
    requires i < |rows| && rows[i].hasDirs
    requires forall j :: 0 <= j < |rows| && rows[j].dir == rows[i].dir ==> j == i
    ensures rows[i].dir !in Pruned(root, rows, rmdirOk)
  {
    PrunedMeans(root, rows, rmdirOk);
    CandidatesMeans(root, rows);
  }

  /** A dry run removes nothing and so returns 0; what it reports is what a run whose every `rmdir` succeeds removes. */
  lemma DryRunRemovesNothing(rootIsDir: bool, root: Path, rows: seq<WalkRow>, rmdirOk: Path -> bool)
    ensures Removal(rootIsDir, root, rows, true, rmdirOk) == []
    ensures Report(rootIsDir, root, rows, true) == Removal(rootIsDir, root, rows, false, (p: Path) => true)
  {
    if rootIsDir {
      AllSucceed(root, rows);
    }
  }

  lemma {:induction false} AllSucceed(root: Path, rows: seq<WalkRow>)
    ensures Pruned(root, rows, (p: Path) => true) == Candidates(root, rows)
  {
    if |rows| > 0 {
      AllSucceed(root, rows[1..]);
    }
  }

  /** A failed `rmdir` is not counted and the walk goes on: failures only ever take directories out. */
  lemma {:induction false} PrunedSubset(root: Path, rows: seq<WalkRow>, rmdirOk: Path -> bool)
    ensures |Pruned(root, rows, rmdirOk)| <= |Candidates(root, rows)|
    ensures |Pruned(root, rows, rmdirOk)| == |Candidates(root, rows)| <==> forall p :: p in Candidates(root, rows) ==> rmdirOk(p)
  {
    if |rows| > 0 {
      PrunedSubset(root, rows[1..], rmdirOk);
      var r := rows[1..];
      if Candidate(root, rows[0]) {
        assert Candidates(root, rows) == [rows[0].dir] + Candidates(root, r);
        assert forall p :: p in Candidates(root, rows) <==> p == rows[0].dir || p in Candidates(root, r);
      } else {
        assert Candidates(root, rows) == Candidates(root, r);
      }
    }
  }
}
