/**
 * The upward walk that deletes emptied folders after a move
 * (utils/processor.py `_cleanup_folder`, utils/process_thread.py
 * `remove_empty_parents`), over an abstract directory tree.
 *
 * The tree maps each directory's path to the names of its entries. Removing
 * a directory also removes its name from its parent. The walk starts at a
 * folder and climbs with `dirname`. It stops at a path that is not a
 * directory, at the stop folder, or at a folder that is not empty once
 * .DS_Store, Thumbs.db and desktop.ini are ignored. `os.rmdir` itself only
 * removes a folder with no entries at all, and its failure also ends the
 * walk, so as written a folder holding only ignored names is never removed
 * (`Walk`, `CruftExample`). The walk the rest of the model uses
 * (`WalkIntended`, `CleanupWalk`) deletes those names with their folder.
 */
module DirWalk {
  import opened Text

  /** Each directory's path, mapped to the names of its entries. */
  type Dirs = map<string, set<string>>

  /** The operating-system files the walk ignores when it lists a folder. */
  const Cruft: set<string> := {".DS_Store", "Thumbs.db", "desktop.ini"}

  /** The index of the last '/', or -1 when there is none. */
  function LastSlash(p: string): (r: int)
    ensures -1 <= r < |p|
    ensures r >= 0 ==> p[r] == '/'
    ensures forall k :: r < k < |p| ==> p[k] != '/'
  {
    if |p| == 0 then -1
    else if p[|p| - 1] == '/' then |p| - 1
    else LastSlash(p[..|p| - 1])
  }

  /** `os.path.dirname` on POSIX. */
  function Dirname(p: string): string
  {
    var head := p[..LastSlash(p) + 1];
    if head != "" && exists k | 0 <= k < |head| :: head[k] != '/' then RStripChars(head, {'/'}) else head
  }

  /** `os.path.basename` on POSIX. */
  function Basename(p: string): string
  {
    p[LastSlash(p) + 1..]
  }

  /** `os.rmdir(p)`: the directory goes, and so does its name in its parent. */
  function RemoveDir(dirs: Dirs, p: string): (r: Dirs)
    requires p in dirs
    ensures r.Keys == dirs.Keys - {p}
  {
    var parent := Dirname(p);
    var rest := dirs - {p};
    if parent in rest then rest[parent := rest[parent] - {Basename(p)}] else rest
  }

  /**
   * The walk as written: the removed folders in order and the tree after it.
   * A folder whose only entries are ignored names is not removed, because
   * `os.rmdir` refuses a folder that still holds them.
   */
  function Walk(dirs: Dirs, folder: string, stopAt: Option<string>): (Dirs, seq<string>)
    decreases |dirs.Keys|
  {
    if folder !in dirs || stopAt == Some(folder) || dirs[folder] - Cruft != {} || dirs[folder] != {} then (dirs, [])
    else
      var d := RemoveDir(dirs, folder);
      assert |d.Keys| < |dirs.Keys|;
      var w := Walk(d, Dirname(folder), stopAt);
      (w.0, [folder] + w.1)
  }

  /** One step of the walk: an empty folder other than the stop folder goes, and the walk climbs. */
  lemma WalkStep(dirs: Dirs, folder: string, stopAt: Option<string>)
    requires folder in dirs && stopAt != Some(folder) && dirs[folder] == {}
    ensures var next := Walk(RemoveDir(dirs, folder), Dirname(folder), stopAt);
            Walk(dirs, folder, stopAt) == (next.0, [folder] + next.1)
  {
  }

  /**
   * `_cleanup_folder` / `remove_empty_parents`: the `while True` loop, with
   * the ignored names deleted together with their folder (see `Walk` for the
   * loop as written, which stops at such a folder).
   */
  method CleanupWalk(dirs: Dirs, folder: string, stopAt: Option<string>) returns (result: Dirs, removed: seq<string>)
    ensures (result, removed) == WalkIntended(dirs, folder, stopAt)
  {
    result, removed := dirs, [];
    var path := folder;
    assert [] + WalkIntended(dirs, folder, stopAt).1 == WalkIntended(dirs, folder, stopAt).1;
    while true
      invariant WalkIntended(dirs, folder, stopAt) == Prefixed(removed, WalkIntended(result, path, stopAt))
      decreases |result.Keys|
    {
      if path !in result || (stopAt.Some? && path == stopAt.value) {
        break;
      }
      var entries := result[path] - Cruft;
      if entries != {} {
        break;
      }
      // The ignored names go together with the folder.
      IntendedStep(result, path, stopAt);
      PrefixedStep(removed, path, WalkIntended(RemoveDir(result, path), Dirname(path), stopAt));
      removed := removed + [path];
      result := RemoveDir(result, path);
      path := Dirname(path);
    }
    assert WalkIntended(result, path, stopAt) == (result, []);
    assert removed + [] == removed;
  }

  /** The walk result with `removed` put in front of its removed folders. */
  function Prefixed(removed: seq<string>, w: (Dirs, seq<string>)): (Dirs, seq<string>)
  {
    (w.0, removed + w.1)
  }

  lemma PrefixedStep(removed: seq<string>, path: string, w: (Dirs, seq<string>))
    ensures Prefixed(removed, (w.0, [path] + w.1)) == Prefixed(removed + [path], w)
  {
    assert removed + ([path] + w.1) == removed + [path] + w.1;
  }

  /** `rs` starts at `folder` and climbs: each entry is the parent of the one before. */
  predicate ParentChain(rs: seq<string>, folder: string)
  {
    (|rs| > 0 ==> rs[0] == folder) &&
    forall i :: 0 <= i < |rs| - 1 ==> rs[i + 1] == Dirname(rs[i])
  }

  /**
   * Exactly the folders `rs` are gone from `dirs` in `d`; each was a
   * directory and none is the stop folder.
   */
  ghost predicate RemovedExactly(dirs: Dirs, stopAt: Option<string>, d: Dirs, rs: seq<string>)
  {
    (forall p :: p in d <==> p in dirs && p !in rs) &&
    (forall r :: r in rs ==> r in dirs && stopAt != Some(r))
  }

  /**
   * The intended walk removes a chain of folders, each the parent of the one before,
   * starting at `folder`. None of them is the stop folder, each was a
   * directory, and exactly they are gone afterwards.
   */
  lemma {:induction false} WalkShape(dirs: Dirs, folder: string, stopAt: Option<string>)
    ensures var w := WalkIntended(dirs, folder, stopAt);
            ParentChain(w.1, folder) && RemovedExactly(dirs, stopAt, w.0, w.1)
    decreases |dirs.Keys|
  {
    if folder in dirs && stopAt != Some(folder) && dirs[folder] - Cruft == {} {
      var d := RemoveDir(dirs, folder);
      WalkShape(d, Dirname(folder), stopAt);
      var w := WalkIntended(d, Dirname(folder), stopAt);
      IntendedStep(dirs, folder, stopAt);
      ChainCons(w.1, folder);
      RemovedCons(dirs, folder, stopAt, w.0, w.1);
    }
  }

  lemma ChainCons(rs: seq<string>, folder: string)
    requires ParentChain(rs, Dirname(folder))
    ensures ParentChain([folder] + rs, folder)
  {
    var all := [folder] + rs;
    forall i | 0 <= i < |all| - 1 ensures all[i + 1] == Dirname(all[i]) {
      if i > 0 {
        assert all[i] == rs[i - 1] && all[i + 1] == rs[i];
      }
    }
  }

  lemma RemovedCons(dirs: Dirs, folder: string, stopAt: Option<string>, d: Dirs, rs: seq<string>)
    requires folder in dirs && stopAt != Some(folder)
    requires RemovedExactly(RemoveDir(dirs, folder), stopAt, d, rs)
    ensures RemovedExactly(dirs, stopAt, d, [folder] + rs)
  {
  }

  /** A folder whose only entries are ignored names stops the walk: nothing is removed. */
  lemma CruftBlocksWalk(dirs: Dirs, folder: string, stopAt: Option<string>)
    requires folder in dirs && dirs[folder] != {} && dirs[folder] <= Cruft
    ensures Walk(dirs, folder, stopAt) == (dirs, [])
  {
  }

  // ---------------------------------------------------------------------
  // The walk the ignore list is evidently meant to give
  // ---------------------------------------------------------------------

  /** The ignored names go together with the folder, so a folder holding only them is removed. */
  function WalkIntended(dirs: Dirs, folder: string, stopAt: Option<string>): (Dirs, seq<string>)
    decreases |dirs.Keys|
  {
    if folder !in dirs || stopAt == Some(folder) || dirs[folder] - Cruft != {} then (dirs, [])
    else
      var d := RemoveDir(dirs, folder);
      assert |d.Keys| < |dirs.Keys|;
      var w := WalkIntended(d, Dirname(folder), stopAt);
      (w.0, [folder] + w.1)
  }

  /**
   * A folder that is empty or holds only ignored names, other than the stop
   * folder, is removed first and is gone afterwards.
   */
  lemma IntendedRemovesCruftOnly(dirs: Dirs, folder: string, stopAt: Option<string>)
    requires folder in dirs && dirs[folder] <= Cruft && stopAt != Some(folder)
    ensures var w := WalkIntended(dirs, folder, stopAt);
            |w.1| > 0 && w.1[0] == folder && folder !in w.0
  {
    assert dirs[folder] - Cruft == {};
    IntendedStep(dirs, folder, stopAt);
    WalkShape(dirs, folder, stopAt);
  }

  /** No directory holds an ignored name. */
  predicate CruftFree(dirs: Dirs)
  {
    forall p :: p in dirs ==> dirs[p] * Cruft == {}
  }

  /** Where no folder holds ignored names, the walk as written and the intended walk agree. */
  lemma {:induction false} WalksAgree(dirs: Dirs, folder: string, stopAt: Option<string>)
    requires CruftFree(dirs)
    ensures Walk(dirs, folder, stopAt) == WalkIntended(dirs, folder, stopAt)
    decreases |dirs.Keys|
  {
    if folder in dirs && stopAt != Some(folder) && dirs[folder] - Cruft == {} {
      assert dirs[folder] == {} by {
        assert dirs[folder] * Cruft == {};
      }
      var d := RemoveDir(dirs, folder);
      RemoveKeepsCruftFree(dirs, folder);
      WalksAgree(d, Dirname(folder), stopAt);
      WalkStep(dirs, folder, stopAt);
      IntendedStep(dirs, folder, stopAt);
    }
  }

  lemma IntendedStep(dirs: Dirs, folder: string, stopAt: Option<string>)
    requires folder in dirs && stopAt != Some(folder) && dirs[folder] - Cruft == {}
    ensures var next := WalkIntended(RemoveDir(dirs, folder), Dirname(folder), stopAt);
            WalkIntended(dirs, folder, stopAt) == (next.0, [folder] + next.1)
  {
  }

  /** Removing a folder only removes entries, so no ignored name appears. */
  lemma RemoveKeepsCruftFree(dirs: Dirs, folder: string)
    requires CruftFree(dirs) && folder in dirs
    ensures CruftFree(RemoveDir(dirs, folder))
  {
    var d := RemoveDir(dirs, folder);
    forall p | p in d ensures d[p] * Cruft == {} {
      assert d[p] <= dirs[p];
    }
  }

  /**
   * A show folder holding only ".DS_Store" under a stop folder: the walk as
   * written removes nothing, the intended walk removes the show folder.
   */
  lemma CruftExample()
    ensures var dirs: Dirs := map["/m/show" := {".DS_Store"}, "/m" := {"show"}];
            Walk(dirs, "/m/show", Some("/m")).1 == [] &&
            WalkIntended(dirs, "/m/show", Some("/m")).1 == ["/m/show"]
  {
    var dirs: Dirs := map["/m/show" := {".DS_Store"}, "/m" := {"show"}];
    assert ".DS_Store" in Cruft;
    assert dirs["/m/show"] - Cruft == {};
    var p := "/m/show";
    assert p[2] == '/' && p[3] != '/' && p[4] != '/' && p[5] != '/' && p[6] != '/';
    assert LastSlash(p) == 2;
    var head := p[..3];
    assert head == "/m/" && head[1] != '/';
    assert head[..2] == "/m";
    assert RStripChars(head, {'/'}) == RStripChars("/m", {'/'});
    assert Dirname(p) == "/m";
    var d := RemoveDir(dirs, "/m/show");
    assert "/m" in d;
  }
}
