/**
 * The folder queue (utils/queue_manager.py): the queued folder paths in
 * order and the metadata stored for each, kept consistent — every path is
 * queued once and has exactly one metadata entry. The Treeview rows that
 * mirror the queue are not modelled; a selection is given as a parameter.
 */
module Queue {
  import opened Text

  /** The metadata dictionary stored for a folder. */
  type Metadata = map<string, string>

  /** `_normalize_path`: backslashes become forward slashes; "" stays "". */
  function NormalizePath(path: string): string
  {
    if path == "" then "" else ReplaceChar(path, '\\', "/")
  }

  /**
   * Normalising keeps the length and every character but the backslashes,
   * leaves none of them, is "" only for "", and changes nothing the second time.
   */
  lemma NormalizePathSpec(path: string)
    ensures var r := NormalizePath(path);
            |r| == |path| && (r == "" <==> path == "") && '\\' !in r &&
            (forall i :: 0 <= i < |path| ==> r[i] == if path[i] == '\\' then '/' else path[i]) &&
            NormalizePath(r) == r
  {
    ReplaceCharSpec(path, '\\', '/');
    var r := NormalizePath(path);
    ReplaceCharSpec(r, '\\', '/');
  }

  /** The queue invariant: no duplicates, and metadata for exactly the queued paths. */
  predicate Consistent(saved: seq<string>, meta: map<string, Metadata>)
  {
    NoDuplicates(saved) && (forall p :: p in meta ==> p in saved) && (forall i :: 0 <= i < |saved| ==> saved[i] in meta)
  }

  /** Python's `list.remove(x)`: the first occurrence goes. */
  function RemoveFirst(s: seq<string>, x: string): seq<string>
  {
    if |s| == 0 then [] else if s[0] == x then s[1..] else [s[0]] + RemoveFirst(s[1..], x)
  }

  /** The elements of `s` outside `xs`, in order. */
  function Without(s: seq<string>, xs: set<string>): seq<string>
  {
    if |s| == 0 then [] else (if s[0] in xs then [] else [s[0]]) + Without(s[1..], xs)
  }

  /** What `Without` keeps: the elements outside `xs`, each as often as before, in order. */
  lemma {:induction false} WithoutSpec(s: seq<string>, xs: set<string>)
    ensures forall y :: y in Without(s, xs) <==> y in s && y !in xs
    ensures |Without(s, xs)| <= |s|
    ensures NoDuplicates(s) ==> NoDuplicates(Without(s, xs))
  {
    if |s| > 0 {
      WithoutSpec(s[1..], xs);
      var r := Without(s, xs);
      var rest := Without(s[1..], xs);
      if NoDuplicates(s) && s[0] !in xs {
        assert NoDuplicates(s[1..]) by {
          forall i, j | 0 <= i < j < |s[1..]| ensures s[1..][i] != s[1..][j] {
            assert s[1..][i] == s[i + 1] && s[1..][j] == s[j + 1];
          }
        }
        assert s[0] !in s[1..] by {
          forall k | 0 <= k < |s[1..]| ensures s[1..][k] != s[0] {
            assert s[1..][k] == s[k + 1];
          }
        }
        forall i, j | 0 <= i < j < |r| ensures r[i] != r[j] {
          if i == 0 {
            assert r[j] == rest[j - 1] && rest[j - 1] in rest;
          } else {
            assert r[i] == rest[i - 1] && r[j] == rest[j - 1];
          }
        }
      } else if NoDuplicates(s) {
        assert NoDuplicates(s[1..]) by {
          forall i, j | 0 <= i < j < |s[1..]| ensures s[1..][i] != s[1..][j] {
            assert s[1..][i] == s[i + 1] && s[1..][j] == s[j + 1];
          }
        }
      }
    }
  }

  /** On a queue without duplicates, removing the first occurrence removes every occurrence. */
  lemma {:induction false} RemoveFirstNoDuplicates(s: seq<string>, x: string)
    requires NoDuplicates(s)
    ensures RemoveFirst(s, x) == Without(s, {x})
  {
    if |s| > 0 {
      if s[0] == x {
        assert x !in s[1..] by {
          forall k | 0 <= k < |s[1..]| ensures s[1..][k] != x {
            assert s[1..][k] == s[k + 1];
          }
        }
        WithoutNone(s[1..], {x});
      } else {
        assert NoDuplicates(s[1..]) by {
          forall i, j | 0 <= i < j < |s[1..]| ensures s[1..][i] != s[1..][j] {
            assert s[1..][i] == s[i + 1] && s[1..][j] == s[j + 1];
          }
        }
        RemoveFirstNoDuplicates(s[1..], x);
      }
    }
  }

  /** Removing values that do not occur changes nothing. */
  lemma {:induction false} WithoutNone(s: seq<string>, xs: set<string>)
    requires forall y :: y in xs ==> y !in s
    ensures Without(s, xs) == s
  {
    if |s| > 0 {
      assert s[0] in s;
      WithoutNone(s[1..], xs);
    }
  }

  /** Removing `xs` and then `ys` removes both. */
  lemma {:induction false} WithoutWithout(s: seq<string>, xs: set<string>, ys: set<string>)
    ensures Without(Without(s, xs), ys) == Without(s, xs + ys)
  {
    if |s| > 0 {
      WithoutWithout(s[1..], xs, ys);
      var r := Without(s, xs);
      if s[0] !in xs {
        assert r[0] == s[0] && r[1..] == Without(s[1..], xs);
      } else {
        assert r == Without(s[1..], xs);
      }
    }
  }

  // ---------------------------------------------------------------------
  // The queue operations on values
  // ---------------------------------------------------------------------

  /** `add` on the normalised path `n`: appended with its metadata unless empty or queued. */
  function Added(saved: seq<string>, meta: map<string, Metadata>, n: string, md: Metadata): (seq<string>, map<string, Metadata>)
  {
    if n == "" || n in saved then (saved, meta) else (saved + [n], meta[n := md])
  }

  /**
   * Adding keeps the queue consistent; a new non-empty path goes last with
   * its metadata; adding a queued path again changes neither the queue nor
   * its stored metadata.
   */
  lemma AddedSpec(saved: seq<string>, meta: map<string, Metadata>, n: string, md: Metadata)
    requires Consistent(saved, meta)
    ensures var (s, m) := Added(saved, meta, n, md);
            Consistent(s, m) &&
            (n != "" ==> n in s && n in m) &&
            (n != "" && n !in saved ==> s[|s| - 1] == n && m[n] == md) &&
            (n in saved ==> s == saved && m[n] == meta[n]) &&
            Added(s, m, n, md) == (s, m)
  {
    var (s, m) := Added(saved, meta, n, md);
    if n != "" && n !in saved {
      forall i, j | 0 <= i < j < |s| ensures s[i] != s[j] {
        if j == |saved| {
          assert s[i] == saved[i] && saved[i] in saved;
        }
      }
    }
  }

  /** `remove_folder` on the normalised path `n`. */
  function RemovedFolder(saved: seq<string>, meta: map<string, Metadata>, n: string): (seq<string>, map<string, Metadata>)
  {
    if n in saved then (RemoveFirst(saved, n), meta - {n}) else (saved, meta)
  }

  /** `r` is the queue with exactly the ids in `xs` dropped from both parts, and it is consistent. */
  predicate RemovedAs(r: (seq<string>, map<string, Metadata>), saved: seq<string>, meta: map<string, Metadata>, xs: set<string>)
  {
    r.0 == Without(saved, xs) && r.1 == meta - xs && Consistent(r.0, r.1)
  }

  /** On a consistent queue, removing a folder drops it from both and keeps everything else. */
  lemma RemovedFolderSpec(saved: seq<string>, meta: map<string, Metadata>, n: string)
    requires Consistent(saved, meta)
    ensures RemovedAs(RemovedFolder(saved, meta, n), saved, meta, {n}) && n !in RemovedFolder(saved, meta, n).0
  {
    RemoveFirstNoDuplicates(saved, n);
    WithoutSpec(saved, {n});
    if n !in saved {
      WithoutNone(saved, {n});
    }
    var r := RemovedFolder(saved, meta, n);
    forall i | 0 <= i < |r.0| ensures r.0[i] in r.1 {
      assert r.0[i] in r.0;
    }
  }

  /** `remove_selected`: each selected id that is queued leaves the queue and its metadata. */
  function RemovedSelected(saved: seq<string>, meta: map<string, Metadata>, selected: seq<string>): (seq<string>, map<string, Metadata>)
  {
    if |selected| == 0 then (saved, meta)
    else
      var r := RemovedSelected(saved, meta, selected[..|selected| - 1]);
      RemovedFolder(r.0, r.1, selected[|selected| - 1])
  }

  /**
   * On a consistent queue, removing the selection drops exactly the selected
   * ids from both, keeps the others in order, and leaves the queue consistent.
   */
  lemma {:induction false} RemovedSelectedSpec(saved: seq<string>, meta: map<string, Metadata>, selected: seq<string>)
    requires Consistent(saved, meta)
    ensures RemovedAs(RemovedSelected(saved, meta, selected), saved, meta, Elements(selected))
  {
    if |selected| == 0 {
      WithoutNone(saved, {});
      assert Elements(selected) == {};
    } else {
      var front := selected[..|selected| - 1];
      var x := selected[|selected| - 1];
      RemovedSelectedSpec(saved, meta, front);
      var r := RemovedSelected(saved, meta, front);
      RemovedFolderSpec(r.0, r.1, x);
      RemovedTwice(saved, meta, r, RemovedSelected(saved, meta, selected), Elements(front), {x});
      assert selected == front + [x];
      ElementsSnoc(front, x);
    }
  }

  /** Removing `xs` and then `ys` is removing both. */
  lemma RemovedTwice(saved: seq<string>, meta: map<string, Metadata>, r: (seq<string>, map<string, Metadata>),
                     r': (seq<string>, map<string, Metadata>), xs: set<string>, ys: set<string>)
    requires RemovedAs(r, saved, meta, xs) && RemovedAs(r', r.0, r.1, ys)
    ensures RemovedAs(r', saved, meta, xs + ys)
  {
    WithoutWithout(saved, xs, ys);
    assert meta - xs - ys == meta - (xs + ys);
  }

  /**
   * The queue clean-up after processing (utils/process_thread.py): each
   * processed folder leaves the queue if queued and its metadata if present.
   */
  function RemovedProcessed(saved: seq<string>, meta: map<string, Metadata>, processed: seq<string>): (seq<string>, map<string, Metadata>)
  {
    if |processed| == 0 then (saved, meta)
    else
      var r := RemovedProcessed(saved, meta, processed[..|processed| - 1]);
      var f := processed[|processed| - 1];
      (if f in r.0 then RemoveFirst(r.0, f) else r.0, r.1 - {f})
  }

  /**
   * On a consistent queue, the clean-up removes exactly the processed folders
   * from both and keeps every other folder and its metadata: it agrees with
   * removing them as a selection.
   */
  lemma {:induction false} RemovedProcessedSpec(saved: seq<string>, meta: map<string, Metadata>, processed: seq<string>)
    requires Consistent(saved, meta)
    ensures RemovedProcessed(saved, meta, processed) == RemovedSelected(saved, meta, processed)
    ensures RemovedAs(RemovedProcessed(saved, meta, processed), saved, meta, Elements(processed))
  {
    if |processed| > 0 {
      var front := processed[..|processed| - 1];
      RemovedProcessedSpec(saved, meta, front);
      RemovedSelectedSpec(saved, meta, front);
      var r := RemovedProcessed(saved, meta, front);
      var f := processed[|processed| - 1];
      if f !in r.0 {
        assert f !in r.1;
        assert r.1 - {f} == r.1;
      }
    }
    RemovedSelectedSpec(saved, meta, processed);
  }

  /** `saved_meta.get(norm_path, {})`. */
  function Lookup(meta: map<string, Metadata>, path: string): Metadata
  {
    var n := NormalizePath(path);
    if n in meta then meta[n] else map[]
  }

  /**
   * A path is looked up under its normalised form, so both spellings agree;
   * after adding a new path its metadata is what was given.
   */
  lemma LookupSpec(saved: seq<string>, meta: map<string, Metadata>, path: string, md: Metadata)
    ensures Lookup(meta, NormalizePath(path)) == Lookup(meta, path)
    ensures var n := NormalizePath(path);
            n != "" && n !in saved ==> Lookup(Added(saved, meta, n, md).1, path) == md
  {
    NormalizePathSpec(path);
  }

  // ---------------------------------------------------------------------
  // The queue object
  // ---------------------------------------------------------------------

  class QueueManager {
    /** The normalised folder paths, in queue order. */
    var saved: seq<string>
    /** The metadata stored for each queued path. */
    var savedMeta: map<string, Metadata>

    predicate Valid()
      reads this
    {
      Consistent(saved, savedMeta)
    }

    constructor()
      ensures saved == [] && savedMeta == map[] && Valid()
    {
      saved := [];
      savedMeta := map[];
    }

    /** `add`: the proposed name only labels the Treeview row. */
    method Add(folderPath: string, proposedName: string, metadata: Metadata)
      modifies this
      ensures (saved, savedMeta) == Added(old(saved), old(savedMeta), NormalizePath(folderPath), metadata)
      ensures old(Valid()) ==> Valid()
    {
      var normPath := NormalizePath(folderPath);
      if normPath == "" {
        return;
      }
      if normPath !in saved {
        saved := saved + [normPath];
        savedMeta := savedMeta[normPath := metadata];
      }
      if old(Valid()) {
        AddedSpec(old(saved), old(savedMeta), normPath, metadata);
      }
    }

    /** `remove_selected`, given the Treeview's selection. */
    method RemoveSelected(selected: seq<string>)
      modifies this
      ensures (saved, savedMeta) == RemovedSelected(old(saved), old(savedMeta), selected)
      ensures old(Valid()) ==> Valid()
    {
      if |selected| == 0 {
        return;
      }
      var i := 0;
      while i < |selected|
        invariant 0 <= i <= |selected|
        invariant (saved, savedMeta) == RemovedSelected(old(saved), old(savedMeta), selected[..i])
      {
        assert selected[..i + 1][..i] == selected[..i];
        var iid := selected[i];
        if iid in saved {
          saved := RemoveFirst(saved, iid);
          savedMeta := savedMeta - {iid};
        }
        i := i + 1;
      }
      assert selected[..i] == selected;
      if old(Valid()) {
        RemovedSelectedSpec(old(saved), old(savedMeta), selected);
      }
    }

    /** `remove_folder`: a no-op when the normalised path is not queued. */
    method RemoveFolder(folderPath: string)
      modifies this
      ensures (saved, savedMeta) == RemovedFolder(old(saved), old(savedMeta), NormalizePath(folderPath))
      ensures old(Valid()) ==> Valid()
    {
      var normPath := NormalizePath(folderPath);
      if normPath in saved {
        saved := RemoveFirst(saved, normPath);
        savedMeta := savedMeta - {normPath};
      }
      if old(Valid()) {
        RemovedFolderSpec(old(saved), old(savedMeta), normPath);
      }
    }

    /** `clear`. */
    method Clear()
      modifies this
      ensures saved == [] && savedMeta == map[] && Valid()
    {
      saved := [];
      savedMeta := map[];
    }

    /** `get_metadata`. */
    function GetMetadata(folderPath: string): (r: Metadata)
      reads this
      ensures Valid() && r != map[] ==> NormalizePath(folderPath) in saved
    {
      Lookup(savedMeta, folderPath)
    }

    /** `get_all_queued`: each queued folder once, in queue order, exactly those with metadata. */
    function GetAllQueued(): (r: seq<string>)
      reads this
      ensures Valid() ==> NoDuplicates(r) && forall p :: p in r <==> p in savedMeta
    {
      saved
    }

    /** The clean-up after a processing run: the processed folders leave the queue. */
    method RemoveProcessed(processed: seq<string>)
      modifies this
      ensures (saved, savedMeta) == RemovedProcessed(old(saved), old(savedMeta), processed)
      ensures old(Valid()) ==> Valid()
    {
      var i := 0;
      while i < |processed|
        invariant 0 <= i <= |processed|
        invariant (saved, savedMeta) == RemovedProcessed(old(saved), old(savedMeta), processed[..i])
      {
        assert processed[..i + 1][..i] == processed[..i];
        var folder := processed[i];
        if folder in saved {
          saved := RemoveFirst(saved, folder);
        }
        if folder in savedMeta {
          savedMeta := savedMeta - {folder};
        } else {
          assert savedMeta - {folder} == savedMeta;
        }
        i := i + 1;
      }
      assert processed[..i] == processed;
      if old(Valid()) {
        RemovedProcessedSpec(old(saved), old(savedMeta), processed);
      }
    }
  }
}
