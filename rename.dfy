/**
 * Track renaming from a tracklist (utils/rename_manager.py).
 *
 * The GUI state the manager works on is held in fields: the rows of the
 * audio list (track-number label and title), the texts of the rename
 * window's entries, and whether that window exists. A tracklist file is
 * given by its lines (`None` when it cannot be read). The tag writes
 * `save_changes` attempts are returned rather than performed.
 */
module Rename {
  import opened Text

  /** One tracklist entry: (disc, number within the disc, track code, name). */
  datatype Track = Track(disc: nat, number: nat, code: string, name: string)

  /** One row of the audio list: the track-number label and the title. */
  datatype Row = Row(trackNo: string, title: string)

  /** The tags `save_changes` writes to one audio file when it has tags. */
  datatype TagWrite = TagWrite(path: string, title: string, trackNumber: string, discNumber: string)

  /** How `save_changes` ended: count mismatch, an index error on a missing row, or done. */
  datatype SaveOutcome = CountMismatch | RowMissing | Done

  // ---------------------------------------------------------------------
  // _load_txt_tracklist
  // ---------------------------------------------------------------------

  /** What follows "--" and precedes "--" in a header: "Set <digits>" or "Encore", ignoring case. */
  predicate HeaderCore(c: string)
  {
    Lower(c) == "encore" || (|c| > 4 && Lower(c[..4]) == "set " && AllDigits(c[4..]))
  }

  /** `^--\s*(Set \d+|Encore)\s*--$` (ignoring case) on a stripped line. */
  predicate IsSetHeader(line: string)
  {
    |line| >= 4 && line[..2] == "--" && line[|line| - 2..] == "--" && HeaderCore(Strip(line[2..|line| - 2]))
  }

  /**
   * `^(\d{3})-(d\d{1}t\d{2})\s-\s(.*)$` on a stripped line: the track code
   * and the name.
   */
  function TrackLine(line: string): (r: Option<(string, string)>)
    ensures r.Some? ==> |line| >= 12 && r.value == (line[4..9], line[12..])
  {
    if |line| >= 12 && AllDigits(line[..3]) && line[3] == '-' && line[4] == 'd' && IsDigit(line[5]) &&
       line[6] == 't' && IsDigit(line[7]) && IsDigit(line[8]) && IsSpace(line[9]) && line[10] == '-' &&
       IsSpace(line[11]) && '\n' !in line[12..]
    then Some((line[4..9], line[12..]))
    else None
  }

  /** The loop's state: the tracks so far, the disc counter and the track counter within the disc. */
  datatype ScanState = ScanState(tracks: seq<Track>, disc: nat, inDisc: nat)

  /** One line of the loop. */
  function Step(st: ScanState, raw: string): ScanState
  {
    var line := Strip(raw);
    if line == "" then st
    else if IsSetHeader(line) then ScanState(st.tracks, st.disc + 1, 0)
    else
      var t := TrackLine(line);
      if t.Some? then ScanState(st.tracks + [Track(st.disc, st.inDisc + 1, t.value.0, t.value.1)], st.disc, st.inDisc + 1)
      else st
  }

  /** The state after the loop has read `lines`. */
  function Scan(lines: seq<string>): ScanState
  {
    if |lines| == 0 then ScanState([], 0, 0) else Step(Scan(lines[..|lines| - 1]), lines[|lines| - 1])
  }

  /** `total_discs`: the disc counter when positive, else 1. */
  function TotalDiscs(disc: nat): (r: nat)
    ensures r >= 1 && (disc > 0 ==> r == disc)
  {
    if disc > 0 then disc else 1
  }

  /** The number of set headers among the lines. */
  function HeaderCount(lines: seq<string>): nat
  {
    if |lines| == 0 then 0
    else
      var line := Strip(lines[|lines| - 1]);
      HeaderCount(lines[..|lines| - 1]) + (if line != "" && IsSetHeader(line) then 1 else 0)
  }

  /** The track lines, in order, each with the number of headers before it, its code and its name. */
  function TrackEntries(lines: seq<string>): seq<(nat, string, string)>
  {
    if |lines| == 0 then []
    else
      var front := lines[..|lines| - 1];
      var line := Strip(lines[|lines| - 1]);
      var t := TrackLine(line);
      if line != "" && !IsSetHeader(line) && t.Some? then TrackEntries(front) + [(HeaderCount(front), t.value.0, t.value.1)]
      else TrackEntries(front)
  }

  /**
   * The numbering the counters produce: discs never decrease, the first
   * track of the file and of each disc is number 1, each further track of
   * the same disc is one more than the one before, and the in-disc counter
   * is the last track's number while its disc is current (0 otherwise).
   */
  predicate Numbered(st: ScanState)
  {
    var t := st.tracks;
    (forall j :: 0 < j < |t| ==>
       t[j - 1].disc <= t[j].disc && t[j].number == (if t[j].disc == t[j - 1].disc then t[j - 1].number + 1 else 1)) &&
    (|t| > 0 ==> t[0].number == 1 && t[|t| - 1].disc <= st.disc) &&
    st.inDisc == (if |t| > 0 && t[|t| - 1].disc == st.disc then t[|t| - 1].number else 0)
  }

  /** A line read keeps the numbering. */
  lemma StepNumbered(st: ScanState, raw: string)
    requires Numbered(st)
    ensures Numbered(Step(st, raw))
  {
    var line := Strip(raw);
    if line == "" {
      assert Step(st, raw) == st;
    } else if IsSetHeader(line) {
      assert Step(st, raw) == ScanState(st.tracks, st.disc + 1, 0);
      HeaderNumbered(st);
    } else {
      var t := TrackLine(line);
      if t.Some? {
        assert Step(st, raw) == ScanState(st.tracks + [Track(st.disc, st.inDisc + 1, t.value.0, t.value.1)], st.disc, st.inDisc + 1);
        TrackNumbered(st, t.value.0, t.value.1);
      } else {
        assert Step(st, raw) == st;
      }
    }
  }

  /** A header opens a disc with no tracks yet. */
  lemma HeaderNumbered(st: ScanState)
    requires Numbered(st)
    ensures Numbered(ScanState(st.tracks, st.disc + 1, 0))
  {
  }

  /** A track line adds the next track of the current disc. */
  lemma TrackNumbered(st: ScanState, code: string, name: string)
    requires Numbered(st)
    ensures Numbered(ScanState(st.tracks + [Track(st.disc, st.inDisc + 1, code, name)], st.disc, st.inDisc + 1))
  {
    var t := st.tracks + [Track(st.disc, st.inDisc + 1, code, name)];
    forall j | 0 < j < |t|
      ensures t[j - 1].disc <= t[j].disc && t[j].number == (if t[j].disc == t[j - 1].disc then t[j - 1].number + 1 else 1)
    {
      if j < |st.tracks| {
        assert t[j - 1] == st.tracks[j - 1] && t[j] == st.tracks[j];
      } else {
        assert t[j - 1] == st.tracks[j - 1];
      }
    }
  }

  /** The tracks read from any lines are numbered from 1 within each disc. */
  lemma {:induction false} ScanNumbered(lines: seq<string>)
    ensures Numbered(Scan(lines))
  {
    if |lines| > 0 {
      ScanNumbered(lines[..|lines| - 1]);
      StepNumbered(Scan(lines[..|lines| - 1]), lines[|lines| - 1]);
    }
  }

  /**
   * The tracks are exactly the track lines in order, each on the disc
   * counted by the headers before it, and the disc counter ends at the
   * number of headers.
   */
  lemma {:induction false} ScanContents(lines: seq<string>)
    ensures var st := Scan(lines);
            st.disc == HeaderCount(lines) && |st.tracks| == |TrackEntries(lines)| &&
            forall j :: 0 <= j < |st.tracks| ==>
              (st.tracks[j].disc, st.tracks[j].code, st.tracks[j].name) == TrackEntries(lines)[j]
  {
    if |lines| > 0 {
      ScanContents(lines[..|lines| - 1]);
    }
  }

  // ---------------------------------------------------------------------
  // save_changes
  // ---------------------------------------------------------------------

  /** The (disc, track) pair for position `idx`: from the tracklist, else disc 1 and track idx + 1. */
  function DiscTrack(tracks: seq<Track>, idx: nat): (nat, nat)
  {
    if idx < |tracks| then (tracks[idx].disc, tracks[idx].number) else (1, idx + 1)
  }

  /** The label "disc.track" a renamed row gets. */
  function Label(tracks: seq<Track>, idx: nat): string
  {
    var dt := DiscTrack(tracks, idx);
    NatToString(dt.0) + "." + NatToString(dt.1)
  }

  /** The rows after the loop has visited the first `n`: each row whose title differs from its entry is relabelled and retitled. */
  function Renamed(rows: seq<Row>, entries: seq<string>, tracks: seq<Track>, n: nat): (r: seq<Row>)
    requires n <= |rows| && n <= |entries|
    ensures |r| == |rows|
  {
    seq(|rows|, i requires 0 <= i < |rows| =>
      if i < n && rows[i].title != entries[i] then Row(Label(tracks, i), entries[i]) else rows[i])
  }

  /** Visiting one more row. */
  lemma RenamedStep(rows: seq<Row>, entries: seq<string>, tracks: seq<Track>, n: nat)
    requires n < |rows| && n < |entries|
    ensures Renamed(rows, entries, tracks, n + 1) ==
            if rows[n].title != entries[n] then Renamed(rows, entries, tracks, n)[n := Row(Label(tracks, n), entries[n])]
            else Renamed(rows, entries, tracks, n)
  {
  }

  /** The tag writes attempted for the first `n` rows: one per renamed row, in order. */
  function Attempts(rows: seq<Row>, entries: seq<string>, tracks: seq<Track>, files: seq<string>, totalDiscs: nat, n: nat): seq<TagWrite>
    requires n <= |rows| && n <= |entries| && n <= |files|
  {
    if n == 0 then []
    else
      var i := n - 1;
      var dt := DiscTrack(tracks, i);
      Attempts(rows, entries, tracks, files, totalDiscs, i) +
      (if rows[i].title != entries[i]
       then [TagWrite(files[i], entries[i], NatToString(dt.1), NatToString(dt.0) + "/" + NatToString(totalDiscs))]
       else [])
  }

  /** What `save_changes` leaves: how it ended, the rows, the tag writes attempted. */
  datatype SaveResult = SaveResult(outcome: SaveOutcome, rows: seq<Row>, attempts: seq<TagWrite>)

  /**
   * `save_changes` on values: nothing when the entry count differs from the
   * file count; otherwise the rows up to the first missing one are visited.
   */
  function Save(rows: seq<Row>, entries: seq<string>, tracks: seq<Track>, files: seq<string>, totalDiscs: nat): SaveResult
  {
    if |entries| != |files| then SaveResult(CountMismatch, rows, [])
    else
      var n := if |entries| <= |rows| then |entries| else |rows|;
      SaveResult(if |entries| <= |rows| then Done else RowMissing,
                 Renamed(rows, entries, tracks, n), Attempts(rows, entries, tracks, files, totalDiscs, n))
  }

  /**
   * The save does nothing exactly when the counts differ; it completes
   * exactly when every entry has a row; every row it completes shows its
   * entry's title, and it attempts at most one tag write per entry.
   */
  lemma SaveSpec(rows: seq<Row>, entries: seq<string>, tracks: seq<Track>, files: seq<string>, totalDiscs: nat)
    ensures var r := Save(rows, entries, tracks, files, totalDiscs);
            (r.outcome == CountMismatch <==> |entries| != |files|) &&
            (r.outcome == CountMismatch ==> r.rows == rows && r.attempts == []) &&
            (r.outcome == Done <==> |entries| == |files| && |entries| <= |rows|) &&
            |r.rows| == |rows| && |r.attempts| <= |entries| &&
            (r.outcome == Done ==> forall i :: 0 <= i < |entries| ==> r.rows[i].title == entries[i])
  {
    if |entries| == |files| {
      var n := if |entries| <= |rows| then |entries| else |rows|;
      AttemptsCount(rows, entries, tracks, files, totalDiscs, n);
      RenamedSpec(rows, entries, tracks, n);
    }
  }

  /**
   * After renaming, every visited row shows its entry's title; a row whose
   * title already matched is left exactly as it was; unvisited rows are
   * unchanged.
   */
  lemma RenamedSpec(rows: seq<Row>, entries: seq<string>, tracks: seq<Track>, n: nat)
    requires n <= |rows| && n <= |entries|
    ensures var r := Renamed(rows, entries, tracks, n);
            (forall i :: 0 <= i < n ==> r[i].title == entries[i]) &&
            (forall i :: 0 <= i < n && rows[i].title == entries[i] ==> r[i] == rows[i]) &&
            (forall i :: 0 <= i < n && rows[i].title != entries[i] ==> r[i].trackNo == Label(tracks, i)) &&
            (forall i :: n <= i < |rows| ==> r[i] == rows[i])
  {
  }

  /** Saving the same entries a second time changes no row and attempts no tag write. */
  lemma RenamedIdempotent(rows: seq<Row>, entries: seq<string>, tracks: seq<Track>, files: seq<string>, totalDiscs: nat, n: nat)
    requires n <= |rows| && n <= |entries| && n <= |files|
    ensures var r := Renamed(rows, entries, tracks, n);
            Renamed(r, entries, tracks, n) == r && Attempts(r, entries, tracks, files, totalDiscs, n) == []
  {
    var r := Renamed(rows, entries, tracks, n);
    NoAttempts(r, entries, tracks, files, totalDiscs, n);
  }

  /** Rows whose titles already match their entries draw no tag writes. */
  lemma {:induction false} NoAttempts(rows: seq<Row>, entries: seq<string>, tracks: seq<Track>, files: seq<string>, totalDiscs: nat, n: nat)
    requires n <= |rows| && n <= |entries| && n <= |files|
    requires forall i :: 0 <= i < n ==> rows[i].title == entries[i]
    ensures Attempts(rows, entries, tracks, files, totalDiscs, n) == []
  {
    if n > 0 {
      NoAttempts(rows, entries, tracks, files, totalDiscs, n - 1);
    }
  }

  /** The number of the first `n` rows whose title differs from their entry. */
  function Changed(rows: seq<Row>, entries: seq<string>, n: nat): (r: nat)
    requires n <= |rows| && n <= |entries|
    ensures r <= n
  {
    if n == 0 then 0 else Changed(rows, entries, n - 1) + (if rows[n - 1].title != entries[n - 1] then 1 else 0)
  }

  /** One tag write per renamed row. */
  lemma {:induction false} AttemptsCount(rows: seq<Row>, entries: seq<string>, tracks: seq<Track>, files: seq<string>, totalDiscs: nat, n: nat)
    requires n <= |rows| && n <= |entries| && n <= |files|
    ensures |Attempts(rows, entries, tracks, files, totalDiscs, n)| == Changed(rows, entries, n)
  {
    if n > 0 {
      AttemptsCount(rows, entries, tracks, files, totalDiscs, n - 1);
    }
  }


  /**
   * The loop of `save_changes` over the entries: a row whose title differs
   * is relabelled and retitled and its file's tag write is recorded; a
   * missing row stops the loop with an index error.
   */
  method SaveRows(rows: seq<Row>, entries: seq<string>, tracks: seq<Track>, files: seq<string>, totalDiscs: nat)
    returns (r: SaveResult)
    ensures r == Save(rows, entries, tracks, files, totalDiscs)
  {
    if |entries| != |files| {
      return SaveResult(CountMismatch, rows, []);
    }
    var rs := rows;
    var attempts := [];
    var idx := 0;
    while idx < |entries|
      invariant 0 <= idx <= |entries| && idx <= |rows|
      invariant rs == Renamed(rows, entries, tracks, idx)
      invariant attempts == Attempts(rows, entries, tracks, files, totalDiscs, idx)
    {
      if idx >= |rs| {
        return SaveResult(RowMissing, rs, attempts);
      }
      rs, attempts := SaveOne(rows, entries, tracks, files, totalDiscs, idx, rs, attempts);
      idx := idx + 1;
    }
    return SaveResult(Done, rs, attempts);
  }

  /** One pass of that loop, over row `idx`. */
  method SaveOne(rows: seq<Row>, entries: seq<string>, tracks: seq<Track>, files: seq<string>, totalDiscs: nat,
                 idx: nat, rs: seq<Row>, attempts: seq<TagWrite>)
    returns (rs': seq<Row>, attempts': seq<TagWrite>)
    requires idx < |rows| && idx < |entries| && |entries| == |files|
    requires rs == Renamed(rows, entries, tracks, idx)
    requires attempts == Attempts(rows, entries, tracks, files, totalDiscs, idx)
    ensures rs' == Renamed(rows, entries, tracks, idx + 1)
    ensures attempts' == Attempts(rows, entries, tracks, files, totalDiscs, idx + 1)
  {
    RenamedStep(rows, entries, tracks, idx);
    rs', attempts' := rs, attempts;
    var updatedTitle := entries[idx];
    var oldTitle := rs[idx].title;
    if oldTitle != updatedTitle {
      var dt := DiscTrack(tracks, idx);
      var trackNo := NatToString(dt.0) + "." + NatToString(dt.1);
      rs' := rs[idx := Row(trackNo, updatedTitle)];
      attempts' := attempts + [TagWrite(files[idx], updatedTitle, NatToString(dt.1), NatToString(dt.0) + "/" + NatToString(totalDiscs))];
    }
  }

  // ---------------------------------------------------------------------
  // _update_rename_window
  // ---------------------------------------------------------------------

  /** The entries with entry i showing tracklist name i, for every i both have. */
  function Overwritten(entries: seq<string>, tracks: seq<Track>): (r: seq<string>)
    ensures |r| == |entries|
  {
    seq(|entries|, i requires 0 <= i < |entries| => if i < |tracks| then tracks[i].name else entries[i])
  }

  /**
   * Importing a tracklist and then saving: every row the tracklist covers
   * shows the tracklist's name, and a row whose title changed is labelled
   * with the tracklist's disc and track.
   */
  lemma ImportThenSave(rows: seq<Row>, entries: seq<string>, tracks: seq<Track>)
    requires |entries| <= |rows|
    ensures var r := Renamed(rows, Overwritten(entries, tracks), tracks, |entries|);
            forall i :: 0 <= i < |entries| && i < |tracks| ==>
              r[i].title == tracks[i].name &&
              (rows[i].title != tracks[i].name ==> r[i].trackNo == NatToString(tracks[i].disc) + "." + NatToString(tracks[i].number))
  {
  }

  // ---------------------------------------------------------------------
  // The manager
  // ---------------------------------------------------------------------

  /** The titles of the rows: what a newly opened rename window's entries show. */
  function Titles(rows: seq<Row>): (r: seq<string>)
    ensures |r| == |rows| && forall i :: 0 <= i < |rows| ==> r[i] == rows[i].title
  {
    seq(|rows|, i requires 0 <= i < |rows| => rows[i].title)
  }

  class RenameManager {
    /** The audio list's rows. */
    var rows: seq<Row>
    /** The audio files, in the order of the rows. */
    var audioFiles: seq<string>
    /** `rename_window` exists. */
    var windowOpen: bool
    /** The texts of `track_title_entries`. */
    var entries: seq<string>
    /** `track_titles_txt`. */
    var trackTitlesTxt: seq<Track>
    /** `total_discs`. */
    var totalDiscs: nat

    constructor(rows0: seq<Row>, files: seq<string>)
      ensures rows == rows0 && audioFiles == files && !windowOpen && entries == [] && trackTitlesTxt == [] && totalDiscs == 1
    {
      rows, audioFiles := rows0, files;
      windowOpen, entries := false, [];
      trackTitlesTxt, totalDiscs := [], 1;
    }

    /** `_open_rename_window`: an open window stays as it is; otherwise one entry per row, holding its title. */
    method OpenRenameWindow()
      modifies this
      ensures old(windowOpen) ==> windowOpen && entries == old(entries)
      ensures !old(windowOpen) ==> windowOpen && entries == Titles(rows)
      ensures rows == old(rows) && audioFiles == old(audioFiles)
      ensures trackTitlesTxt == old(trackTitlesTxt) && totalDiscs == old(totalDiscs)
    {
      if windowOpen {
        return;
      }
      var es := [];
      for i := 0 to |rows|
        invariant es == Titles(rows[..i])
      {
        es := es + [rows[i].title];
      }
      assert rows[..|rows|] == rows;
      windowOpen, entries := true, es;
    }

    /** `_load_txt_tracklist`: the tracks and disc count read from the file; none and 1 when it cannot be read. */
    method LoadTxtTracklist(file: Option<seq<string>>)
      modifies this
      ensures file.None? ==> trackTitlesTxt == [] && totalDiscs == 1
      ensures file.Some? ==> trackTitlesTxt == Scan(file.value).tracks && totalDiscs == TotalDiscs(Scan(file.value).disc)
      ensures rows == old(rows) && audioFiles == old(audioFiles) && windowOpen == old(windowOpen) && entries == old(entries)
    {
      if file.None? {
        trackTitlesTxt, totalDiscs := [], 1;
        return;
      }
      var lines := file.value;
      var tracks := [];
      var disc: nat := 0;
      var trackInDisc: nat := 0;
      for i := 0 to |lines|
        invariant ScanState(tracks, disc, trackInDisc) == Scan(lines[..i])
      {
        assert lines[..i + 1][..i] == lines[..i];
        var line := Strip(lines[i]);
        if line == "" {
          continue;
        }
        if IsSetHeader(line) {
          disc := disc + 1;
          trackInDisc := 0;
          continue;
        }
        var m := TrackLine(line);
        if m.Some? {
          trackInDisc := trackInDisc + 1;
          tracks := tracks + [Track(disc, trackInDisc, m.value.0, m.value.1)];
        }
      }
      assert lines[..|lines|] == lines;
      trackTitlesTxt, totalDiscs := tracks, if disc > 0 then disc else 1;
    }

    /** `save_changes`, as `Save` describes it; a completed save closes the window. */
    method SaveChanges() returns (outcome: SaveOutcome, attempts: seq<TagWrite>)
      modifies this
      ensures SaveResult(outcome, rows, attempts) == Save(old(rows), entries, trackTitlesTxt, audioFiles, totalDiscs)
      ensures windowOpen == (if outcome == Done then false else old(windowOpen))
      ensures entries == old(entries) && audioFiles == old(audioFiles) && trackTitlesTxt == old(trackTitlesTxt) && totalDiscs == old(totalDiscs)
    {
      var r := SaveRows(rows, entries, trackTitlesTxt, audioFiles, totalDiscs);
      rows := r.rows;
      if r.outcome == Done {
        windowOpen := false;
      }
      return r.outcome, r.attempts;
    }

    /** `_update_rename_window`: with an open window and entries, entry i shows tracklist name i. */
    method UpdateRenameWindow()
      modifies this
      ensures entries == (if windowOpen && |old(entries)| > 0 then Overwritten(old(entries), trackTitlesTxt) else old(entries))
      ensures rows == old(rows) && audioFiles == old(audioFiles) && windowOpen == old(windowOpen)
      ensures trackTitlesTxt == old(trackTitlesTxt) && totalDiscs == old(totalDiscs)
    {
      if !windowOpen || |entries| == 0 {
        return;
      }
      var es := entries;
      for idx := 0 to |trackTitlesTxt|
        invariant es == Overwritten(entries, trackTitlesTxt[..idx])
      {
        if idx < |es| {
          es := es[idx := trackTitlesTxt[idx].name];
        }
      }
      assert trackTitlesTxt[..|trackTitlesTxt|] == trackTitlesTxt;
      entries := es;
    }
  }
}
