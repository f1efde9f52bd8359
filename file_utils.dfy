/**
 * The plain-text asset lists (utils/file_utils.py): one value per line,
 * loaded stripped and without blank lines, and extended by putting a new
 * value on top unless it is already there (ignoring case).
 *
 * A file is given by its lines (`None` when it does not exist); what would be
 * written is returned as the new list of lines.
 */
module FileUtils {
  import opened Text

  /** `[line.strip() for line in lines if line.strip()]`. */
  function CleanLines(lines: seq<string>): seq<string>
  {
    if |lines| == 0 then []
    else (if Strip(lines[0]) != "" then [Strip(lines[0])] else []) + CleanLines(lines[1..])
  }

  /** A line that is its own stripped, non-empty form. */
  predicate CleanLine(x: string)
  {
    x != "" && Strip(x) == x
  }

  /**
   * The kept lines are non-empty and stripped, each comes from a line of the
   * file, and every non-blank line of the file is kept.
   */
  lemma {:induction false} CleanLinesSpec(lines: seq<string>)
    ensures forall x :: x in CleanLines(lines) ==> CleanLine(x)
    ensures forall x :: x in CleanLines(lines) <==> exists i :: 0 <= i < |lines| && Strip(lines[i]) == x && x != ""
  {
    if |lines| > 0 {
      CleanLinesSpec(lines[1..]);
      StripIdempotent(lines[0]);
      forall x ensures x in CleanLines(lines) <==> exists i :: 0 <= i < |lines| && Strip(lines[i]) == x && x != "" {
        if x in CleanLines(lines[1..]) {
          var i :| 0 <= i < |lines[1..]| && Strip(lines[1..][i]) == x && x != "";
          assert lines[i + 1] == lines[1..][i];
        }
        if exists i :: 0 <= i < |lines| && Strip(lines[i]) == x && x != "" {
          var i :| 0 <= i < |lines| && Strip(lines[i]) == x && x != "";
          if i > 0 {
            assert lines[1..][i - 1] == lines[i];
          }
        }
      }
    }
  }

  /** Lines that are already clean are kept as they are. */
  lemma {:induction false} CleanLinesOfClean(lines: seq<string>)
    requires forall i :: 0 <= i < |lines| ==> CleanLine(lines[i])
    ensures CleanLines(lines) == lines
  {
    if |lines| > 0 {
      CleanLinesOfClean(lines[1..]);
    }
  }

  /** `load_text_list`: the clean lines of the file, or [] when it does not exist. */
  function LoadTextList(file: Option<seq<string>>): seq<string>
  {
    match file
    case None => []
    case Some(lines) => CleanLines(lines)
  }

  /** `normalize_string`: stripped and lower-cased, "" for `None` or "". */
  function NormalizeString(s: Option<string>): string
  {
    if s.None? || s.value == "" then "" else Lower(Strip(s.value))
  }

  /** Lower-casing neither creates nor removes whitespace. */
  lemma LowerKeepsSpace(s: string)
    ensures forall i :: 0 <= i < |s| ==> (IsSpace(Lower(s)[i]) <==> IsSpace(s[i]))
  {
  }

  /** Normalising a normalised string changes nothing. */
  lemma NormalizeIdempotent(s: Option<string>)
    ensures NormalizeString(Some(NormalizeString(s))) == NormalizeString(s)
  {
    if s.Some? && s.value != "" {
      var t := Strip(s.value);
      StripShape(s.value);
      LowerKeepsSpace(t);
      StripNoEnds(Lower(t));
      LowerIdempotent(t);
    }
  }

  /** Some line equals `v` ignoring case. */
  predicate PresentCI(lines: seq<string>, v: string)
  {
    exists i | 0 <= i < |lines| :: Lower(lines[i]) == Lower(v)
  }

  /**
   * `update_text_file`: the lines to write, or `None` when nothing is written
   * (a blank value, or a value already listed ignoring case).
   */
  function UpdatedLines(file: Option<seq<string>>, value: string): Option<seq<string>>
  {
    var v := Strip(value);
    if v == "" then None
    else
      var lines := LoadTextList(file);
      if PresentCI(lines, v) then None else Some([v] + lines)
  }

  /**
   * Nothing is written for a blank or already-listed value; otherwise the
   * stripped value goes on top of the old clean lines, and it is then listed.
   */
  lemma UpdatedLinesSpec(file: Option<seq<string>>, value: string)
    ensures var v := Strip(value);
            var r := UpdatedLines(file, value);
            (r.None? <==> v == "" || PresentCI(LoadTextList(file), v)) &&
            (r.Some? ==> r.value == [v] + LoadTextList(file) && PresentCI(r.value, v))
  {
    var v := Strip(value);
    var r := UpdatedLines(file, value);
    if r.Some? {
      assert Lower(r.value[0]) == Lower(v);
    }
  }

  /** Reading back what was written gives the same lines: they are all clean. */
  lemma UpdatedLinesReload(file: Option<seq<string>>, value: string)
    requires UpdatedLines(file, value).Some?
    ensures LoadTextList(Some(UpdatedLines(file, value).value)) == UpdatedLines(file, value).value
  {
    var r := UpdatedLines(file, value).value;
    CleanLinesSpec(if file.Some? then file.value else []);
    StripIdempotent(value);
    assert forall i :: 0 <= i < |r| ==> CleanLine(r[i]) by {
      forall i | 0 <= i < |r| ensures CleanLine(r[i]) {
        if i > 0 {
          assert r[i] in LoadTextList(file);
        }
      }
    }
    CleanLinesOfClean(r);
  }

  /** Adding the same value a second time writes nothing. */
  lemma UpdateTwiceNoop(file: Option<seq<string>>, value: string)
    requires UpdatedLines(file, value).Some?
    ensures UpdatedLines(Some(UpdatedLines(file, value).value), value).None?
  {
    var r := UpdatedLines(file, value).value;
    UpdatedLinesReload(file, value);
    assert Lower(r[0]) == Lower(Strip(value));
  }
}
