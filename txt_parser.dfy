/**
 * The text-file reader of a show folder (utils/txt_parser.py,
 * `TxtMetadataParser.parse`).
 *
 * The folder listing and the file contents are inputs. `Entry.lines` is
 * `None` for an entry that is not a readable file. Every `.txt` file is read
 * line by line. Labelled lines ("Artist:", "Venue:", "City:"/"Location:")
 * come first, then the known artist, venue and city lists. The source and the
 * format are guessed from the audio base name. The first file, longest first,
 * that yields any field supplies the result.
 */
module TxtParser {
  import opened Text
  import MetadataMerge
  import SchemeLang

  /** One name from the folder listing, with the lines it holds when it is a readable file. */
  datatype Entry = Entry(name: string, lines: Option<seq<string>>)

  /** The known-value lists the parser object is built with (`None` lists become []). */
  datatype Lists = Lists(artists: seq<string>, venues: seq<string>, cities: seq<string>)

  /** The fields the labelled-line pass can set. */
  datatype Label = ArtistLabel | VenueLabel | CityLabel

  /** The five values one file yields ("" when not found). */
  datatype Fields = Fields(artist: string, venue: string, city: string, source: string, format: string)

  // ---------------------------------------------------------------------
  // Labelled lines
  // ---------------------------------------------------------------------

  /** The label a line carries: its stripped, lower-cased text starts with it. */
  function LabelOf(line: string): Option<Label>
  {
    var l := Lower(Strip(line));
    if StartsWith(l, "artist:") then Some(ArtistLabel)
    else if StartsWith(l, "venue:") then Some(VenueLabel)
    else if StartsWith(l, "city:") || StartsWith(l, "location:") then Some(CityLabel)
    else None
  }

  /** The text after the label (and the ':'), stripped; "" for an unlabelled line. */
  function LabelRest(line: string): string
  {
    var s := Strip(line);
    var l := Lower(s);
    if StartsWith(l, "artist:") then Strip(s[7..])
    else if StartsWith(l, "venue:") then Strip(s[6..])
    else if StartsWith(l, "city:") then Strip(s[5..])
    else if StartsWith(l, "location:") then Strip(s[9..])
    else ""
  }

  // The last-occurrence reasoning is stated for any labelling `tag` of lines, so
  // the proofs about positions never look inside `LabelOf`.

  /** The position of the last line that `tag` maps to `Some(lab)`. */
  function LastIndex(lines: seq<string>, tag: string -> Option<Label>, lab: Label): (r: Option<nat>)
    ensures r.Some? ==> r.value < |lines|
  {
    if |lines| == 0 then None
    else if tag(lines[|lines| - 1]) == Some(lab) then Some(|lines| - 1)
    else LastIndex(lines[..|lines| - 1], tag, lab)
  }

  /** Some line is labelled `lab`. */
  predicate Carries(lines: seq<string>, tag: string -> Option<Label>, lab: Label)
  {
    exists i :: 0 <= i < |lines| && tag(lines[i]) == Some(lab)
  }

  /** Line `i` is labelled `lab` and no later line is. */
  predicate LastWith(lines: seq<string>, tag: string -> Option<Label>, lab: Label, i: nat)
    requires i < |lines|
  {
    tag(lines[i]) == Some(lab) && forall j :: i < j < |lines| ==> tag(lines[j]) != Some(lab)
  }

  /** `LastIndex` finds the last line labelled `lab`, and nothing when none is. */
  lemma {:induction false} LastIndexSpec(lines: seq<string>, tag: string -> Option<Label>, lab: Label)
    ensures LastIndex(lines, tag, lab).None? <==> !Carries(lines, tag, lab)
    ensures LastIndex(lines, tag, lab).Some? ==> LastWith(lines, tag, lab, LastIndex(lines, tag, lab).value)
  {
    if |lines| > 0 {
      var init := lines[..|lines| - 1];
      LastIndexSpec(init, tag, lab);
      if LastIndex(lines, tag, lab).None? {
        LastIndexNone(lines, tag, lab);
      } else if tag(lines[|lines| - 1]) != Some(lab) {
        LastIndexEarlier(lines, tag, lab, LastIndex(init, tag, lab).value);
      }
    }
  }

  lemma LastIndexNone(lines: seq<string>, tag: string -> Option<Label>, lab: Label)
    requires |lines| > 0 && tag(lines[|lines| - 1]) != Some(lab)
    requires !Carries(lines[..|lines| - 1], tag, lab)
    ensures !Carries(lines, tag, lab)
  {
    var init := lines[..|lines| - 1];
    forall j | 0 <= j < |lines| ensures tag(lines[j]) != Some(lab) {
      if j < |init| {
        assert lines[j] == init[j];
      }
    }
  }

  lemma LastIndexEarlier(lines: seq<string>, tag: string -> Option<Label>, lab: Label, i: nat)
    requires |lines| > 0 && tag(lines[|lines| - 1]) != Some(lab)
    requires i < |lines| - 1 && LastWith(lines[..|lines| - 1], tag, lab, i)
    ensures LastWith(lines, tag, lab, i)
  {
    var init := lines[..|lines| - 1];
    assert lines[i] == init[i];
    forall j | i < j < |lines| ensures tag(lines[j]) != Some(lab) {
      if j < |init| {
        assert lines[j] == init[j];
      }
    }
  }

  /** A labelled line in the later block hides every earlier one. */
  lemma {:induction false} LastIndexAppend(a: seq<string>, b: seq<string>, tag: string -> Option<Label>, lab: Label)
    ensures LastIndex(a + b, tag, lab) ==
              if LastIndex(b, tag, lab).Some? then Some(|a| + LastIndex(b, tag, lab).value)
              else LastIndex(a, tag, lab)
  {
    if |b| == 0 {
      assert a + b == a;
    } else {
      var b' := b[..|b| - 1];
      assert (a + b)[..|a + b| - 1] == a + b';
      assert (a + b)[|a + b| - 1] == b[|b| - 1];
      LastIndexAppend(a, b', tag, lab);
    }
  }

  /** `rest` of the last line labelled `lab`, or "" when no line is. */
  function LastValue(lines: seq<string>, tag: string -> Option<Label>, rest: string -> string, lab: Label): string
  {
    var k := LastIndex(lines, tag, lab);
    if k.None? then "" else rest(lines[k.value])
  }

  /** A labelled line in the later block decides the value. */
  lemma LastValueAppend(a: seq<string>, b: seq<string>, tag: string -> Option<Label>, rest: string -> string, lab: Label)
    ensures LastValue(a + b, tag, rest, lab) ==
              if Carries(b, tag, lab) then LastValue(b, tag, rest, lab) else LastValue(a, tag, rest, lab)
  {
    LastIndexAppend(a, b, tag, lab);
    LastIndexSpec(b, tag, lab);
    var kb := LastIndex(b, tag, lab);
    if kb.Some? {
      assert (a + b)[|a| + kb.value] == b[kb.value];
    } else {
      var ka := LastIndex(a, tag, lab);
      if ka.Some? {
        assert (a + b)[ka.value] == a[ka.value];
      }
    }
  }

  /** One more line sets the value exactly when it is labelled `lab`. */
  lemma LastValueSnoc(lines: seq<string>, line: string, tag: string -> Option<Label>, rest: string -> string, lab: Label)
    ensures LastValue(lines + [line], tag, rest, lab) ==
              if tag(line) == Some(lab) then rest(line) else LastValue(lines, tag, rest, lab)
  {
    var all := lines + [line];
    assert all[..|all| - 1] == lines;
    assert all[|all| - 1] == line;
    var k := LastIndex(lines, tag, lab);
    if k.Some? {
      assert all[k.value] == lines[k.value];
    }
  }

  /** The value given by the last line carrying `lab`, or "" when no line carries it. */
  function LastLabelled(lines: seq<string>, lab: Label): string
  {
    LastValue(lines, LabelOf, LabelRest, lab)
  }

  /** Some line carries the label. */
  predicate HasLabel(lines: seq<string>, lab: Label)
  {
    exists i :: 0 <= i < |lines| && LabelOf(lines[i]) == Some(lab)
  }

  lemma HasLabelCarries(lines: seq<string>, lab: Label)
    ensures HasLabel(lines, lab) <==> Carries(lines, LabelOf, lab)
  {
    if HasLabel(lines, lab) {
      var i :| 0 <= i < |lines| && LabelOf(lines[i]) == Some(lab);
      assert LabelOf(lines[i]) == Some(lab);
    }
  }

  /**
   * A labelled value is the stripped text of the last line with that label,
   * and "" when no line has it.
   */
  lemma LastLabelledSpec(lines: seq<string>, lab: Label)
    ensures !HasLabel(lines, lab) ==> LastLabelled(lines, lab) == ""
    ensures HasLabel(lines, lab) ==>
              exists i :: 0 <= i < |lines| && LabelOf(lines[i]) == Some(lab) &&
                LastLabelled(lines, lab) == LabelRest(lines[i]) &&
                forall j :: i < j < |lines| ==> LabelOf(lines[j]) != Some(lab)
  {
    LastIndexSpec(lines, LabelOf, lab);
    HasLabelCarries(lines, lab);
  }

  /** A later labelled line overrides every earlier one. */
  lemma LastLabelledAppend(a: seq<string>, b: seq<string>, lab: Label)
    ensures LastLabelled(a + b, lab) == if HasLabel(b, lab) then LastLabelled(b, lab) else LastLabelled(a, lab)
  {
    LastValueAppend(a, b, LabelOf, LabelRest, lab);
    HasLabelCarries(b, lab);
  }

  /** One more line: it sets the value when it carries the label. */
  lemma LastLabelledSnoc(lines: seq<string>, line: string, lab: Label)
    ensures LastLabelled(lines + [line], lab) ==
              if LabelOf(line) == Some(lab) then LabelRest(line) else LastLabelled(lines, lab)
  {
    LastValueSnoc(lines, line, LabelOf, LabelRest, lab);
  }

  /** The first pass over the lines: each labelled line sets its field. */
  method LabelPass(lines: seq<string>) returns (artist: string, venue: string, city: string)
    ensures artist == LastLabelled(lines, ArtistLabel)
    ensures venue == LastLabelled(lines, VenueLabel)
    ensures city == LastLabelled(lines, CityLabel)
  {
    artist, venue, city := "", "", "";
    var i := 0;
    while i < |lines|
      invariant 0 <= i <= |lines|
      invariant artist == LastLabelled(lines[..i], ArtistLabel)
      invariant venue == LastLabelled(lines[..i], VenueLabel)
      invariant city == LastLabelled(lines[..i], CityLabel)
    {
      assert lines[..i + 1] == lines[..i] + [lines[i]];
      LastLabelledSnoc(lines[..i], lines[i], ArtistLabel);
      LastLabelledSnoc(lines[..i], lines[i], VenueLabel);
      LastLabelledSnoc(lines[..i], lines[i], CityLabel);
      var line := Strip(lines[i]);
      var l := Lower(line);
      if line != "" {
        if StartsWith(l, "artist:") {
          artist := Strip(line[7..]);
        } else if StartsWith(l, "venue:") {
          venue := Strip(line[6..]);
        } else if StartsWith(l, "city:") || StartsWith(l, "location:") {
          city := if StartsWith(l, "city:") then Strip(line[5..]) else Strip(line[9..]);
        }
      }
      i := i + 1;
    }
    assert lines[..|lines|] == lines;
  }

  // ---------------------------------------------------------------------
  // Known-list fallback
  // ---------------------------------------------------------------------

  /**
   * The lines are scanned in order; on each line the first list entry it
   * contains (ignoring case) is taken, and the scan stops once that entry is
   * not empty.
   */
  function KnownScan(lines: seq<string>, list: seq<string>): string
  {
    if |lines| == 0 then ""
    else match MetadataMerge.FirstContained(list, lines[0])
      case Some(a) => if a != "" then a else KnownScan(lines[1..], list)
      case None => KnownScan(lines[1..], list)
  }

  /** Line `i` settles the scan: its first contained entry is not empty. */
  predicate Hit(lines: seq<string>, list: seq<string>, i: int)
    requires 0 <= i < |lines|
  {
    var f := MetadataMerge.FirstContained(list, lines[i]);
    f.Some? && f.value != ""
  }

  /**
   * The fallback is "" exactly when no line settles the scan, and otherwise
   * the first contained entry of the first line that does.
   */
  lemma {:induction false} KnownScanSpec(lines: seq<string>, list: seq<string>)
    ensures KnownScan(lines, list) == "" <==> forall i :: 0 <= i < |lines| ==> !Hit(lines, list, i)
    ensures KnownScan(lines, list) != "" ==>
              exists i :: 0 <= i < |lines| && Hit(lines, list, i) &&
                MetadataMerge.FirstContained(list, lines[i]) == Some(KnownScan(lines, list)) &&
                forall j :: 0 <= j < i ==> !Hit(lines, list, j)
  {
    if |lines| > 0 {
      var rest := lines[1..];
      KnownScanSpec(rest, list);
      forall i | 0 <= i < |rest| ensures Hit(rest, list, i) == Hit(lines, list, i + 1) {
        assert rest[i] == lines[i + 1];
      }
      if !Hit(lines, list, 0) {
        assert KnownScan(lines, list) == KnownScan(rest, list);
        if KnownScan(lines, list) != "" {
          var i :| 0 <= i < |rest| && Hit(rest, list, i) &&
                   MetadataMerge.FirstContained(list, rest[i]) == Some(KnownScan(rest, list)) &&
                   forall j :: 0 <= j < i ==> !Hit(rest, list, j);
          assert lines[i + 1] == rest[i];
          forall j | 0 <= j < i + 1 ensures !Hit(lines, list, j) {
            if j > 0 {
              assert !Hit(rest, list, j - 1);
            }
          }
        } else {
          forall i | 0 <= i < |lines| ensures !Hit(lines, list, i) {
            if i > 0 {
              assert !Hit(rest, list, i - 1);
            }
          }
        }
      }
    }
  }

  /** With no known entries the fallback finds nothing. */
  lemma {:induction false} KnownScanNoList(lines: seq<string>)
    ensures KnownScan(lines, []) == ""
  {
    if |lines| > 0 {
      KnownScanNoList(lines[1..]);
    }
  }

  /** The nested fallback loops over the lines and the known entries. */
  method KnownFallback(lines: seq<string>, list: seq<string>) returns (found: string)
    ensures found == KnownScan(lines, list)
  {
    found := "";
    var i := 0;
    while i < |lines|
      invariant 0 <= i <= |lines|
      invariant found == "" && KnownScan(lines[i..], list) == KnownScan(lines, list)
    {
      var j := 0;
      while j < |list|
        invariant 0 <= j <= |list|
        invariant found == ""
        invariant MetadataMerge.FirstContained(list[j..], lines[i]) == MetadataMerge.FirstContained(list, lines[i])
      {
        if ContainsCI(lines[i], list[j]) {
          found := list[j];
          break;
        }
        assert list[j..][1..] == list[j + 1..];
        j := j + 1;
      }
      assert lines[i..][1..] == lines[i + 1..];
      if found != "" {
        return;
      }
      i := i + 1;
    }
  }

  // ---------------------------------------------------------------------
  // Source and format from the audio base name
  // ---------------------------------------------------------------------

  const SourceCodes: seq<string> := ["AUD", "SBD", "FM", "DAT", "MTX"]

  /** The first code, in list order, that occurs in `hay`, or "". */
  function FirstOccurring(codes: seq<string>, hay: string): string
  {
    if |codes| == 0 then ""
    else if Contains(hay, codes[0]) then codes[0]
    else FirstOccurring(codes[1..], hay)
  }

  /**
   * With non-empty codes, the result is "" exactly when none occurs, and
   * otherwise the first code that occurs.
   */
  lemma {:induction false} FirstOccurringSpec(codes: seq<string>, hay: string)
    requires forall k :: 0 <= k < |codes| ==> codes[k] != ""
    ensures FirstOccurring(codes, hay) == "" <==> forall k :: 0 <= k < |codes| ==> !Contains(hay, codes[k])
    ensures FirstOccurring(codes, hay) != "" ==>
              exists k :: 0 <= k < |codes| && codes[k] == FirstOccurring(codes, hay) && Contains(hay, codes[k]) &&
                forall m :: 0 <= m < k ==> !Contains(hay, codes[m])
  {
    if |codes| > 0 {
      var rest := codes[1..];
      FirstOccurringSpec(rest, hay);
      if !Contains(hay, codes[0]) {
        if FirstOccurring(rest, hay) != "" {
          var k :| 0 <= k < |rest| && rest[k] == FirstOccurring(rest, hay) && Contains(hay, rest[k]) &&
                   forall m :: 0 <= m < k ==> !Contains(hay, rest[m]);
          assert codes[k + 1] == rest[k];
          forall m | 0 <= m < k + 1 ensures !Contains(hay, codes[m]) {
            if m > 0 {
              assert codes[m] == rest[m - 1];
            }
          }
        } else {
          forall k | 0 <= k < |codes| ensures !Contains(hay, codes[k]) {
            if k > 0 {
              assert codes[k] == rest[k - 1];
            }
          }
        }
      }
    }
  }

  /** The source loop: the first of AUD, SBD, FM, DAT, MTX in the upper-cased base name. */
  method GuessSource(audioBasename: string) returns (source: string)
    ensures source == FirstOccurring(SourceCodes, Upper(audioBasename))
  {
    source := "";
    var hay := Upper(audioBasename);
    var k := 0;
    while k < |SourceCodes|
      invariant 0 <= k <= |SourceCodes|
      invariant source == "" && FirstOccurring(SourceCodes[k..], hay) == FirstOccurring(SourceCodes, hay)
    {
      if Contains(hay, SourceCodes[k]) {
        source := SourceCodes[k];
        return;
      }
      assert SourceCodes[k..][1..] == SourceCodes[k + 1..];
      k := k + 1;
    }
  }

  /** The guessed source is "" or the first listed code found in the upper-cased base name. */
  lemma GuessedSource(audioBasename: string)
    ensures var r := FirstOccurring(SourceCodes, Upper(audioBasename));
            (r == "" <==> forall k :: 0 <= k < |SourceCodes| ==> !Contains(Upper(audioBasename), SourceCodes[k])) &&
            (r != "" ==> r in SourceCodes && Contains(Upper(audioBasename), r))
  {
    FirstOccurringSpec(SourceCodes, Upper(audioBasename));
  }

  /** The format guess: FLAC16, then FLAC24, then MP3, by substring of the lower-cased base name. */
  function GuessFormat(audioBasename: string): string
  {
    var ab := Lower(audioBasename);
    if Contains(ab, "flac16") then "FLAC16"
    else if Contains(ab, "flac24") then "FLAC24"
    else if Contains(ab, "mp3") then "MP3"
    else ""
  }

  /**
   * The format is one of FLAC16, FLAC24, MP3 or "", and "" exactly when none
   * of "flac16", "flac24", "mp3" occurs: a plain "flac" yields no format.
   */
  lemma GuessFormatSpec(audioBasename: string)
    ensures var r := GuessFormat(audioBasename);
            var ab := Lower(audioBasename);
            (r == "" || r == "FLAC16" || r == "FLAC24" || r == "MP3") &&
            (r == "" <==> !Contains(ab, "flac16") && !Contains(ab, "flac24") && !Contains(ab, "mp3")) &&
            (r == "FLAC16" <==> Contains(ab, "flac16")) &&
            (r == "MP3" ==> !Contains(ab, "flac16") && !Contains(ab, "flac24"))
  {
  }

  // ---------------------------------------------------------------------
  // One file
  // ---------------------------------------------------------------------

  /** A labelled value, else the known-list fallback. */
  function LabelOrKnown(lines: seq<string>, lab: Label, list: seq<string>): string
  {
    var v := LastLabelled(lines, lab);
    if v == "" then KnownScan(lines, list) else v
  }

  /** The five values the lines of one file yield. */
  function FileFields(lines: seq<string>, lists: Lists, audioBasename: string): Fields
  {
    Fields(LabelOrKnown(lines, ArtistLabel, lists.artists),
           LabelOrKnown(lines, VenueLabel, lists.venues),
           LabelOrKnown(lines, CityLabel, lists.cities),
           FirstOccurring(SourceCodes, Upper(audioBasename)),
           GuessFormat(audioBasename))
  }

  /** The metadata dictionary: only the non-empty values, under their keys. */
  function Emit(f: Fields): map<string, string>
  {
    var m0: map<string, string> := map[];
    var m1 := if f.artist != "" then m0["artist" := f.artist] else m0;
    var m2 := if f.venue != "" then m1["venue" := f.venue] else m1;
    var m3 := if f.city != "" then m2["city" := f.city] else m2;
    var m4 := if f.source != "" then m3["source" := f.source] else m3;
    if f.format != "" then m4["format" := f.format] else m4
  }

  /** The value `Emit` files under `key` ("" for any other key). */
  function FieldOf(f: Fields, key: string): string
  {
    if key == "artist" then f.artist
    else if key == "venue" then f.venue
    else if key == "city" then f.city
    else if key == "source" then f.source
    else if key == "format" then f.format
    else ""
  }

  /** One key of `Emit`: present exactly when its value is not empty, and holding that value. */
  lemma EmitAt(f: Fields, key: string)
    ensures key in Emit(f) <==> FieldOf(f, key) != ""
    ensures key in Emit(f) ==> Emit(f)[key] == FieldOf(f, key)
  {
  }

  /** A key is present exactly when its value is not empty, and it holds that value. */
  lemma EmitSpec(f: Fields)
    ensures forall key :: key in Emit(f) <==> FieldOf(f, key) != ""
    ensures forall key :: key in Emit(f) ==> Emit(f)[key] == FieldOf(f, key)
    ensures Emit(f) == map[] <==> f == Fields("", "", "", "", "")
  {
    forall key
      ensures key in Emit(f) <==> FieldOf(f, key) != ""
      ensures key in Emit(f) ==> Emit(f)[key] == FieldOf(f, key)
    {
      EmitAt(f, key);
    }
    if Emit(f) == map[] {
      EmitAt(f, "artist");
      EmitAt(f, "venue");
      EmitAt(f, "city");
      EmitAt(f, "source");
      EmitAt(f, "format");
    }
  }

  /** The labelled pass, the list fallbacks and the two guesses for one file. */
  method ReadFields(lines: seq<string>, lists: Lists, audioBasename: string) returns (f: Fields)
    ensures f == FileFields(lines, lists, audioBasename)
  {
    var artist, venue, city := LabelPass(lines);
    var source, fmt := "", "";
    KnownScanNoList(lines);
    if artist == "" && |lists.artists| > 0 {
      artist := KnownFallback(lines, lists.artists);
    }
    if venue == "" && |lists.venues| > 0 {
      venue := KnownFallback(lines, lists.venues);
    }
    if city == "" && |lists.cities| > 0 {
      city := KnownFallback(lines, lists.cities);
    }
    if source == "" {
      source := GuessSource(audioBasename);
    }
    if fmt == "" {
      fmt := GuessFormat(audioBasename);
    }
    f := Fields(artist, venue, city, source, fmt);
  }

  /** The dictionary built from the non-empty values. */
  method BuildMetadata(f: Fields) returns (metadata: map<string, string>)
    ensures metadata == Emit(f)
  {
    metadata := map[];
    if f.artist != "" {
      metadata := metadata["artist" := f.artist];
    }
    if f.venue != "" {
      metadata := metadata["venue" := f.venue];
    }
    if f.city != "" {
      metadata := metadata["city" := f.city];
    }
    if f.source != "" {
      metadata := metadata["source" := f.source];
    }
    if f.format != "" {
      metadata := metadata["format" := f.format];
    }
  }

  /** Reading one file's lines: the values, then the dictionary. */
  method ExtractFile(lines: seq<string>, lists: Lists, audioBasename: string) returns (metadata: map<string, string>)
    ensures metadata == Emit(FileFields(lines, lists, audioBasename))
  {
    var f := ReadFields(lines, lists, audioBasename);
    metadata := BuildMetadata(f);
  }

  // ---------------------------------------------------------------------
  // The folder: which files, in which order
  // ---------------------------------------------------------------------

  /** `f.lower().endswith(".txt")`. */
  predicate IsTxtName(name: string)
  {
    EndsWith(Lower(name), ".txt")
  }

  /** The line count used for ordering: the number of lines, 0 for an unreadable entry. */
  function LineCount(es: seq<Entry>, i: nat): nat
  {
    if i < |es| && es[i].lines.Some? then |es[i].lines.value| else 0
  }

  /**
   * The order the stable descending sort puts two listing positions in:
   * more lines first, and the earlier listing position on a tie.
   */
  predicate Before(es: seq<Entry>, i: nat, j: nat)
  {
    LineCount(es, i) > LineCount(es, j) || (LineCount(es, i) == LineCount(es, j) && i < j)
  }

  lemma BeforeTransitive(es: seq<Entry>, i: nat, j: nat, k: nat)
    requires Before(es, i, j) && Before(es, j, k)
    ensures Before(es, i, k)
  {
  }

  /** The listing positions from `i` on whose names end in ".txt", in listing order. */
  function TxtFrom(es: seq<Entry>, i: nat): seq<nat>
    decreases |es| - i
  {
    if i >= |es| then []
    else (if IsTxtName(es[i].name) then [i] else []) + TxtFrom(es, i + 1)
  }

  /** Strictly increasing positions within the listing. */
  predicate Increasing(es: seq<Entry>, xs: seq<nat>)
  {
    (forall p :: 0 <= p < |xs| ==> xs[p] < |es|) &&
    forall p, q :: 0 <= p < q < |xs| ==> xs[p] < xs[q]
  }

  /** The filter keeps exactly the ".txt" names from position `i` on, in listing order. */
  lemma {:induction false} TxtFromSpec(es: seq<Entry>, i: nat)
    ensures Increasing(es, TxtFrom(es, i))
    ensures forall j :: j in TxtFrom(es, i) <==> i <= j < |es| && IsTxtName(es[j].name)
    decreases |es| - i
  {
    if i < |es| {
      TxtFromSpec(es, i + 1);
      var rest := TxtFrom(es, i + 1);
      assert forall p :: 0 <= p < |rest| ==> i < rest[p] by {
        forall p | 0 <= p < |rest| ensures i < rest[p] {
          assert rest[p] in rest;
        }
      }
    }
  }

  /** Insertion of one position into a sorted order. */
  function Insert(es: seq<Entry>, i: nat, xs: seq<nat>): seq<nat>
  {
    if |xs| == 0 then [i]
    else if Before(es, i, xs[0]) then [i] + xs
    else [xs[0]] + Insert(es, i, xs[1..])
  }

  /** `txt_files.sort(key=line count, reverse=True)`, which is stable. */
  function SortByLines(es: seq<Entry>, xs: seq<nat>): seq<nat>
  {
    if |xs| == 0 then [] else Insert(es, xs[0], SortByLines(es, xs[1..]))
  }

  /** Every earlier position comes `Before` every later one. */
  predicate SortedBefore(es: seq<Entry>, xs: seq<nat>)
  {
    forall p, q :: 0 <= p < q < |xs| ==> Before(es, xs[p], xs[q])
  }

  lemma {:induction false} InsertSpec(es: seq<Entry>, i: nat, xs: seq<nat>)
    requires SortedBefore(es, xs) && i !in xs
    ensures multiset(Insert(es, i, xs)) == multiset(xs) + multiset{i}
    ensures SortedBefore(es, Insert(es, i, xs))
  {
    InsertPerm(es, i, xs);
    if |xs| > 0 && !Before(es, i, xs[0]) {
      var rest := xs[1..];
      assert xs == [xs[0]] + rest;
      SortedTail(es, xs);
      InsertSpec(es, i, rest);
      InsertPerm(es, i, rest);
      var ins := Insert(es, i, rest);
      assert Insert(es, i, xs) == [xs[0]] + ins;
      HeadBefore(es, xs);
      assert Before(es, xs[0], i);
      forall y | y in ins ensures Before(es, xs[0], y) {
        assert y in multiset(ins);
        if y != i {
          assert y in multiset(rest);
        }
      }
      SortedCons(es, xs[0], ins);
    } else if |xs| > 0 {
      HeadBefore(es, xs);
      forall y | y in xs ensures Before(es, i, y) {
        if y != xs[0] {
          BeforeTransitive(es, i, xs[0], y);
        }
      }
      SortedCons(es, i, xs);
    }
  }

  /** Inserting adds exactly the one position. */
  lemma {:induction false} InsertPerm(es: seq<Entry>, i: nat, xs: seq<nat>)
    ensures multiset(Insert(es, i, xs)) == multiset(xs) + multiset{i}
  {
    if |xs| > 0 && !Before(es, i, xs[0]) {
      assert xs == [xs[0]] + xs[1..];
      InsertPerm(es, i, xs[1..]);
    }
  }

  /** The tail of a sorted list is sorted. */
  lemma SortedTail(es: seq<Entry>, xs: seq<nat>)
    requires SortedBefore(es, xs) && |xs| > 0
    ensures SortedBefore(es, xs[1..])
  {
    var rest := xs[1..];
    forall p, q | 0 <= p < q < |rest| ensures Before(es, rest[p], rest[q]) {
      assert rest[p] == xs[p + 1] && rest[q] == xs[q + 1];
    }
  }

  /** The head of a sorted list of distinct positions comes `Before` the rest. */
  lemma HeadBefore(es: seq<Entry>, xs: seq<nat>)
    requires SortedBefore(es, xs) && |xs| > 0
    ensures forall y :: y in xs[1..] ==> Before(es, xs[0], y)
    ensures forall y :: y in xs && y != xs[0] ==> Before(es, xs[0], y)
  {
    forall y | y in xs && y != xs[0] ensures Before(es, xs[0], y) {
      var q :| 0 <= q < |xs| && xs[q] == y;
    }
    forall y | y in xs[1..] ensures Before(es, xs[0], y) {
      var q :| 0 <= q < |xs[1..]| && xs[1..][q] == y;
      assert xs[q + 1] == y;
    }
  }

  /** A position `Before` every element of a sorted list can go in front of it. */
  lemma SortedCons(es: seq<Entry>, x: nat, ys: seq<nat>)
    requires SortedBefore(es, ys) && forall y :: y in ys ==> Before(es, x, y)
    ensures SortedBefore(es, [x] + ys)
  {
    var r := [x] + ys;
    forall p, q | 0 <= p < q < |r| ensures Before(es, r[p], r[q]) {
      assert r[q] == ys[q - 1];
      if p > 0 {
        assert r[p] == ys[p - 1];
      }
    }
  }

  /** The sort keeps the same positions and orders them strictly by `Before`. */
  lemma {:induction false} SortByLinesSpec(es: seq<Entry>, xs: seq<nat>)
    requires Increasing(es, xs)
    ensures multiset(SortByLines(es, xs)) == multiset(xs)
    ensures SortedBefore(es, SortByLines(es, xs))
  {
    if |xs| > 0 {
      var rest := xs[1..];
      IncreasingTail(es, xs);
      SortByLinesSpec(es, rest);
      var s := SortByLines(es, rest);
      assert xs[0] !in multiset(s);
      InsertSpec(es, xs[0], s);
      assert xs == [xs[0]] + rest;
    }
  }

  /** The tail of an increasing list is increasing and does not hold its head. */
  lemma IncreasingTail(es: seq<Entry>, xs: seq<nat>)
    requires Increasing(es, xs) && |xs| > 0
    ensures Increasing(es, xs[1..]) && xs[0] !in multiset(xs[1..])
  {
    var rest := xs[1..];
    forall p, q | 0 <= p < q < |rest| ensures rest[p] < rest[q] {
      assert rest[p] == xs[p + 1] && rest[q] == xs[q + 1];
    }
    forall q | 0 <= q < |rest| ensures rest[q] != xs[0] {
      assert rest[q] == xs[q + 1];
    }
  }

  // ---------------------------------------------------------------------
  // The whole folder
  // ---------------------------------------------------------------------

  /** What the entry at position `i` yields: nothing when it is not a readable file. */
  function EntryMeta(es: seq<Entry>, i: nat, lists: Lists, audioBasename: string): map<string, string>
  {
    if i < |es| && es[i].lines.Some? then Emit(FileFields(es[i].lines.value, lists, audioBasename))
    else map[]
  }

  /** The first position, in `order`, whose file yields a non-empty dictionary. */
  function FirstYield(es: seq<Entry>, order: seq<nat>, lists: Lists, audioBasename: string): map<string, string>
  {
    if |order| == 0 then map[]
    else if EntryMeta(es, order[0], lists, audioBasename) != map[] then EntryMeta(es, order[0], lists, audioBasename)
    else FirstYield(es, order[1..], lists, audioBasename)
  }

  /** `audio_basename or basename(normpath(folder_path))`. */
  function BaseName(folderPath: string, audioBasename: Option<string>): string
  {
    if audioBasename.Some? then audioBasename.value else SchemeLang.PathName(folderPath)
  }

  /** The parse of a folder whose listing is `listing` (`None` when listing it failed). */
  function ParseSpec(listing: Option<seq<Entry>>, lists: Lists, folderPath: string,
                     audioBasename: Option<string>): map<string, string>
  {
    match listing
    case None => map[]
    case Some(es) =>
      FirstYield(es, SortByLines(es, TxtFrom(es, 0)), lists, BaseName(folderPath, audioBasename))
  }

  /** `TxtMetadataParser.parse`: the files, longest first, until one yields something. */
  method Parse(listing: Option<seq<Entry>>, lists: Lists, folderPath: string, audioBasename: Option<string>)
    returns (metadata: map<string, string>)
    ensures metadata == ParseSpec(listing, lists, folderPath, audioBasename)
  {
    var ab := if audioBasename.Some? then audioBasename.value else SchemeLang.PathName(folderPath);
    if listing.None? {
      return map[];
    }
    var es := listing.value;
    var txtFiles := SortByLines(es, TxtFrom(es, 0));
    if |txtFiles| == 0 {
      return map[];
    }
    var k := 0;
    while k < |txtFiles|
      invariant 0 <= k <= |txtFiles|
      invariant FirstYield(es, txtFiles[k..], lists, ab) == FirstYield(es, txtFiles, lists, ab)
    {
      assert txtFiles[k..][1..] == txtFiles[k + 1..];
      var i := txtFiles[k];
      if i < |es| && es[i].lines.Some? {
        var m := ExtractFile(es[i].lines.value, lists, ab);
        if m != map[] {
          return m;
        }
      }
      k := k + 1;
    }
    metadata := map[];
  }

  /** Over a sorted order, the first yielding position is the result, and "" order gives {}. */
  lemma {:induction false} FirstYieldSpec(es: seq<Entry>, order: seq<nat>, lists: Lists, ab: string)
    ensures FirstYield(es, order, lists, ab) == map[] <==>
              forall p :: 0 <= p < |order| ==> EntryMeta(es, order[p], lists, ab) == map[]
    ensures FirstYield(es, order, lists, ab) != map[] ==>
              exists p :: 0 <= p < |order| && FirstYield(es, order, lists, ab) == EntryMeta(es, order[p], lists, ab) &&
                forall q :: 0 <= q < p ==> EntryMeta(es, order[q], lists, ab) == map[]
  {
    if |order| > 0 {
      var rest := order[1..];
      FirstYieldSpec(es, rest, lists, ab);
      if EntryMeta(es, order[0], lists, ab) == map[] {
        if FirstYield(es, rest, lists, ab) != map[] {
          var p :| 0 <= p < |rest| && FirstYield(es, rest, lists, ab) == EntryMeta(es, rest[p], lists, ab) &&
                   forall q :: 0 <= q < p ==> EntryMeta(es, rest[q], lists, ab) == map[];
          assert order[p + 1] == rest[p];
          forall q | 0 <= q < p + 1 ensures EntryMeta(es, order[q], lists, ab) == map[] {
            if q > 0 {
              assert order[q] == rest[q - 1];
            }
          }
        } else {
          forall p | 0 <= p < |order| ensures EntryMeta(es, order[p], lists, ab) == map[] {
            if p > 0 {
              assert order[p] == rest[p - 1];
            }
          }
        }
      }
    }
  }

  /** A ".txt" entry at position `i` that yields something. */
  predicate Yields(es: seq<Entry>, i: nat, lists: Lists, ab: string)
  {
    i < |es| && IsTxtName(es[i].name) && EntryMeta(es, i, lists, ab) != map[]
  }

  /**
   * `r` is {} exactly when no ".txt" entry yields anything. Otherwise it is
   * what one yielding ".txt" entry gives, and that entry comes `Before` every
   * other yielding ".txt" entry.
   */
  ghost predicate ChosenFile(es: seq<Entry>, r: map<string, string>, lists: Lists, ab: string)
  {
    (r == map[] <==> forall i :: 0 <= i < |es| ==> !Yields(es, i, lists, ab)) &&
    (r != map[] ==>
       exists i :: 0 <= i < |es| && Yields(es, i, lists, ab) && r == EntryMeta(es, i, lists, ab) &&
         forall j :: 0 <= j < |es| && j != i && Yields(es, j, lists, ab) ==> Before(es, i, j))
  }

  /**
   * The parse is {} exactly when no ".txt" file yields anything. Otherwise it
   * is what one yielding ".txt" file gives, and that file has at least as many
   * lines as every other yielding ".txt" file, and comes first in the listing
   * among those with as many.
   */
  lemma ParseChoice(es: seq<Entry>, lists: Lists, folderPath: string, audioBasename: Option<string>)
    ensures ChosenFile(es, ParseSpec(Some(es), lists, folderPath, audioBasename), lists, BaseName(folderPath, audioBasename))
  {
    var ab := BaseName(folderPath, audioBasename);
    var order := SortByLines(es, TxtFrom(es, 0));
    TxtOrder(es);
    FirstYieldSpec(es, order, lists, ab);
    ChoiceInOrder(es, order, lists, ab);
  }

  /** The sorted order holds exactly the ".txt" positions. */
  lemma TxtOrder(es: seq<Entry>)
    ensures SortedBefore(es, SortByLines(es, TxtFrom(es, 0)))
    ensures forall j: nat :: j in SortByLines(es, TxtFrom(es, 0)) <==> j < |es| && IsTxtName(es[j].name)
  {
    var txt := TxtFrom(es, 0);
    TxtFromSpec(es, 0);
    SortByLinesSpec(es, txt);
    var order := SortByLines(es, txt);
    forall j: nat ensures j in order <==> j < |es| && IsTxtName(es[j].name) {
      assert j in order <==> j in multiset(order);
      assert j in txt <==> j in multiset(txt);
    }
  }

  /** The choice over any sorted order of exactly the ".txt" positions. */
  lemma ChoiceInOrder(es: seq<Entry>, order: seq<nat>, lists: Lists, ab: string)
    requires SortedBefore(es, order)
    requires forall j: nat :: j in order <==> j < |es| && IsTxtName(es[j].name)
    requires FirstYield(es, order, lists, ab) == map[] <==>
               forall p :: 0 <= p < |order| ==> EntryMeta(es, order[p], lists, ab) == map[]
    requires FirstYield(es, order, lists, ab) != map[] ==>
               exists p :: 0 <= p < |order| && FirstYield(es, order, lists, ab) == EntryMeta(es, order[p], lists, ab) &&
                 forall q :: 0 <= q < p ==> EntryMeta(es, order[q], lists, ab) == map[]
    ensures ChosenFile(es, FirstYield(es, order, lists, ab), lists, ab)
  {
    var r := FirstYield(es, order, lists, ab);
    if r != map[] {
      var p :| 0 <= p < |order| && r == EntryMeta(es, order[p], lists, ab) &&
               forall q :: 0 <= q < p ==> EntryMeta(es, order[q], lists, ab) == map[];
      assert order[p] in order;
      assert Yields(es, order[p], lists, ab);
      ChosenFirst(es, order, lists, ab, p);
    } else {
      NoneYields(es, order, lists, ab);
    }
    if forall i :: 0 <= i < |es| ==> !Yields(es, i, lists, ab) {
      AllEmpty(es, order, lists, ab);
    }
  }

  /** A yielding entry ahead of which nothing yields comes `Before` every other yielding ".txt" entry. */
  lemma ChosenFirst(es: seq<Entry>, order: seq<nat>, lists: Lists, ab: string, p: nat)
    requires SortedBefore(es, order)
    requires forall j: nat :: j in order <==> j < |es| && IsTxtName(es[j].name)
    requires p < |order| && forall q :: 0 <= q < p ==> EntryMeta(es, order[q], lists, ab) == map[]
    ensures forall j :: 0 <= j < |es| && j != order[p] && Yields(es, j, lists, ab) ==> Before(es, order[p], j)
  {
    forall j | 0 <= j < |es| && j != order[p] && Yields(es, j, lists, ab) ensures Before(es, order[p], j) {
      assert j in order;
      var q :| 0 <= q < |order| && order[q] == j;
      assert EntryMeta(es, order[q], lists, ab) != map[];
      assert q > p;
    }
  }

  /** When no entry of the order yields, no entry yields at all. */
  lemma NoneYields(es: seq<Entry>, order: seq<nat>, lists: Lists, ab: string)
    requires forall j: nat :: j in order <==> j < |es| && IsTxtName(es[j].name)
    requires forall p :: 0 <= p < |order| ==> EntryMeta(es, order[p], lists, ab) == map[]
    ensures forall i :: 0 <= i < |es| ==> !Yields(es, i, lists, ab)
  {
    forall i | 0 <= i < |es| ensures !Yields(es, i, lists, ab) {
      if i in order {
        var q :| 0 <= q < |order| && order[q] == i;
        assert EntryMeta(es, order[q], lists, ab) == map[];
      }
    }
  }

  /** When no entry yields, every entry of the order gives {}. */
  lemma AllEmpty(es: seq<Entry>, order: seq<nat>, lists: Lists, ab: string)
    requires forall j: nat :: j in order <==> j < |es| && IsTxtName(es[j].name)
    requires forall i :: 0 <= i < |es| ==> !Yields(es, i, lists, ab)
    ensures forall p :: 0 <= p < |order| ==> EntryMeta(es, order[p], lists, ab) == map[]
  {
    forall p | 0 <= p < |order| ensures EntryMeta(es, order[p], lists, ab) == map[] {
      assert order[p] in order;
      assert !Yields(es, order[p], lists, ab);
    }
  }
}
