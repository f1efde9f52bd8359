/**
 * The per-folder preparation in the processing thread
 * (utils/process_thread.py): the fallback values each queued folder is
 * processed with, the fallback date built from the year/month/day fields of
 * the form, and the history sets the form and fallback values are added to.
 *
 * The upward removal of emptied folders (`remove_empty_parents`) is
 * `DirWalk.CleanupWalk` with a stop folder; the queue clean-up after the run
 * is `Queue.QueueManager.RemoveProcessed`.
 */
module ProcessThread {
  import opened Text
  import Dates
  import Processor
  import DirWalk

  /** The dropdown histories: a set of values per key. */
  type Histories = map<string, set<string>>

  // ---------------------------------------------------------------------
  // get_fallback_value
  // ---------------------------------------------------------------------

  /** `get_fallback_value`: the first of the three that is not blank, stripped; else "". */
  function FallbackValue(metaVal: Option<string>, guiVal: string, lastUsed: string): string
  {
    if metaVal.Some? && Strip(metaVal.value) != "" then Strip(metaVal.value)
    else if Strip(guiVal) != "" then Strip(guiVal)
    else if Strip(lastUsed) != "" then Strip(lastUsed)
    else ""
  }

  /** A missing or blank metadata value. */
  predicate Absent(v: Option<string>)
  {
    v.None? || IsBlank(v.value)
  }

  /**
   * `v` is stripped; it is "" exactly when all three are blank; it is the
   * stripped metadata value when that is not blank, otherwise the stripped
   * GUI value when that is not blank, otherwise the stripped last-used value.
   */
  predicate FallsBack(v: string, metaVal: Option<string>, guiVal: string, lastUsed: string)
  {
    Strip(v) == v &&
    (v == "" <==> Absent(metaVal) && IsBlank(guiVal) && IsBlank(lastUsed)) &&
    (!Absent(metaVal) ==> v == Strip(metaVal.value)) &&
    (Absent(metaVal) && !IsBlank(guiVal) ==> v == Strip(guiVal)) &&
    (Absent(metaVal) && IsBlank(guiVal) ==> v == Strip(lastUsed))
  }

  lemma FallbackValueSpec(metaVal: Option<string>, guiVal: string, lastUsed: string)
    ensures FallsBack(FallbackValue(metaVal, guiVal, lastUsed), metaVal, guiVal, lastUsed)
  {
    if metaVal.Some? {
      StripBlank(metaVal.value);
      StripIdempotent(metaVal.value);
    }
    StripBlank(guiVal);
    StripIdempotent(guiVal);
    StripBlank(lastUsed);
    StripIdempotent(lastUsed);
  }

  // ---------------------------------------------------------------------
  // The fallback date
  // ---------------------------------------------------------------------

  function Zeros(k: nat): (z: string)
    ensures |z| == k && forall i :: 0 <= i < k ==> z[i] == '0'
  {
    seq(k, _ => '0')
  }

  /** Python's `s.zfill(w)`: zeros after any leading sign, up to width `w`. */
  function ZFill(s: string, w: nat): string
  {
    if |s| >= w then s
    else if |s| > 0 && (s[0] == '+' || s[0] == '-') then [s[0]] + Zeros(w - |s|) + s[1..]
    else Zeros(w - |s|) + s
  }

  /** Leading zeros do not change the value of a digit string. */
  lemma {:induction false} ZerosValue(k: nat, s: string)
    requires AllDigits(s)
    ensures AllDigits(Zeros(k) + s) && DigitsValue(Zeros(k) + s) == DigitsValue(s)
    decreases |s| + k
  {
    var t := Zeros(k) + s;
    if |s| > 0 {
      ZerosValue(k, s[..|s| - 1]);
      assert t[..|t| - 1] == Zeros(k) + s[..|s| - 1];
    } else if k > 0 {
      ZerosValue(k - 1, s);
      assert t[..|t| - 1] == Zeros(k - 1) + s;
    }
  }

  /**
   * On a digit string zfill gives a digit string of width at least `w` with
   * the same value, and it keeps any string already that wide.
   */
  lemma ZFillDigits(s: string, w: nat)
    requires AllDigits(s)
    ensures var r := ZFill(s, w);
            AllDigits(r) && |r| == (if |s| >= w then |s| else w) &&
            DigitsValue(r) == DigitsValue(s) && (|s| >= w ==> r == s)
  {
    if |s| < w {
      ZerosValue(w - |s|, s);
    }
  }

  /** zfill of a number's decimal form is the number padded with zeros. */
  lemma ZFillNat(n: nat, w: nat)
    ensures ZFill(NatToString(n), w) == PadNat(n, w)
  {
    NatToStringDigits(n);
  }

  /** `mo.zfill(2) if mo else "01"`, and the same for the day. */
  function TwoDigits(s: string): string
  {
    if s != "" then ZFill(s, 2) else "01"
  }

  /**
   * The fallback date: the metadata date as it is when it is not blank;
   * otherwise `y-mo-da` when the year field is a non-empty digit string;
   * otherwise "".
   */
  function FallbackDate(metaDate: Option<string>, y: string, mo: string, da: string): string
  {
    if !Absent(metaDate) then metaDate.value
    else if y != "" && AllDigits(y) then y + "-" + TwoDigits(mo) + "-" + TwoDigits(da)
    else ""
  }

  /**
   * A non-blank metadata date is kept unstripped; without one, the date is ""
   * exactly when the year field is empty or not all digits, and otherwise it
   * starts with the year and a dash and holds the two-digit month and day.
   */
  lemma FallbackDateSpec(metaDate: Option<string>, y: string, mo: string, da: string)
    ensures var r := FallbackDate(metaDate, y, mo, da);
            (!Absent(metaDate) ==> r == metaDate.value && Strip(r) != "") &&
            (Absent(metaDate) ==>
               (r == "" <==> y == "" || !AllDigits(y)) &&
               (r != "" ==> r[..|y| + 1] == y + "-" &&
                            r[|y| + 1..] == TwoDigits(mo) + "-" + TwoDigits(da)))
  {
    if metaDate.Some? {
      StripBlank(metaDate.value);
    }
  }

  /** A month or day field written as a number becomes its two-digit form. */
  lemma TwoDigitsNat(n: nat)
    requires n < 100
    ensures TwoDigits(NatToString(n)) == PadNat(n, 2) && |PadNat(n, 2)| == 2
  {
    NatToStringDigits(n);
    ZFillNat(n, 2);
    if n >= 10 {
      assert NatToString(n / 10) == [DigitChar(n / 10)];
    }
  }

  /** A year of four digits is written without padding. */
  lemma FourDigitYear(n: nat)
    requires 1000 <= n
    ensures PadNat(n, 4) == NatToString(n)
  {
    var m1 := n / 10;
    var m2 := m1 / 10;
    var m3 := m2 / 10;
    NatToStringDigits(m3);
    assert NatToString(m2) == NatToString(m3) + [DigitChar(m2 % 10)];
    assert NatToString(m1) == NatToString(m2) + [DigitChar(m1 % 10)];
    assert NatToString(n) == NatToString(m1) + [DigitChar(n % 10)];
  }

  /**
   * Year, month and day typed as numbers give the ISO 8601 calendar date,
   * which the processor's date normalisation then keeps as it is.
   */
  lemma FallbackDateIso(d: Dates.Date)
    requires d.Valid() && d.year >= 1000
    ensures var r := FallbackDate(None, NatToString(d.year), NatToString(d.month), NatToString(d.day));
            r == Dates.IsoFormat(d) && Processor.NormalizeDate(r) == r
  {
    NatToStringDigits(d.year);
    FourDigitYear(d.year);
    TwoDigitsNat(d.month);
    TwoDigitsNat(d.day);
    Processor.NormalizeDateIso(d);
  }

  // ---------------------------------------------------------------------
  // The fallback dictionary
  // ---------------------------------------------------------------------

  /** The form fields the thread reads (`fmt` holds the format). */
  datatype Form = Form(artist: string, venue: string, city: string, add: string, source: string,
                       fmt: string, genre: string, year: string, mo: string, da: string)

  /** The `last_*` attributes of the GUI ("" when one is missing). */
  datatype LastUsed = LastUsed(artist: string, source: string, format: string, add: string, genre: string)

  /** `meta.get(key)`. */
  function Get(meta: map<string, string>, key: string): Option<string>
  {
    if key in meta then Some(meta[key]) else None
  }

  /** `a or b` on optional strings. */
  function OrElse(a: Option<string>, b: Option<string>): Option<string>
  {
    if a.Some? && a.value != "" then a else b
  }

  /** The metadata value a field falls back from ("additional", else "add", for `add`). */
  function MetaFor(meta: map<string, string>, f: Processor.Field): Option<string>
  {
    match f
    case ArtistField => Get(meta, "artist")
    case VenueField => Get(meta, "venue")
    case CityField => Get(meta, "city")
    case SourceField => Get(meta, "source")
    case FormatField => Get(meta, "format")
    case GenreField => Get(meta, "genre")
    case AddField => OrElse(Get(meta, "additional"), Get(meta, "add"))
  }

  function FormFor(form: Form, f: Processor.Field): string
  {
    match f
    case ArtistField => form.artist
    case VenueField => form.venue
    case CityField => form.city
    case SourceField => form.source
    case FormatField => form.fmt
    case GenreField => form.genre
    case AddField => form.add
  }

  /** The last-used value a field falls back to; venue and city have none. */
  function LastFor(last: LastUsed, f: Processor.Field): string
  {
    match f
    case ArtistField => last.artist
    case VenueField => ""
    case CityField => ""
    case SourceField => last.source
    case FormatField => last.format
    case GenreField => last.genre
    case AddField => last.add
  }

  /**
   * The `fallback` dictionary for one queued folder. The folder name is the
   * last component of the folder path.
   */
  function FolderFallbacks(folder: string, meta: map<string, string>, form: Form, last: LastUsed): Processor.Fallbacks
  {
    Processor.Fallbacks(
      FallbackValue(Get(meta, "artist"), form.artist, last.artist),
      FallbackValue(Get(meta, "venue"), form.venue, ""),
      FallbackValue(Get(meta, "city"), form.city, ""),
      FallbackValue(Get(meta, "source"), form.source, last.source),
      FallbackValue(Get(meta, "format"), form.fmt, last.format),
      FallbackValue(Get(meta, "genre"), form.genre, last.genre),
      FallbackValue(OrElse(Get(meta, "additional"), Get(meta, "add")), form.add, last.add),
      FallbackDate(Get(meta, "date"), form.year, form.mo, form.da),
      DirWalk.Basename(folder))
  }

  /** Each text field is the fallback of its metadata, form and last-used values. */
  lemma FolderFallbacksFields(folder: string, meta: map<string, string>, form: Form, last: LastUsed, f: Processor.Field)
    ensures Processor.GuiValue(FolderFallbacks(folder, meta, form, last), f)
            == FallbackValue(MetaFor(meta, f), FormFor(form, f), LastFor(last, f))
  {
  }

  /**
   * Every text field is stripped and is the metadata value when that is not
   * blank, else the form value when that is not blank, else the last-used
   * value; the folder name holds no '/'.
   */
  lemma FolderFallbacksSpec(folder: string, meta: map<string, string>, form: Form, last: LastUsed)
    ensures var fb := FolderFallbacks(folder, meta, form, last);
            (forall f :: FallsBack(Processor.GuiValue(fb, f), MetaFor(meta, f), FormFor(form, f), LastFor(last, f))) &&
            '/' !in fb.currentFolderName
  {
    forall f: Processor.Field
      ensures FallsBack(Processor.GuiValue(FolderFallbacks(folder, meta, form, last), f), MetaFor(meta, f), FormFor(form, f), LastFor(last, f))
    {
      FolderFallbacksFields(folder, meta, form, last, f);
      FallbackValueSpec(MetaFor(meta, f), FormFor(form, f), LastFor(last, f));
    }
  }

  // ---------------------------------------------------------------------
  // Histories
  // ---------------------------------------------------------------------

  /**
   * `histories[key].add(v.strip())` when `v` is not blank. A missing key
   * raises `KeyError`, which ends the thread: `None`.
   */
  function AddStripped(h: Option<Histories>, key: string, v: string): Option<Histories>
  {
    if h.None? || Strip(v) == "" then h
    else if key !in h.value then None
    else Some(h.value[key := h.value[key] + {Strip(v)}])
  }

  /** The histories after the loop has visited `es` in order. */
  function AddAllStripped(h: Option<Histories>, es: seq<(string, string)>): Option<Histories>
  {
    if |es| == 0 then h else AddStripped(AddAllStripped(h, es[..|es| - 1]), es[|es| - 1].0, es[|es| - 1].1)
  }

  /** The stripped non-blank values `es` holds for `key`. */
  function ValuesFor(es: seq<(string, string)>, key: string): set<string>
  {
    set i | 0 <= i < |es| && es[i].0 == key && Strip(es[i].1) != "" :: Strip(es[i].1)
  }

  /** Some non-blank value of `es` has a key the histories lack. */
  predicate Unknown(h: Histories, es: seq<(string, string)>)
  {
    exists i :: 0 <= i < |es| && Strip(es[i].1) != "" && es[i].0 !in h
  }

  /** Appending one entry adds its stripped value to its own key only. */
  lemma ValuesForSnoc(es: seq<(string, string)>, e: (string, string), k: string)
    ensures ValuesFor(es + [e], k) == ValuesFor(es, k) + (if e.0 == k then Stripped(e.1) else {})
  {
    var t := es + [e];
    forall x ensures x in ValuesFor(t, k) <==> x in ValuesFor(es, k) || (e.0 == k && x in Stripped(e.1)) {
      if x in ValuesFor(t, k) {
        var i :| 0 <= i < |t| && t[i].0 == k && Strip(t[i].1) != "" && Strip(t[i].1) == x;
        if i < |es| {
          assert es[i] == t[i];
        }
      }
      if x in ValuesFor(es, k) {
        var i :| 0 <= i < |es| && es[i].0 == k && Strip(es[i].1) != "" && Strip(es[i].1) == x;
        assert t[i] == es[i];
      }
      if e.0 == k && x in Stripped(e.1) {
        assert t[|es|] == e;
      }
    }
  }

  /** Appending one entry fails on it exactly when its value is not blank and its key is missing. */
  lemma UnknownSnoc(h: Histories, es: seq<(string, string)>, e: (string, string))
    ensures Unknown(h, es + [e]) <==> Unknown(h, es) || (Strip(e.1) != "" && e.0 !in h)
  {
    var t := es + [e];
    if Unknown(h, t) {
      var i :| 0 <= i < |t| && Strip(t[i].1) != "" && t[i].0 !in h;
      if i < |es| {
        assert es[i] == t[i];
      }
    }
    if Unknown(h, es) {
      var i :| 0 <= i < |es| && Strip(es[i].1) != "" && es[i].0 !in h;
      assert t[i] == es[i];
    }
    if Strip(e.1) != "" && e.0 !in h {
      assert t[|es|] == e;
    }
  }

  /** What the loop leaves after visiting `es` from `h`. */
  predicate AddedAll(r: Option<Histories>, h: Histories, es: seq<(string, string)>)
  {
    (r.None? <==> Unknown(h, es)) &&
    (r.Some? ==> r.value.Keys == h.Keys && forall k :: k in h ==> r.value[k] == h[k] + ValuesFor(es, k))
  }

  /**
   * The loop fails exactly when a non-blank value has a key the histories
   * lack; otherwise every key gains exactly the stripped non-blank values
   * given for it, and no key is added.
   */
  lemma {:induction false} AddAllStrippedSpec(h: Histories, es: seq<(string, string)>)
    ensures AddedAll(AddAllStripped(Some(h), es), h, es)
  {
    if |es| > 0 {
      var n := |es| - 1;
      var front := es[..n];
      var e := es[n];
      assert es == front + [e];
      AddAllStrippedSpec(h, front);
      AddedAllStep(AddAllStripped(Some(h), front), h, front, e);
    }
  }

  /** One more visit keeps `AddedAll`. */
  lemma AddedAllStep(r0: Option<Histories>, h: Histories, front: seq<(string, string)>, e: (string, string))
    requires AddedAll(r0, h, front)
    ensures AddedAll(AddStripped(r0, e.0, e.1), h, front + [e])
  {
    UnknownSnoc(h, front, e);
    var r := AddStripped(r0, e.0, e.1);
    if r0.Some? && r.Some? {
      var m0 := r0.value;
      assert r.value.Keys == m0.Keys;
      forall k | k in h ensures r.value[k] == h[k] + ValuesFor(front + [e], k) {
        ValuesForSnoc(front, e, k);
        if Strip(e.1) != "" && k == e.0 {
          assert r.value[k] == m0[k] + {Strip(e.1)};
        } else {
          assert r.value[k] == m0[k];
        }
      }
    }
  }

  /** Visiting `a` and then `b` is visiting `a + b`. */
  lemma {:induction false} AddAllAppend(h: Option<Histories>, a: seq<(string, string)>, b: seq<(string, string)>)
    ensures AddAllStripped(h, a + b) == AddAllStripped(AddAllStripped(h, a), b)
  {
    if |b| == 0 {
      assert a + b == a;
    } else {
      assert (a + b)[..|a + b| - 1] == a + b[..|b| - 1];
      AddAllAppend(h, a, b[..|b| - 1]);
    }
  }

  /** Once a `KeyError` is raised, the rest of the loop does not run. */
  lemma {:induction false} NoneStays(es: seq<(string, string)>)
    ensures AddAllStripped(None, es) == None
  {
    if |es| > 0 {
      NoneStays(es[..|es| - 1]);
    }
  }

  /** The loop of `histories[key].add(...)` calls; `None` when one raises `KeyError`. */
  method AddEach(h: Histories, es: seq<(string, string)>) returns (r: Option<Histories>)
    ensures r == AddAllStripped(Some(h), es)
  {
    var cur := h;
    var i := 0;
    while i < |es|
      invariant 0 <= i <= |es|
      invariant AddAllStripped(Some(h), es[..i]) == Some(cur)
    {
      assert es[..i + 1][..i] == es[..i];
      var (key, v) := es[i];
      var val := Strip(v);
      if val != "" {
        if key !in cur {
          AddAllAppend(Some(h), es[..i + 1], es[i + 1..]);
          NoneStays(es[i + 1..]);
          assert es[..i + 1] + es[i + 1..] == es;
          return None;
        }
        cur := cur[key := cur[key] + {val}];
      }
      i := i + 1;
    }
    assert es[..i] == es;
    r := Some(cur);
  }

  /** The history key of each field. */
  function KeyOf(f: Processor.Field): string
  {
    match f
    case ArtistField => "artist"
    case VenueField => "venue"
    case CityField => "city"
    case SourceField => "source"
    case FormatField => "format"
    case GenreField => "genre"
    case AddField => "add"
  }

  /** `{v.strip()}` when `v` is not blank, else nothing. */
  function Stripped(v: string): set<string>
  {
    if Strip(v) != "" then {Strip(v)} else {}
  }

  /** A key listed once contributes exactly its own value. */
  lemma ValuesForUnique(es: seq<(string, string)>, j: nat)
    requires j < |es| && forall i :: 0 <= i < |es| && i != j ==> es[i].0 != es[j].0
    ensures ValuesFor(es, es[j].0) == Stripped(es[j].1)
  {
  }

  /** Keys not listed contribute nothing. */
  lemma ValuesForAbsent(es: seq<(string, string)>, k: string)
    requires forall i :: 0 <= i < |es| ==> es[i].0 != k
    ensures ValuesFor(es, k) == {}
  {
  }

  /** The form fields the thread records before processing, in its order. */
  function FormEntries(form: Form): seq<(string, string)>
  {
    [("artist", form.artist), ("venue", form.venue), ("city", form.city), ("add", form.add),
     ("source", form.source), ("format", form.fmt), ("genre", form.genre)]
  }

  /** Where each field sits in `FormEntries`. */
  function FormIndex(f: Processor.Field): nat
  {
    match f
    case ArtistField => 0
    case VenueField => 1
    case CityField => 2
    case AddField => 3
    case SourceField => 4
    case FormatField => 5
    case GenreField => 6
  }

  /** The field at each position of `FormEntries`. */
  function FormField(i: nat): Processor.Field
  {
    [Processor.ArtistField, Processor.VenueField, Processor.CityField, Processor.AddField,
     Processor.SourceField, Processor.FormatField, Processor.GenreField][i % 7]
  }

  /** The fallback values recorded for each folder, in the thread's order. */
  function FallbackEntries(fb: Processor.Fallbacks): seq<(string, string)>
  {
    [("artist", fb.artist), ("venue", fb.venue), ("city", fb.city), ("source", fb.source),
     ("format", fb.format), ("add", fb.add), ("genre", fb.genre)]
  }

  /** Where each field sits in `FallbackEntries`. */
  function FallbackIndex(f: Processor.Field): nat
  {
    match f
    case ArtistField => 0
    case VenueField => 1
    case CityField => 2
    case SourceField => 3
    case FormatField => 4
    case AddField => 5
    case GenreField => 6
  }

  /** The field at each position of `FallbackEntries`. */
  function FallbackField(i: nat): Processor.Field
  {
    [Processor.ArtistField, Processor.VenueField, Processor.CityField, Processor.SourceField,
     Processor.FormatField, Processor.AddField, Processor.GenreField][i % 7]
  }

  /** The histories hold every key the thread writes to. */
  predicate HasKeys(h: Histories)
  {
    forall f :: KeyOf(f) in h
  }

  /** A key other than the seven. */
  predicate OtherKey(k: string)
  {
    forall f :: KeyOf(f) != k
  }

  /** Different fields have different history keys. */
  lemma KeyOfInjective(f: Processor.Field, g: Processor.Field)
    requires KeyOf(f) == KeyOf(g)
    ensures f == g
  {
    assert KeyOf(f)[0] == KeyOf(g)[0] && |KeyOf(f)| == |KeyOf(g)|;
  }

  /** `FormEntries` lists each field once, at `FormIndex`, under its own key. */
  lemma FormEntriesLayout(form: Form)
    ensures forall i :: 0 <= i < 7 ==>
              FormIndex(FormField(i)) == i && FormEntries(form)[i] == (KeyOf(FormField(i)), FormFor(form, FormField(i)))
    ensures forall f :: FormIndex(f) < 7 && FormField(FormIndex(f)) == f
  {
  }

  /** `FallbackEntries` lists each field once, at `FallbackIndex`, under its own key. */
  lemma FallbackEntriesLayout(fb: Processor.Fallbacks)
    ensures forall i :: 0 <= i < 7 ==>
              FallbackIndex(FallbackField(i)) == i && FallbackEntries(fb)[i] == (KeyOf(FallbackField(i)), Processor.GuiValue(fb, FallbackField(i)))
    ensures forall f :: FallbackIndex(f) < 7 && FallbackField(FallbackIndex(f)) == f
  {
  }

  /** Seven entries, one per field, each under the field's key. */
  predicate OnePerField(es: seq<(string, string)>, field: seq<Processor.Field>)
  {
    |es| == 7 && |field| == 7 &&
    (forall i :: 0 <= i < 7 ==> es[i].0 == KeyOf(field[i])) &&
    (forall i, j :: 0 <= i < 7 && 0 <= j < 7 && i != j ==> field[i] != field[j])
  }

  /**
   * Visiting one entry per field never fails when every key is present, and
   * leaves each field's key with the stripped value of its entry added.
   */
  lemma AddOnePerField(h: Histories, es: seq<(string, string)>, field: seq<Processor.Field>)
    requires HasKeys(h) && OnePerField(es, field)
    ensures var r := AddAllStripped(Some(h), es);
            r.Some? && r.value.Keys == h.Keys &&
            (forall i :: 0 <= i < 7 ==> r.value[KeyOf(field[i])] == h[KeyOf(field[i])] + Stripped(es[i].1)) &&
            (forall k :: k in h && OtherKey(k) ==> r.value[k] == h[k])
  {
    assert !Unknown(h, es);
    AddAllStrippedSpec(h, es);
    forall j | 0 <= j < 7 ensures ValuesFor(es, es[j].0) == Stripped(es[j].1) {
      forall i | 0 <= i < 7 && i != j ensures es[i].0 != es[j].0 {
        if es[i].0 == es[j].0 {
          KeyOfInjective(field[i], field[j]);
        }
      }
      ValuesForUnique(es, j);
    }
    forall k | OtherKey(k) ensures ValuesFor(es, k) == {} {
      ValuesForAbsent(es, k);
    }
  }

  /** The fields in the order of `FormEntries`. */
  const FormOrder: seq<Processor.Field> := [Processor.ArtistField, Processor.VenueField, Processor.CityField,
    Processor.AddField, Processor.SourceField, Processor.FormatField, Processor.GenreField]

  /** The fields in the order of `FallbackEntries`. */
  const FallbackOrder: seq<Processor.Field> := [Processor.ArtistField, Processor.VenueField, Processor.CityField,
    Processor.SourceField, Processor.FormatField, Processor.AddField, Processor.GenreField]

  /**
   * Recording the form before processing: with every key present it cannot
   * fail, and each key gains its stripped form value (read from `fmt` for
   * "format") when that is not blank, and nothing else.
   */
  lemma CaptureForm(h: Histories, form: Form)
    requires HasKeys(h)
    ensures var r := AddAllStripped(Some(h), FormEntries(form));
            r.Some? && r.value.Keys == h.Keys &&
            (forall f :: r.value[KeyOf(f)] == h[KeyOf(f)] + Stripped(FormFor(form, f))) &&
            (forall k :: k in h && OtherKey(k) ==> r.value[k] == h[k])
  {
    var es := FormEntries(form);
    FormEntriesLayout(form);
    assert forall i :: 0 <= i < 7 ==> FormOrder[i] == FormField(i);
    AddOnePerField(h, es, FormOrder);
    forall f ensures Stripped(es[FormIndex(f)].1) == Stripped(FormFor(form, f)) && FormOrder[FormIndex(f)] == f {
    }
  }

  /**
   * Recording a folder's fallback values: with every key present it cannot
   * fail, and each key gains the field's value when it is not empty (the
   * values are already stripped), and nothing else.
   */
  lemma CaptureFallbacks(h: Histories, fb: Processor.Fallbacks)
    requires HasKeys(h)
    ensures var r := AddAllStripped(Some(h), FallbackEntries(fb));
            r.Some? && r.value.Keys == h.Keys &&
            (forall f :: r.value[KeyOf(f)] == h[KeyOf(f)] + Stripped(Processor.GuiValue(fb, f))) &&
            (forall k :: k in h && OtherKey(k) ==> r.value[k] == h[k])
  {
    var es := FallbackEntries(fb);
    FallbackEntriesLayout(fb);
    assert forall i :: 0 <= i < 7 ==> FallbackOrder[i] == FallbackField(i);
    AddOnePerField(h, es, FallbackOrder);
    forall f ensures Stripped(es[FallbackIndex(f)].1) == Stripped(Processor.GuiValue(fb, f)) && FallbackOrder[FallbackIndex(f)] == f {
    }
  }
}
