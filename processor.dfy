/**
 * The folder processor (utils/processor.py): genre splitting, date
 * normalisation, the precedence of GUI values over parsed ones, the
 * bookkeeping of histories, caches and asset lists, collision-free
 * destination names, and the tags written to moved audio files.
 *
 * Moving files, writing tags and evaluating the naming schemes are
 * collaborators: their outcomes are parameters (`Run`, `evaluate`).
 */
module Processor {
  import opened Text
  import Dates
  import Sorting
  import FileUtils
  import FolderMatch
  import MetadataMerge
  import DirWalk
  import Cache

  // ---------------------------------------------------------------------
  // Genres
  // ---------------------------------------------------------------------

  predicate IsGenreSep(c: char)
  {
    c == ';' || c == ','
  }

  /** No genre separator occurs in `x`. */
  predicate SepFree(x: string)
  {
    ';' !in x && ',' !in x
  }

  /** `re.split(r"[;,]", s)`: the text between separators, one more piece than separators. */
  function Pieces(s: string): (r: seq<string>)
    ensures |r| >= 1
  {
    if |s| == 0 then [""]
    else
      var rest := Pieces(s[1..]);
      if IsGenreSep(s[0]) then [""] + rest
      else [[s[0]] + rest[0]] + rest[1..]
  }

  /** The number of separators in `s`. */
  function SepCount(s: string): nat
  {
    if |s| == 0 then 0 else (if IsGenreSep(s[0]) then 1 else 0) + SepCount(s[1..])
  }

  /** `s` with its separators removed. */
  function WithoutSeps(s: string): string
  {
    if |s| == 0 then "" else (if IsGenreSep(s[0]) then "" else [s[0]]) + WithoutSeps(s[1..])
  }

  function Concat(xs: seq<string>): string
  {
    if |xs| == 0 then "" else xs[0] + Concat(xs[1..])
  }

  /**
   * The pieces hold no separator, there is one more of them than there are
   * separators, and together they are `s` without its separators.
   */
  lemma {:induction false} PiecesSpec(s: string)
    ensures forall i :: 0 <= i < |Pieces(s)| ==> SepFree(Pieces(s)[i])
    ensures |Pieces(s)| == SepCount(s) + 1
    ensures Concat(Pieces(s)) == WithoutSeps(s)
  {
    if |s| > 0 {
      PiecesSpec(s[1..]);
      var rest := Pieces(s[1..]);
      if IsGenreSep(s[0]) {
        assert ([""] + rest)[1..] == rest;
      } else {
        var r := Pieces(s);
        assert r[0] == [s[0]] + rest[0] && r[1..] == rest[1..];
        assert SepFree(r[0]) by {
          assert forall c :: c in r[0] ==> c == s[0] || c in rest[0];
        }
        assert Concat(rest) == rest[0] + Concat(rest[1..]);
      }
    }
  }

  /** A leading piece without separators stays in front of the first piece of the rest. */
  lemma {:induction false} PiecesPrefix(a: string, rest: string)
    requires SepFree(a)
    ensures Pieces(a + rest) == [a + Pieces(rest)[0]] + Pieces(rest)[1..]
  {
    if |a| == 0 {
      assert a + rest == rest;
      var p := Pieces(rest);
      assert a + p[0] == p[0] && [p[0]] + p[1..] == p;
    } else {
      assert (a + rest)[0] == a[0] && !IsGenreSep(a[0]);
      assert (a + rest)[1..] == a[1..] + rest;
      assert SepFree(a[1..]) by {
        assert forall c :: c in a[1..] ==> c in a;
      }
      PiecesPrefix(a[1..], rest);
      assert [a[0]] + (a[1..] + Pieces(rest)[0]) == a + Pieces(rest)[0];
    }
  }

  /** `_split_genres`: split on ';' or ',', strip, and drop empty pieces. */
  function SplitGenres(g: string): seq<string>
  {
    if g == "" then [] else FileUtils.CleanLines(Pieces(g))
  }

  /**
   * Every genre is stripped, non-empty and free of separators, and the
   * genres are exactly the non-blank pieces, stripped.
   */
  lemma SplitGenresSpec(g: string)
    ensures forall x :: x in SplitGenres(g) ==> FileUtils.CleanLine(x) && SepFree(x)
    ensures forall x :: x in SplitGenres(g) <==>
              exists i :: 0 <= i < |Pieces(g)| && Strip(Pieces(g)[i]) == x && x != ""
  {
    var ps := Pieces(g);
    PiecesSpec(g);
    FileUtils.CleanLinesSpec(ps);
    if g == "" {
      assert ps == [""];
      assert Strip("") == "";
    }
    forall x | x in SplitGenres(g) ensures SepFree(x) {
      var i :| 0 <= i < |ps| && Strip(ps[i]) == x && x != "";
      StripSubset(ps[i]);
    }
  }

  /** Stripping only removes characters. */
  lemma StripSubset(s: string)
    ensures forall c :: c in Strip(s) ==> c in s
  {
    LStripShape(s);
    RStripShape(LStrip(s));
    forall c | c in Strip(s) ensures c in s {
      var k :| 0 <= k < |Strip(s)| && Strip(s)[k] == c;
      assert c == LStrip(s)[k];
      assert c == s[|s| - |LStrip(s)| + k];
    }
  }

  /** A leading space makes no difference to `strip`. */
  lemma StripLeadingSpace(y: string)
    ensures Strip(" " + y) == Strip(y)
  {
    assert (" " + y)[1..] == y;
    assert IsSpace((" " + y)[0]);
  }

  /** Lines with the same stripped form clean the same way. */
  lemma CleanLinesHead(a: string, b: string, ys: seq<string>)
    requires Strip(a) == Strip(b)
    ensures FileUtils.CleanLines([a] + ys) == FileUtils.CleanLines([b] + ys)
  {
    assert ([a] + ys)[1..] == ys && ([b] + ys)[1..] == ys;
  }

  /**
   * The genre tag read back: genres that are clean and free of separators,
   * joined with "; ", split into the same list.
   */
  lemma {:induction false} SplitJoined(parts: seq<string>)
    requires forall i :: 0 <= i < |parts| ==> FileUtils.CleanLine(parts[i]) && SepFree(parts[i])
    ensures FileUtils.CleanLines(Pieces(Join(parts, "; "))) == parts
  {
    if |parts| == 0 {
      assert Pieces("") == [""];
      assert Strip("") == "";
    } else if |parts| == 1 {
      var p := parts[0];
      assert p + "" == p;
      PiecesPrefix(p, "");
      assert Pieces(p) == [p];
      assert FileUtils.CleanLines([p]) == [p] + FileUtils.CleanLines([]);
    } else {
      var p := parts[0];
      var j := Join(parts[1..], "; ");
      assert Join(parts, "; ") == p + (";" + (" " + j));
      PiecesPrefix(p, ";" + (" " + j));
      assert (";" + (" " + j))[1..] == " " + j;
      assert Pieces(";" + (" " + j)) == [""] + Pieces(" " + j);
      PiecesPrefix(" ", j);
      var pj := Pieces(j);
      assert Pieces(" " + j) == [" " + pj[0]] + pj[1..];
      assert p + "" == p;
      var all := [p] + ([" " + pj[0]] + pj[1..]);
      assert Pieces(Join(parts, "; ")) == all;
      assert all[1..] == [" " + pj[0]] + pj[1..];
      StripLeadingSpace(pj[0]);
      CleanLinesHead(" " + pj[0], pj[0], pj[1..]);
      assert [pj[0]] + pj[1..] == pj;
      SplitJoined(parts[1..]);
    }
  }

  /** Splitting genres joined with "; " gives them back. */
  lemma GenresRoundTrip(parts: seq<string>)
    requires forall i :: 0 <= i < |parts| ==> FileUtils.CleanLine(parts[i]) && SepFree(parts[i])
    ensures SplitGenres(Join(parts, "; ")) == parts
  {
    SplitJoined(parts);
    if |parts| == 1 {
      assert Join(parts, "; ") == parts[0];
    } else if |parts| > 1 {
      assert Join(parts, "; ")[0] == parts[0][0];
    }
  }

  // ---------------------------------------------------------------------
  // Dates
  // ---------------------------------------------------------------------

  /** `_normalize_date`: a `%Y-%m-%d` date reformatted, otherwise the stripped text. */
  function NormalizeDate(d: string): string
  {
    if d == "" then ""
    else
      match Dates.Strptime(d, Dates.YmdDash)
      case Some(dt) => Dates.IsoFormat(dt)
      case None => Strip(d)
  }

  /** The result is empty exactly for blank input. */
  lemma NormalizeDateBlank(d: string)
    ensures NormalizeDate(d) == "" <==> IsBlank(d)
  {
    StripBlank(d);
    match Dates.Strptime(d, Dates.YmdDash)
    case Some(dt) =>
      Dates.StrptimeValid(d, Dates.YmdDash);
      Dates.IsoShape(dt);
      assert '-' in d by {
        if '-' !in d {
          assert Dates.Lit('-') == Dates.YmdDash[1];
          MetadataMerge.LiteralAbsent(d, '-');
          MetadataMerge.DirectiveNeeded(Dates.YmdDash, d, 0, Dates.Fields(None, None, None), Dates.Lit('-'));
        }
      }
      var k :| 0 <= k < |d| && d[k] == '-';
      assert !IsSpace(d[k]);
    case None =>
  }

  /** A parsable date keeps its meaning: it parses to the same day afterwards. */
  lemma NormalizeDateKeepsDay(d: string)
    requires Dates.Strptime(d, Dates.YmdDash).Some?
    ensures Dates.Strptime(NormalizeDate(d), Dates.YmdDash) == Dates.Strptime(d, Dates.YmdDash)
  {
    var dt := Dates.Strptime(d, Dates.YmdDash).value;
    Dates.StrptimeValid(d, Dates.YmdDash);
    Dates.IsoRoundTrip(dt);
  }

  /** A date already in `YYYY-MM-DD` form is returned unchanged. */
  lemma NormalizeDateIso(dt: Dates.Date)
    requires dt.Valid()
    ensures NormalizeDate(Dates.IsoFormat(dt)) == Dates.IsoFormat(dt)
  {
    Dates.IsoRoundTrip(dt);
    Dates.IsoShape(dt);
  }

  // ---------------------------------------------------------------------
  // Precedence of GUI values over parsed ones
  // ---------------------------------------------------------------------

  /** The `gui_fallbacks` dictionary; a missing key reads as "". */
  datatype Fallbacks = Fallbacks(artist: string, venue: string, city: string, source: string, format: string,
                                 genre: string, add: string, date: string, currentFolderName: string)

  /** The metadata a folder is evaluated with (`meta`, whose "additional" and "add" both hold `add`). */
  datatype Meta = Meta(artist: string, venue: string, city: string, source: string, format: string,
                       genre: string, add: string, date: string, currentFolderName: string)

  /** `a or b` on strings. */
  function Prefer(a: string, b: string): string
  {
    if a != "" then a else b
  }

  /** The values `process_folders` settles on for one folder. */
  function FolderMeta(gui: Fallbacks, md: FolderMatch.Info): Meta
  {
    Meta(Prefer(gui.artist, md.artist), Prefer(gui.venue, md.venue), Prefer(gui.city, md.city),
         Prefer(gui.source, md.source), Prefer(gui.format, md.format), Prefer(gui.genre, md.genre),
         Prefer(gui.add, Prefer(md.additional, md.add)),
         NormalizeDate(Prefer(gui.date, md.date)), gui.currentFolderName)
  }

  /** The seven text fields the GUI and the folder name both supply. */
  datatype Field = ArtistField | VenueField | CityField | SourceField | FormatField | GenreField | AddField

  function GuiValue(gui: Fallbacks, f: Field): string
  {
    match f
    case ArtistField => gui.artist
    case VenueField => gui.venue
    case CityField => gui.city
    case SourceField => gui.source
    case FormatField => gui.format
    case GenreField => gui.genre
    case AddField => gui.add
  }

  /** The parsed value of a field; for `add`, "additional" and then "add". */
  function ParsedValue(md: FolderMatch.Info, f: Field): string
  {
    match f
    case ArtistField => md.artist
    case VenueField => md.venue
    case CityField => md.city
    case SourceField => md.source
    case FormatField => md.format
    case GenreField => md.genre
    case AddField => if md.additional != "" then md.additional else md.add
  }

  function MetaValue(m: Meta, f: Field): string
  {
    match f
    case ArtistField => m.artist
    case VenueField => m.venue
    case CityField => m.city
    case SourceField => m.source
    case FormatField => m.format
    case GenreField => m.genre
    case AddField => m.add
  }

  /**
   * A non-empty GUI value wins; an empty one leaves the parsed value. The
   * date is the preferred raw date, normalised.
   */
  lemma PrecedenceSpec(gui: Fallbacks, md: FolderMatch.Info)
    ensures var m := FolderMeta(gui, md);
            (forall f :: GuiValue(gui, f) != "" ==> MetaValue(m, f) == GuiValue(gui, f)) &&
            (forall f :: GuiValue(gui, f) == "" ==> MetaValue(m, f) == ParsedValue(md, f)) &&
            m.date == NormalizeDate(if gui.date != "" then gui.date else md.date)
  {
    var m := FolderMeta(gui, md);
    forall f ensures MetaValue(m, f) == (if GuiValue(gui, f) != "" then GuiValue(gui, f) else ParsedValue(md, f)) {
      FieldPrecedence(gui, md, m, f);
    }
  }

  lemma FieldPrecedence(gui: Fallbacks, md: FolderMatch.Info, m: Meta, f: Field)
    requires m == FolderMeta(gui, md)
    ensures MetaValue(m, f) == (if GuiValue(gui, f) != "" then GuiValue(gui, f) else ParsedValue(md, f))
  {
    match f
    case ArtistField =>
    case VenueField =>
    case CityField =>
    case SourceField =>
    case FormatField =>
    case GenreField =>
    case AddField =>
  }

  // ---------------------------------------------------------------------
  // Bookkeeping: histories, caches, last-used values and asset lists
  // ---------------------------------------------------------------------

  /** `histories.setdefault(key, set()).add(v)` for a non-empty `v`. */
  function AddHistory(h: map<string, set<string>>, key: string, v: string): map<string, set<string>>
  {
    if v == "" then h else h[key := (if key in h then h[key] else {}) + {v}]
  }

  /** The (key, value) pairs the history loop visits, in order. */
  function HistoryEntries(m: Meta): seq<(string, string)>
  {
    [("source", m.source), ("format", m.format), ("genre", m.genre), ("add", m.add)]
  }

  /** The histories after the loop has visited `es`. */
  function AddAll(h: map<string, set<string>>, es: seq<(string, string)>): map<string, set<string>>
  {
    if |es| == 0 then h else AddHistory(AddAll(h, es[..|es| - 1]), es[|es| - 1].0, es[|es| - 1].1)
  }

  /** The value recorded under a history key ("" for keys the loop does not visit). */
  function HistoryValue(m: Meta, key: string): string
  {
    if key == "source" then m.source else if key == "format" then m.format
    else if key == "genre" then m.genre else if key == "add" then m.add else ""
  }

  /** One step of the loop, seen from key `k`: only `key` changes, and only by gaining a non-empty `v`. */
  lemma AddHistorySpec(h: map<string, set<string>>, key: string, v: string, k: string)
    ensures var r := AddHistory(h, key, v);
            (k in r <==> k in h || (k == key && v != "")) &&
            (k in r ==> forall x :: x in r[k] <==> (k in h && x in h[k]) || (k == key && v != "" && x == v))
  {
  }

  /**
   * History `k` in `r` is history `k` in `h` plus the non-empty value the
   * metadata records under `k`; it exists only if it existed or gains a value.
   */
  ghost predicate HistoryRecorded(r: map<string, set<string>>, h: map<string, set<string>>, m: Meta, k: string)
  {
    (k in r <==> k in h || HistoryValue(m, k) != "") &&
    (k in r ==> forall v :: v in r[k] <==> (k in h && v in h[k]) || (v != "" && v == HistoryValue(m, k)))
  }

  /** The history loop gains exactly the recorded values and removes nothing. */
  lemma RecordHistoriesSpec(h: map<string, set<string>>, m: Meta)
    ensures forall k :: HistoryRecorded(AddAll(h, HistoryEntries(m)), h, m, k)
  {
    AddAllEntries(h, m);
    forall k ensures HistoryRecorded(AddAll(h, HistoryEntries(m)), h, m, k) {
      RecordHistoryAt(h, m, k);
    }
  }

  lemma RecordHistoryAt(h: map<string, set<string>>, m: Meta, k: string)
    ensures HistoryRecorded(AddHistory(AddHistory(AddHistory(AddHistory(h, "source", m.source), "format", m.format), "genre", m.genre), "add", m.add), h, m, k)
  {
    var h1 := AddHistory(h, "source", m.source);
    var h2 := AddHistory(h1, "format", m.format);
    var h3 := AddHistory(h2, "genre", m.genre);
    AddHistorySpec(h, "source", m.source, k);
    AddHistorySpec(h1, "format", m.format, k);
    AddHistorySpec(h2, "genre", m.genre, k);
    AddHistorySpec(h3, "add", m.add, k);
  }

  /** The loop over the four entries, written out. */
  lemma AddAllEntries(h: map<string, set<string>>, m: Meta)
    ensures AddAll(h, HistoryEntries(m)) ==
            AddHistory(AddHistory(AddHistory(AddHistory(h, "source", m.source), "format", m.format), "genre", m.genre), "add", m.add)
  {
    var es := HistoryEntries(m);
    var h1 := AddHistory(h, "source", m.source);
    var h2 := AddHistory(h1, "format", m.format);
    var h3 := AddHistory(h2, "genre", m.genre);
    assert es[..1][..0] == [] && es[..2][..1] == es[..1] && es[..3][..2] == es[..2] && es[..4][..3] == es[..3];
    assert AddAll(h, es[..1]) == h1;
    assert AddAll(h, es[..2]) == h2;
    assert AddAll(h, es[..3]) == h3;
    assert es[..4] == es;
  }

  /** The asset list file after `_update_txt_file(file, value)`. */
  function UpdateAsset(file: Option<seq<string>>, value: string): Option<seq<string>>
  {
    match FileUtils.UpdatedLines(file, value)
    case Some(lines) => Some(lines)
    case None => file
  }

  /**
   * A blank value leaves the file alone. Otherwise the stripped value is
   * listed afterwards, either because it already was (ignoring case) or
   * because it was put on top of the old lines.
   */
  lemma UpdateAssetSpec(file: Option<seq<string>>, value: string)
    ensures var v := Strip(value);
            var r := UpdateAsset(file, value);
            (v == "" ==> r == file) &&
            (v != "" ==> FileUtils.PresentCI(FileUtils.LoadTextList(r), v)) &&
            (r != file ==> FileUtils.LoadTextList(r) == [v] + FileUtils.LoadTextList(file))
  {
    FileUtils.UpdatedLinesSpec(file, value);
    if FileUtils.UpdatedLines(file, value).Some? {
      FileUtils.UpdatedLinesReload(file, value);
    }
  }

  /** The processor's bookkeeping, as one value. */
  datatype Books = Books(histories: map<string, set<string>>, artistCache: set<string>, genreCache: set<string>,
                         usedCache: Cache.UsedCache, lastSource: string, lastFormat: string, lastGenre: string,
                         artistsFile: Option<seq<string>>, venuesFile: Option<seq<string>>,
                         citiesFile: Option<seq<string>>)

  /** The bookkeeping after one folder's values are settled (utils/processor.py, lines 133-157). */
  function Record(b: Books, m: Meta): Books
  {
    Books(AddAll(b.histories, HistoryEntries(m)),
          if m.artist != "" then b.artistCache + {m.artist} else b.artistCache,
          if m.genre != "" then b.genreCache + Elements(SplitGenres(m.genre)) else b.genreCache,
          Cache.UpdateUsedCache(b.usedCache, m.artist, m.genre),
          m.source, m.format, m.genre,
          UpdateAsset(b.artistsFile, m.artist), UpdateAsset(b.venuesFile, m.venue), UpdateAsset(b.citiesFile, m.city))
  }

  /** The bookkeeping after the folders with values `ms`, in order. */
  function RecordAll(b: Books, ms: seq<Meta>): Books
  {
    if |ms| == 0 then b else Record(RecordAll(b, ms[..|ms| - 1]), ms[|ms| - 1])
  }

  /**
   * Caches only grow, and by exactly the folder's non-empty artist and its
   * genres; the last-used values are overwritten even with "".
   */
  lemma RecordSpec(b: Books, m: Meta)
    ensures var r := Record(b, m);
            (forall a :: a in r.artistCache <==> a in b.artistCache || (a != "" && a == m.artist)) &&
            (forall g :: g in r.genreCache <==> g in b.genreCache || g in SplitGenres(m.genre)) &&
            r.lastSource == m.source && r.lastFormat == m.format && r.lastGenre == m.genre
  {
    if m.genre == "" {
      assert SplitGenres(m.genre) == [];
    }
  }

  // ---------------------------------------------------------------------
  // Destination names
  // ---------------------------------------------------------------------

  /** The index of the last '.', or -1 when there is none. */
  function LastDot(p: string): (r: int)
    ensures -1 <= r < |p|
    ensures r >= 0 ==> p[r] == '.'
    ensures forall k :: r < k < |p| ==> p[k] != '.'
  {
    if |p| == 0 then -1
    else if p[|p| - 1] == '.' then |p| - 1
    else LastDot(p[..|p| - 1])
  }

  /** Every character of `p[lo..hi]` is a dot. */
  function AllDots(p: string, lo: nat, hi: nat): bool
    requires lo <= hi <= |p|
    decreases hi - lo
  {
    lo == hi || (p[lo] == '.' && AllDots(p, lo + 1, hi))
  }

  lemma {:induction false} AllDotsSpec(p: string, lo: nat, hi: nat)
    requires lo <= hi <= |p|
    ensures AllDots(p, lo, hi) <==> forall k :: lo <= k < hi ==> p[k] == '.'
    decreases hi - lo
  {
    if lo < hi {
      AllDotsSpec(p, lo + 1, hi);
    }
  }

  /** `os.path.splitext` on POSIX: leading dots of the name do not start an extension. */
  function SplitExt(p: string): (string, string)
  {
    var sep := DirWalk.LastSlash(p);
    var dot := LastDot(p);
    if dot > sep && !AllDots(p, sep + 1, dot) then (p[..dot], p[dot..]) else (p, "")
  }

  /** The two parts make up the path, and a non-empty extension is a dot followed by neither dots nor slashes. */
  lemma SplitExtShape(p: string)
    ensures var (b, e) := SplitExt(p);
            b + e == p && (e != "" ==> e[0] == '.' && forall k :: 0 < k < |e| ==> e[k] != '.' && e[k] != '/')
  {
    var dot := LastDot(p);
    var (b, e) := SplitExt(p);
    if e != "" {
      assert e == p[dot..];
      forall k | 0 < k < |e| ensures e[k] != '.' && e[k] != '/' {
        assert e[k] == p[dot + k];
      }
    }
  }

  /**
   * There is an extension exactly when the last path component has a dot
   * preceded by some other character of that component.
   */
  lemma SplitExtWhen(p: string)
    ensures SplitExt(p).1 != "" <==> InnerDot(p)
  {
    SplitExtCond(p);
    var sep := DirWalk.LastSlash(p);
    var dot := LastDot(p);
    if dot > sep && !AllDots(p, sep + 1, dot) {
      SplitExtHasDot(p);
    } else {
      SplitExtNoDot(p);
    }
  }

  /** The last path component has a dot preceded by some other character of that component. */
  predicate InnerDot(p: string)
  {
    exists i, k :: DirWalk.LastSlash(p) < k < i < |p| && p[i] == '.' && p[k] != '.'
  }

  /** An extension is split off only after a dot that follows some non-dot of the last component. */
  lemma SplitExtHasDot(p: string)
    requires LastDot(p) > DirWalk.LastSlash(p) && !AllDots(p, DirWalk.LastSlash(p) + 1, LastDot(p))
    ensures InnerDot(p)
  {
    var sep := DirWalk.LastSlash(p);
    var dot := LastDot(p);
    var k := NotAllDots(p, sep + 1, dot);
    assert sep < k < dot < |p| && p[dot] == '.' && p[k] != '.';
  }

  /** A range that is not all dots has a non-dot. */
  lemma {:induction false} NotAllDots(p: string, lo: nat, hi: nat) returns (k: nat)
    requires lo <= hi <= |p| && !AllDots(p, lo, hi)
    ensures lo <= k < hi && p[k] != '.'
    decreases hi - lo
  {
    if p[lo] != '.' {
      k := lo;
    } else {
      k := NotAllDots(p, lo + 1, hi);
    }
  }

  /** Every position of an all-dots range holds a dot. */
  lemma {:induction false} AllDotsAt(p: string, lo: nat, hi: nat, k: nat)
    requires lo <= k < hi <= |p| && AllDots(p, lo, hi)
    ensures p[k] == '.'
    decreases hi - lo
  {
    if k > lo {
      AllDotsAt(p, lo + 1, hi, k);
    }
  }

  /** When `SplitExt` splits: the last dot is in the last component and not among its leading dots. */
  lemma SplitExtCond(p: string)
    ensures SplitExt(p).1 != "" <==>
              LastDot(p) > DirWalk.LastSlash(p) && !AllDots(p, DirWalk.LastSlash(p) + 1, LastDot(p))
  {
    var sep := DirWalk.LastSlash(p);
    var dot := LastDot(p);
    if dot > sep && !AllDots(p, sep + 1, dot) {
      assert |p[dot..]| > 0;
    }
  }

  /** With no extension, every character of the last component before its last dot is a dot. */
  lemma SplitExtNoDot(p: string)
    requires !(LastDot(p) > DirWalk.LastSlash(p) && !AllDots(p, DirWalk.LastSlash(p) + 1, LastDot(p)))
    ensures !InnerDot(p)
  {
    var sep := DirWalk.LastSlash(p);
    var dot := LastDot(p);
    forall i, k | sep < k < i < |p| && p[i] == '.' ensures p[k] == '.' {
      assert i <= dot;
      if k < dot {
        AllDotsAt(p, sep + 1, dot, k);
      }
    }
  }

  /** The name `f"{base}({counter}){ext}"`. */
  function Candidate(base: string, ext: string, k: nat): string
  {
    base + "(" + NatToString(k) + ")" + ext
  }

  /** The k-th name tried for `file`: the file's own name first, then its numbered variants. */
  function Target(file: string, k: nat): string
  {
    if k == 0 then file else Candidate(SplitExt(file).0, SplitExt(file).1, k)
  }

  /** Different counters give different names. */
  lemma CandidateInjective(base: string, ext: string, j: nat, k: nat)
    requires Candidate(base, ext, j) == Candidate(base, ext, k)
    ensures j == k
  {
    var nj := NatToString(j);
    var nk := NatToString(k);
    var c := Candidate(base, ext, j);
    assert |nj| == |nk|;
    assert c[|base| + 1..|base| + 1 + |nj|] == nj;
    assert Candidate(base, ext, k)[|base| + 1..|base| + 1 + |nk|] == nk;
    NatToStringInjective(j, k);
  }

  /** The numbered names tried before counter `n`. */
  function Tried(base: string, ext: string, n: nat): set<string>
  {
    if n <= 1 then {} else Tried(base, ext, n - 1) + {Candidate(base, ext, n - 1)}
  }

  /** A later counter gives a name not tried yet. */
  lemma {:induction false} TriedFresh(base: string, ext: string, n: nat, m: nat)
    requires m >= n
    ensures Candidate(base, ext, m) !in Tried(base, ext, n)
  {
    if n > 1 {
      TriedFresh(base, ext, n - 1, m);
      if Candidate(base, ext, m) == Candidate(base, ext, n - 1) {
        CandidateInjective(base, ext, m, n - 1);
      }
    }
  }

  /** Trying one more name that the folder holds leaves fewer of its names untried. */
  lemma TriedGrows(base: string, ext: string, n: nat, present: set<string>)
    requires n >= 1 && Candidate(base, ext, n) in present
    ensures Tried(base, ext, n + 1) == Tried(base, ext, n) + {Candidate(base, ext, n)}
    ensures |present - Tried(base, ext, n + 1)| < |present - Tried(base, ext, n)|
  {
    TriedFresh(base, ext, n, n);
    var c := Candidate(base, ext, n);
    assert present - Tried(base, ext, n) == (present - Tried(base, ext, n + 1)) + {c};
  }

  /** `counter` picks the first of the file's candidate names that `folder` does not hold. */
  predicate FirstFree(folder: set<string>, file: string, counter: nat)
  {
    Target(file, counter) !in folder && AllTaken(folder, file, counter)
  }

  /** The folder holds each of the first `n` names tried for `file`. */
  predicate AllTaken(folder: set<string>, file: string, n: nat)
  {
    forall j :: 0 <= j < n ==> Target(file, j) in folder
  }

  lemma AllTakenStep(folder: set<string>, file: string, n: nat)
    requires AllTaken(folder, file, n) && Target(file, n) in folder
    ensures AllTaken(folder, file, n + 1)
  {
  }

  /**
   * The collision loop: the first of the file's name, `base(1)ext`,
   * `base(2)ext`, ... that is not already in the output folder.
   */
  method FreeName(present: set<string>, file: string) returns (dest: string, counter: nat)
    ensures dest == Target(file, counter) && FirstFree(present, file, counter)
  {
    dest, counter := file, 0;
    if file in present {
      var base := SplitExt(file).0;
      var ext := SplitExt(file).1;
      counter := 1;
      ghost var tried: set<string> := {};
      while true
        invariant counter >= 1
        invariant tried == Tried(base, ext, counter) && tried <= present
        invariant AllTaken(present, file, counter)
        decreases |present - tried|
      {
        dest := Candidate(base, ext, counter);
        if dest !in present {
          break;
        }
        assert Target(file, counter) == dest;
        AllTakenStep(present, file, counter);
        TriedGrows(base, ext, counter, present);
        tried := tried + {dest};
        counter := counter + 1;
      }
    }
  }

  /** The output folder after the move of file `i` to `d`: it gains `d` unless the move failed. */
  function After(folder: set<string>, i: nat, d: string, failing: set<nat>): set<string>
  {
    if i in failing then folder else folder + {d}
  }

  /**
   * The first `n` moves of a folder's files: `before[i]` is what the output
   * folder holds when file `i` is moved (first `present`, then growing by
   * each move that succeeds), and file `i` goes to the first of its
   * candidate names that `before[i]` does not hold.
   */
  predicate MovesOk(present: set<string>, files: seq<string>, failing: set<nat>,
                    dests: seq<string>, counters: seq<nat>, before: seq<set<string>>, n: nat)
  {
    n <= |files| && |dests| == n && |counters| == n && |before| == n &&
    (n > 0 ==> before[0] == present) &&
    (forall i :: 0 < i < n ==> before[i] == After(before[i - 1], i - 1, dests[i - 1], failing)) &&
    (forall i :: 0 <= i < n ==> Placed(before[i], files[i], dests[i], counters[i]))
  }

  /** `file` goes to `d`, its `c`-th name, the first one `folder` does not hold. */
  predicate Placed(folder: set<string>, file: string, d: string, c: nat)
  {
    d == Target(file, c) && FirstFree(folder, file, c)
  }

  /** What the output folder holds after the first `n` moves. */
  function Current(present: set<string>, failing: set<nat>, dests: seq<string>, before: seq<set<string>>, n: nat): set<string>
    requires n <= |dests| && n <= |before|
  {
    if n == 0 then present else After(before[n - 1], n - 1, dests[n - 1], failing)
  }

  /** One more move keeps `MovesOk`. */
  lemma MovesOkStep(present: set<string>, files: seq<string>, failing: set<nat>,
                    dests: seq<string>, counters: seq<nat>, before: seq<set<string>>, n: nat,
                    d: string, c: nat)
    requires MovesOk(present, files, failing, dests, counters, before, n) && n < |files|
    requires Placed(Current(present, failing, dests, before, n), files[n], d, c)
    ensures MovesOk(present, files, failing, dests + [d], counters + [c],
                    before + [Current(present, failing, dests, before, n)], n + 1)
  {
    var folder := Current(present, failing, dests, before, n);
    var ds, cs, bs := dests + [d], counters + [c], before + [folder];
    forall i | 0 <= i < n + 1 ensures Placed(bs[i], files[i], ds[i], cs[i]) {
      if i < n {
        assert bs[i] == before[i] && ds[i] == dests[i] && cs[i] == counters[i];
      } else {
        assert bs[i] == folder && ds[i] == d && cs[i] == c;
      }
    }
    AfterChainStep(present, failing, dests, before, n, d);
  }

  /** Appending the folder as the earlier moves left it keeps the `After` chain. */
  lemma AfterChainStep(present: set<string>, failing: set<nat>, dests: seq<string>, before: seq<set<string>>,
                       n: nat, d: string)
    requires |dests| == n && |before| == n
    requires forall i :: 0 < i < n ==> before[i] == After(before[i - 1], i - 1, dests[i - 1], failing)
    ensures var ds, bs := dests + [d], before + [Current(present, failing, dests, before, n)];
            forall i :: 0 < i < n + 1 ==> bs[i] == After(bs[i - 1], i - 1, ds[i - 1], failing)
  {
    var ds, bs := dests + [d], before + [Current(present, failing, dests, before, n)];
    forall i | 0 < i < n + 1 ensures bs[i] == After(bs[i - 1], i - 1, ds[i - 1], failing) {
      assert bs[i - 1] == before[i - 1] && ds[i - 1] == dests[i - 1];
    }
  }

  /** The move of file `n`: it gets the first free name in the folder as the earlier moves left it. */
  method MoveOne(present: set<string>, files: seq<string>, failing: set<nat>,
                 dests: seq<string>, counters: seq<nat>, before: seq<set<string>>, n: nat)
    returns (dests': seq<string>, counters': seq<nat>, before': seq<set<string>>)
    requires MovesOk(present, files, failing, dests, counters, before, n) && n < |files|
    ensures MovesOk(present, files, failing, dests', counters', before', n + 1)
  {
    var folder := Current(present, failing, dests, before, n);
    var d, c := FreeName(folder, files[n]);
    MovesOkStep(present, files, failing, dests, counters, before, n, d, c);
    dests', counters', before' := dests + [d], counters + [c], before + [folder];
  }

  /**
   * The move loop over one folder's files (utils/processor.py, lines
   * 188-214). `present` is what the output folder holds beforehand and
   * `failing` the indices whose `shutil.move` raises. Every file is given
   * the first free name at the moment it is moved, and the folder succeeds
   * exactly when no move failed.
   */
  method MoveFiles(present: set<string>, files: seq<string>, failing: set<nat>)
    returns (dests: seq<string>, counters: seq<nat>, before: seq<set<string>>, success: bool)
    ensures MovesOk(present, files, failing, dests, counters, before, |files|)
    ensures success <==> forall i :: 0 <= i < |files| ==> i !in failing
  {
    dests, counters, before, success := [], [], [], true;
    var i := 0;
    while i < |files|
      invariant 0 <= i <= |files|
      invariant MovesOk(present, files, failing, dests, counters, before, i)
      invariant success <==> forall j :: 0 <= j < i ==> j !in failing
    {
      dests, counters, before := MoveOne(present, files, failing, dests, counters, before, i);
      success := success && i !in failing;
      i := i + 1;
    }
  }

  /** What the folder holds when a file is moved stays there for the later moves. */
  lemma {:induction false} FolderGrows(present: set<string>, failing: set<nat>, dests: seq<string>, before: seq<set<string>>, i: nat, j: nat)
    requires |dests| == |before| && i < j < |before|
    requires forall k :: 0 < k < |before| ==> before[k] == After(before[k - 1], k - 1, dests[k - 1], failing)
    ensures before[i] <= before[j]
    ensures i !in failing ==> dests[i] in before[j]
    decreases j - i
  {
    if j > i + 1 {
      FolderGrows(present, failing, dests, before, i, j - 1);
    }
  }

  /**
   * No moved file overwrites what the folder held beforehand, and no two
   * moved files share a destination.
   */
  lemma MovesDistinct(present: set<string>, files: seq<string>, failing: set<nat>,
                      dests: seq<string>, counters: seq<nat>, before: seq<set<string>>)
    requires MovesOk(present, files, failing, dests, counters, before, |files|)
    ensures forall i :: 0 <= i < |dests| ==> dests[i] !in present
    ensures forall i, j :: 0 <= i < j < |dests| && i !in failing ==> dests[i] != dests[j]
  {
    forall i | 0 < i < |dests| ensures dests[i] !in present {
      FolderGrows(present, failing, dests, before, 0, i);
    }
    forall i, j | 0 <= i < j < |dests| && i !in failing ensures dests[i] != dests[j] {
      FolderGrows(present, failing, dests, before, i, j);
    }
  }

  /** `"; ".join(sorted({g.strip() for g in genres if g.strip()}))`, with the sorted list it joins. */
  method GenreTag(genres: seq<string>) returns (tag: string, sorted: seq<string>)
    ensures Sorting.StrictlySorted(Sorting.CodePoint, sorted)
    ensures forall g :: g in sorted <==> g in FileUtils.CleanLines(genres)
    ensures tag == Join(sorted, "; ")
  {
    sorted := Sorting.SortSet(Sorting.CodePoint, Elements(FileUtils.CleanLines(genres)));
    tag := Join(sorted, "; ");
  }

  /**
   * A genre tag built from split genres reads back, through `_split_genres`,
   * as the sorted distinct genres.
   */
  lemma GenreTagReadBack(genre: string, sorted: seq<string>)
    requires Sorting.StrictlySorted(Sorting.CodePoint, sorted)
    requires forall g :: g in sorted <==> g in FileUtils.CleanLines(SplitGenres(genre))
    ensures SplitGenres(Join(sorted, "; ")) == sorted
  {
    SplitGenresSpec(genre);
    var gs := SplitGenres(genre);
    FileUtils.CleanLinesOfClean(gs);
    forall i | 0 <= i < |sorted| ensures FileUtils.CleanLine(sorted[i]) && SepFree(sorted[i]) {
      assert sorted[i] in gs;
    }
    GenresRoundTrip(sorted);
  }

  /** The tags `retag_file` may write. */
  datatype Tag = TagArtist | TagAlbum | TagDate | TagVenue | TagLocation | TagGenre | TagSource | TagComment

  /** The arguments of `retag_file`. */
  datatype TagArgs = TagArgs(artist: string, album: string, date: string, venue: string, city: string,
                             genres: seq<string>, source: string, format: string)

  /** A file `retag_file` tags: its lower-cased extension is ".flac" or ".mp3". */
  predicate IsAudio(fp: string)
  {
    var e := Lower(SplitExt(fp).1);
    e == ".flac" || e == ".mp3"
  }

  /** The value written to a tag, if any; the genre tag is written whenever the genre list is non-empty. */
  function Written(t: Tag, args: TagArgs, genreTag: string): Option<string>
  {
    match t
    case TagArtist => if args.artist != "" then Some(args.artist) else None
    case TagAlbum => if args.album != "" then Some(args.album) else None
    case TagDate => if args.date != "" then Some(args.date) else None
    case TagVenue => if args.venue != "" then Some(args.venue) else None
    case TagLocation => if args.city != "" then Some(args.city) else None
    case TagGenre => if |args.genres| > 0 then Some(genreTag) else None
    case TagSource => if args.source != "" then Some(args.source) else None
    case TagComment => if args.format != "" then Some(args.format) else None
  }

  /** `audio[t] = value` when a value is written. */
  function Put(tags: map<Tag, string>, t: Tag, w: Option<string>): map<Tag, string>
  {
    if w.Some? then tags[t := w.value] else tags
  }

  /** One assignment changes only its own tag. */
  lemma PutSpec(tags: map<Tag, string>, t: Tag, w: Option<string>)
    ensures var r := Put(tags, t, w);
            forall u :: (u in r <==> u in tags || (u == t && w.Some?)) &&
                        (u in r ==> r[u] == if u == t && w.Some? then w.value else tags[u])
  {
  }

  /** The first four assignments of `retag_file`: artist, album, date and venue. */
  function Overlay1(tags: map<Tag, string>, args: TagArgs, genreTag: string): map<Tag, string>
  {
    var m1 := Put(tags, TagArtist, Written(TagArtist, args, genreTag));
    var m2 := Put(m1, TagAlbum, Written(TagAlbum, args, genreTag));
    var m3 := Put(m2, TagDate, Written(TagDate, args, genreTag));
    Put(m3, TagVenue, Written(TagVenue, args, genreTag))
  }

  /** The last four assignments: location, genre, source and comment. */
  function Overlay2(tags: map<Tag, string>, args: TagArgs, genreTag: string): map<Tag, string>
  {
    var m5 := Put(tags, TagLocation, Written(TagLocation, args, genreTag));
    var m6 := Put(m5, TagGenre, Written(TagGenre, args, genreTag));
    var m7 := Put(m6, TagSource, Written(TagSource, args, genreTag));
    Put(m7, TagComment, Written(TagComment, args, genreTag))
  }

  /** The tags after all of `retag_file`'s assignments, in the order it makes them. */
  function Overlay(existing: map<Tag, string>, args: TagArgs, genreTag: string): map<Tag, string>
  {
    Overlay2(Overlay1(existing, args, genreTag), args, genreTag)
  }

  /** The tags of the first layer of assignments. */
  predicate Early(t: Tag)
  {
    t.TagArtist? || t.TagAlbum? || t.TagDate? || t.TagVenue?
  }

  /**
   * A tag of the layer (`Early(t) == early`) holds its written value if there
   * is one; every other tag is as it was.
   */
  predicate Overlaid(r: map<Tag, string>, tags: map<Tag, string>, early: bool, args: TagArgs, genreTag: string)
  {
    forall t :: var w := Written(t, args, genreTag);
                (t in r <==> t in tags || (Early(t) == early && w.Some?)) &&
                (t in r ==> r[t] == if Early(t) == early && w.Some? then w.value else tags[t])
  }

  lemma Overlay1Spec(tags: map<Tag, string>, args: TagArgs, g: string)
    ensures Overlaid(Overlay1(tags, args, g), tags, true, args, g)
  {
    var m1 := Put(tags, TagArtist, Written(TagArtist, args, g));
    var m2 := Put(m1, TagAlbum, Written(TagAlbum, args, g));
    var m3 := Put(m2, TagDate, Written(TagDate, args, g));
    PutSpec(tags, TagArtist, Written(TagArtist, args, g));
    PutSpec(m1, TagAlbum, Written(TagAlbum, args, g));
    PutSpec(m2, TagDate, Written(TagDate, args, g));
    PutSpec(m3, TagVenue, Written(TagVenue, args, g));
  }

  lemma Overlay2Spec(tags: map<Tag, string>, args: TagArgs, g: string)
    ensures Overlaid(Overlay2(tags, args, g), tags, false, args, g)
  {
    var m5 := Put(tags, TagLocation, Written(TagLocation, args, g));
    var m6 := Put(m5, TagGenre, Written(TagGenre, args, g));
    var m7 := Put(m6, TagSource, Written(TagSource, args, g));
    PutSpec(tags, TagLocation, Written(TagLocation, args, g));
    PutSpec(m5, TagGenre, Written(TagGenre, args, g));
    PutSpec(m6, TagSource, Written(TagSource, args, g));
    PutSpec(m7, TagComment, Written(TagComment, args, g));
  }

  /** Every written tag holds its value, and every other tag is as it was. */
  lemma OverlaySpec(existing: map<Tag, string>, args: TagArgs, genreTag: string)
    ensures var r := Overlay(existing, args, genreTag);
            forall t :: var w := Written(t, args, genreTag);
                        (t in r <==> t in existing || w.Some?) &&
                        (t in r ==> r[t] == if w.Some? then w.value else existing[t])
  {
    Overlay1Spec(existing, args, genreTag);
    Overlay2Spec(Overlay1(existing, args, genreTag), args, genreTag);
  }

  /**
   * An assignment the file's tag format accepts: nothing is written, or the
   * key is not among those the format refuses (EasyID3 raises on a key it
   * has no mapping for).
   */
  predicate Accepts(t: Tag, w: Option<string>, refused: set<Tag>)
  {
    w.None? || t !in refused
  }

  /**
   * The assignments of `retag_file`, for a file it tags: the tags they
   * build, and whether every one of them was accepted.
   */
  method ApplyTags(existing: map<Tag, string>, args: TagArgs, refused: set<Tag>)
    returns (tags: map<Tag, string>, sorted: seq<string>, ok: bool)
    ensures |args.genres| > 0 ==>
              Sorting.StrictlySorted(Sorting.CodePoint, sorted) &&
              forall g :: g in sorted <==> g in FileUtils.CleanLines(args.genres)
    ensures tags == Overlay(existing, args, Join(sorted, "; "))
    ensures ok <==> forall t :: Accepts(t, Written(t, args, Join(sorted, "; ")), refused)
  {
    var tag := "";
    sorted := [];
    if |args.genres| > 0 {
      tag, sorted := GenreTag(args.genres);
    }
    tags := existing;
    tags := Put(tags, TagArtist, Written(TagArtist, args, tag));
    tags := Put(tags, TagAlbum, Written(TagAlbum, args, tag));
    tags := Put(tags, TagDate, Written(TagDate, args, tag));
    tags := Put(tags, TagVenue, Written(TagVenue, args, tag));
    assert tags == Overlay1(existing, args, tag);
    tags := Put(tags, TagLocation, Written(TagLocation, args, tag));
    tags := Put(tags, TagGenre, Written(TagGenre, args, tag));
    tags := Put(tags, TagSource, Written(TagSource, args, tag));
    tags := Put(tags, TagComment, Written(TagComment, args, tag));
    ok := Accepts(TagArtist, Written(TagArtist, args, tag), refused) &&
          Accepts(TagAlbum, Written(TagAlbum, args, tag), refused) &&
          Accepts(TagDate, Written(TagDate, args, tag), refused) &&
          Accepts(TagVenue, Written(TagVenue, args, tag), refused) &&
          Accepts(TagLocation, Written(TagLocation, args, tag), refused) &&
          Accepts(TagGenre, Written(TagGenre, args, tag), refused) &&
          Accepts(TagSource, Written(TagSource, args, tag), refused) &&
          Accepts(TagComment, Written(TagComment, args, tag), refused);
    assert Join(sorted, "; ") == tag by {
      if |args.genres| == 0 {
        assert sorted == [];
      }
    }
  }

  /**
   * The keys EasyID3 has no mapping for among those `retag_file` writes;
   * assigning one raises. FLAC comments accept every key.
   */
  const EasyId3Refused: set<Tag> := {TagVenue, TagLocation, TagSource, TagComment}

  /** The keys the tag format of `fp` refuses. */
  function Refused(fp: string): set<Tag>
  {
    if Lower(SplitExt(fp).1) == ".mp3" then EasyId3Refused else {}
  }

  /**
   * `retag_file`: `None` for a skipped file type, otherwise the file's tags
   * afterwards. `saves` is whether mutagen opens and saves the file. A
   * refused key or a failed save raises before `save()` completes, so the
   * file keeps its old tags. `tagged` is whether the "Tagged" line is
   * logged.
   */
  method Retag(existing: map<Tag, string>, fp: string, args: TagArgs, saves: bool)
    returns (r: Option<map<Tag, string>>, sorted: seq<string>, tagged: bool)
    ensures r.None? <==> !IsAudio(fp)
    ensures r.Some? && |args.genres| > 0 ==>
              Sorting.StrictlySorted(Sorting.CodePoint, sorted) &&
              forall g :: g in sorted <==> g in FileUtils.CleanLines(args.genres)
    ensures tagged <==> r.Some? && saves && forall t :: Accepts(t, Written(t, args, Join(sorted, "; ")), Refused(fp))
    ensures r.Some? ==> r.value == if tagged then Overlay(existing, args, Join(sorted, "; ")) else existing
  {
    sorted := [];
    tagged := false;
    if !IsAudio(fp) {
      r := None;
      return;
    }
    var tags, ok;
    tags, sorted, ok := ApplyTags(existing, args, Refused(fp));
    tagged := ok && saves;
    r := Some(if tagged then tags else existing);
  }

  // ---------------------------------------------------------------------
  // The processor and its folder loop
  // ---------------------------------------------------------------------

  /**
   * One folder handed to `process_folders`: what `match_folder` made of its
   * name, the names of the files it holds in walk order, what the output
   * folder already holds, and the indices of the files whose move raises.
   */
  datatype Run = Run(folder: string, md: FolderMatch.Info, files: seq<string>, present: set<string>, failing: set<nat>)

  /** The values each run is evaluated with, in order. */
  function Metas(runs: seq<Run>, gui: Fallbacks): (ms: seq<Meta>)
    ensures |ms| == |runs| && forall i :: 0 <= i < |runs| ==> ms[i] == FolderMeta(gui, runs[i].md)
  {
    if |runs| == 0 then [] else Metas(runs[..|runs| - 1], gui) + [FolderMeta(gui, runs[|runs| - 1].md)]
  }

  /**
   * A folder is processed when its output folder can be evaluated (`evaluate`
   * gives `None` where the scheme evaluation raises) and none of its moves fails.
   */
  predicate Succeeds(run: Run, gui: Fallbacks, evaluate: Meta -> Option<string>)
  {
    evaluate(FolderMeta(gui, run.md)).Some? && forall i :: 0 <= i < |run.files| ==> i !in run.failing
  }

  /** The `processed` list: the folders that succeed, in order. */
  function Processed(runs: seq<Run>, gui: Fallbacks, evaluate: Meta -> Option<string>): seq<string>
  {
    if |runs| == 0 then []
    else Processed(runs[..|runs| - 1], gui, evaluate) +
         (if Succeeds(runs[|runs| - 1], gui, evaluate) then [runs[|runs| - 1].folder] else [])
  }

  /**
   * A folder is listed exactly when one of its runs succeeds, and the list
   * has one entry per successful run.
   */
  lemma {:induction false} ProcessedSpec(runs: seq<Run>, gui: Fallbacks, evaluate: Meta -> Option<string>)
    ensures forall x :: x in Processed(runs, gui, evaluate) <==>
                        exists i :: 0 <= i < |runs| && runs[i].folder == x && Succeeds(runs[i], gui, evaluate)
    ensures |Processed(runs, gui, evaluate)| <= |runs|
  {
    if |runs| > 0 {
      var init := runs[..|runs| - 1];
      ProcessedSpec(init, gui, evaluate);
      var ok := r => Succeeds(r, gui, evaluate);
      forall x ensures x in Processed(runs, gui, evaluate) <==> SomeRunOf(runs, x, ok) {
        SomeRunOfSnoc(runs, x, ok);
        assert SomeRunOf(init, x, ok) <==>
               exists i :: 0 <= i < |init| && init[i].folder == x && Succeeds(init[i], gui, evaluate);
      }
      forall x ensures SomeRunOf(runs, x, ok) <==>
                       exists i :: 0 <= i < |runs| && runs[i].folder == x && Succeeds(runs[i], gui, evaluate) {
      }
    }
  }

  /** Some run of `x` passes `ok`. */
  predicate SomeRunOf(runs: seq<Run>, x: string, ok: Run -> bool)
  {
    exists i :: 0 <= i < |runs| && runs[i].folder == x && ok(runs[i])
  }

  /** A run of `x` passes in `runs` exactly when one does in all but the last or the last does. */
  lemma SomeRunOfSnoc(runs: seq<Run>, x: string, ok: Run -> bool)
    requires |runs| > 0
    ensures SomeRunOf(runs, x, ok) <==>
              SomeRunOf(runs[..|runs| - 1], x, ok) || (runs[|runs| - 1].folder == x && ok(runs[|runs| - 1]))
  {
    var init := runs[..|runs| - 1];
    if SomeRunOf(runs, x, ok) {
      var i :| 0 <= i < |runs| && runs[i].folder == x && ok(runs[i]);
      if i < |runs| - 1 {
        assert init[i] == runs[i];
      }
    }
    if SomeRunOf(init, x, ok) {
      var i :| 0 <= i < |init| && init[i].folder == x && ok(init[i]);
      assert runs[i] == init[i];
    }
  }

  /** The history loop of `process_folders` (utils/processor.py, lines 133-136). */
  method RecordHistories(histories: map<string, set<string>>, m: Meta) returns (h: map<string, set<string>>)
    ensures h == AddAll(histories, HistoryEntries(m))
  {
    var entries := HistoryEntries(m);
    h := histories;
    var i := 0;
    while i < |entries|
      invariant 0 <= i <= |entries|
      invariant h == AddAll(histories, entries[..i])
    {
      var (key, v) := entries[i];
      if v != "" {
        h := h[key := (if key in h then h[key] else {}) + {v}];
      }
      assert entries[..i + 1][..i] == entries[..i];
      i := i + 1;
    }
    assert entries[..|entries|] == entries;
  }

  /** `for g in self._split_genres(genre): self.genre_cache.add(g)`. */
  method AddGenres(genreCache: set<string>, gs: seq<string>) returns (cache: set<string>)
    ensures cache == genreCache + Elements(gs)
  {
    cache := genreCache;
    var j := 0;
    while j < |gs|
      invariant 0 <= j <= |gs|
      invariant cache == genreCache + Elements(gs[..j])
    {
      assert gs[..j + 1] == gs[..j] + [gs[j]];
      cache := cache + {gs[j]};
      j := j + 1;
    }
    assert gs[..|gs|] == gs;
  }

  /** The updates of utils/processor.py, lines 133-157, on the bookkeeping as a value. */
  method RecordBooks(b: Books, m: Meta) returns (r: Books)
    ensures r == Record(b, m)
  {
    var h := RecordHistories(b.histories, m);
    var artists := b.artistCache;
    if m.artist != "" {
      artists := artists + {m.artist};
    }
    var genres := b.genreCache;
    if m.genre != "" {
      genres := AddGenres(genres, SplitGenres(m.genre));
    }
    var used := Cache.UpdateUsedCache(b.usedCache, m.artist, m.genre);
    var af := UpdateAsset(b.artistsFile, m.artist);
    var vf := UpdateAsset(b.venuesFile, m.venue);
    var cf := UpdateAsset(b.citiesFile, m.city);
    r := Books(h, artists, genres, used, m.source, m.format, m.genre, af, vf, cf);
  }

  /** Recording one more run. */
  lemma RecordAllStep(b: Books, runs: seq<Run>, gui: Fallbacks, i: nat)
    requires i < |runs|
    ensures RecordAll(b, Metas(runs[..i + 1], gui)) == Record(RecordAll(b, Metas(runs[..i], gui)), FolderMeta(gui, runs[i].md))
  {
    assert runs[..i + 1][..i] == runs[..i];
  }

  /** One more run, listed when it succeeds. */
  lemma ProcessedStep(runs: seq<Run>, gui: Fallbacks, evaluate: Meta -> Option<string>, i: nat)
    requires i < |runs|
    ensures Processed(runs[..i + 1], gui, evaluate) ==
            Processed(runs[..i], gui, evaluate) + (if Succeeds(runs[i], gui, evaluate) then [runs[i].folder] else [])
  {
    assert runs[..i + 1][..i] == runs[..i];
  }

  /** The moves of one run: it succeeds exactly when none of them fails. */
  method MoveFolder(run: Run) returns (success: bool)
    ensures success <==> forall i :: 0 <= i < |run.files| ==> i !in run.failing
  {
    var dests, counters, before;
    dests, counters, before, success := MoveFiles(run.present, run.files, run.failing);
  }

  /** `Processor`: the bookkeeping `process_folders` updates as it goes. */
  class Processor {
    var histories: map<string, set<string>>
    var artistCache: set<string>
    var genreCache: set<string>
    var usedCache: Cache.UsedCache
    var lastSource: string
    var lastFormat: string
    var lastGenre: string
    // The artists, venues and cities asset files, by their lines.
    var artistsFile: Option<seq<string>>
    var venuesFile: Option<seq<string>>
    var citiesFile: Option<seq<string>>

    function State(): Books
      reads this
    {
      Books(histories, artistCache, genreCache, usedCache, lastSource, lastFormat, lastGenre,
            artistsFile, venuesFile, citiesFile)
    }

    constructor(b: Books)
      ensures State() == b
    {
      histories, artistCache, genreCache, usedCache := b.histories, b.artistCache, b.genreCache, b.usedCache;
      lastSource, lastFormat, lastGenre := b.lastSource, b.lastFormat, b.lastGenre;
      artistsFile, venuesFile, citiesFile := b.artistsFile, b.venuesFile, b.citiesFile;
    }

    /** The bookkeeping for one folder's settled values. */
    method RecordFolder(m: Meta)
      modifies this
      ensures State() == Record(old(State()), m)
    {
      var r := RecordBooks(State(), m);
      SetState(r);
    }

    /** Every field takes its value from `r`. */
    method SetState(r: Books)
      modifies this
      ensures State() == r
    {
      histories, artistCache, genreCache, usedCache := r.histories, r.artistCache, r.genreCache, r.usedCache;
      lastSource, lastFormat, lastGenre := r.lastSource, r.lastFormat, r.lastGenre;
      artistsFile, venuesFile, citiesFile := r.artistsFile, r.venuesFile, r.citiesFile;
    }

    /**
     * `process_folders`: every folder's values are recorded, whether or not
     * its output folder can be evaluated; an evaluated folder's files are
     * moved, and the folders whose moves all succeed are returned in order.
     */
    method ProcessFolders(runs: seq<Run>, gui: Fallbacks, evaluate: Meta -> Option<string>) returns (processed: seq<string>)
      modifies this
      ensures State() == RecordAll(old(State()), Metas(runs, gui))
      ensures processed == Processed(runs, gui, evaluate)
    {
      processed := [];
      var i := 0;
      while i < |runs|
        invariant 0 <= i <= |runs|
        invariant State() == RecordAll(old(State()), Metas(runs[..i], gui))
        invariant processed == Processed(runs[..i], gui, evaluate)
      {
        var run := runs[i];
        var m := FolderMeta(gui, run.md);
        RecordAllStep(old(State()), runs, gui, i);
        ProcessedStep(runs, gui, evaluate, i);
        RecordFolder(m);
        var out := evaluate(m);
        if out.Some? {
          var success := MoveFolder(run);
          if success {
            processed := processed + [run.folder];
          }
        }
        i := i + 1;
      }
      assert runs[..|runs|] == runs;
    }
  }
}
