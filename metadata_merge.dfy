/**
 * Metadata merging (utils/metadata_parser.py): the album tag is parsed for a
 * date, city, venue, source and format; then the file tags, the folder-name
 * parse and the text-file parse are merged under fixed precedence rules, a
 * date is chosen that prefers a full date over a bare year, and a source
 * word in the folder name is the last resort.  The file tags, the folder-name
 * parse and the text-file parse are inputs.
 */
module MetadataMerge {
  import opened Text
  import opened Dates
  import FolderMatch

  type Tags = map<string, string>

  /** `d.get(key, "")`. */
  function Lookup(m: Tags, key: string): string
  {
    if key in m then m[key] else ""
  }

  /** Python's `a or b` on strings. */
  function Or(a: string, b: string): string
  {
    if a != "" then a else b
  }

  /** `DEFAULTS["source"]` and `DEFAULTS["format"]` (utils/constants.py). */
  const DefaultSources: seq<string> := ["SBD", "AUD", "MTX", "FM", "DAT"]
  const DefaultFormats: seq<string> := ["FLAC16", "FLAC24", "FLAC", "MP3-V0", "MP3-320", "MP3-256", "MP3-128"]

  /** The two keys whose values are checked against `DEFAULTS`. */
  predicate IsCode(key: string)
  {
    key == "source" || key == "format"
  }

  function Defaults(key: string): seq<string>
  {
    if key == "source" then DefaultSources else DefaultFormats
  }

  /** `v.upper() in [x.upper() for x in DEFAULTS[key]]`. */
  predicate InDefaults(key: string, v: string)
  {
    exists x :: x in Defaults(key) && Upper(v) == Upper(x)
  }

  // ---------------------------------------------------------------------
  // The date inside an album tag: \b(\d{4}[-/]?\d{2}[-/]?\d{2})\b
  // ---------------------------------------------------------------------

  predicate IsSep(c: char) { c == '-' || c == '/' }

  predicate TwoDigits(s: string, i: nat)
  {
    i + 2 <= |s| && IsDigit(s[i]) && IsDigit(s[i + 1])
  }

  /** `\b` after a digit at `e - 1`. */
  predicate EndBoundary(s: string, e: nat)
  {
    e == |s| || (e < |s| && !IsWordChar(s[e]))
  }

  /** `[-/]?\d{2}\b` at `q`, the separator tried first. */
  function TailEnd(s: string, q: nat): (r: Option<nat>)
    ensures r.Some? ==> q < r.value <= |s|
  {
    if q < |s| && IsSep(s[q]) && TwoDigits(s, q + 1) && EndBoundary(s, q + 3) then Some(q + 3)
    else if TwoDigits(s, q) && EndBoundary(s, q + 2) then Some(q + 2)
    else None
  }

  /** The whole pattern at `p`: the index just past the match. */
  function DateRxAt(s: string, p: nat): (r: Option<nat>)
    requires p <= |s|
    ensures r.Some? ==> p + 8 <= r.value <= |s|
  {
    if (p == 0 || !IsWordChar(s[p - 1])) && p + 4 <= |s| && AllDigits(s[p..p + 4]) then
      var q := p + 4;
      var withSep := if q < |s| && IsSep(s[q]) && TwoDigits(s, q + 1) then TailEnd(s, q + 3) else None;
      if withSep.Some? then withSep
      else if TwoDigits(s, q) then TailEnd(s, q + 2)
      else None
    else None
  }

  /** `date_regex.search(s)`: the leftmost match. */
  function DateRxSearch(s: string, p: nat): (r: Option<(nat, nat)>)
    requires p <= |s|
    ensures r.Some? ==> p <= r.value.0 && r.value.0 + 8 <= r.value.1 <= |s|
    decreases |s| - p
  {
    match DateRxAt(s, p)
    case Some(e) => Some((p, e))
    case None => if p == |s| then None else DateRxSearch(s, p + 1)
  }

  /** The formats `parse_album_flexible` tries, in order. */
  const AlbumDateFormats: seq<seq<Directive>> :=
    [YmdDash, YmdCompact, MdySlash, DayMonYear, MonDayYear, MonthDayYear]

  /**
   * The album date: the matched text with '/' made '-', read with the
   * first of `AlbumDateFormats` that parses it, formatted as YYYY-MM-DD;
   * "" when nothing matches or parses.
   */
  function AlbumDate(norm: string): string
  {
    match DateRxSearch(norm, 0)
    case None => ""
    case Some((p, e)) =>
      match FirstParse(ReplaceChar(norm[p..e], '/', "-"), AlbumDateFormats)
      case Some(d) => IsoFormat(d)
      case None => ""
  }

  /** The album date is "" or a real calendar date written YYYY-MM-DD. */
  lemma AlbumDateShape(norm: string)
    ensures AlbumDate(norm) == "" ||
            exists d: Date :: d.Valid() && AlbumDate(norm) == IsoFormat(d)
  {
    match DateRxSearch(norm, 0)
    case None =>
    case Some((p, e)) =>
      FirstParseValid(ReplaceChar(norm[p..e], '/', "-"), AlbumDateFormats);
  }

  lemma DigitCharIsDigit(n: nat)
    requires n < 10
    ensures IsDigit(DigitChar(n)) && IsWordChar(DigitChar(n))
  {
  }

  /** The characters of a formatted date: digits, with '-' at 4 and 7. */
  lemma IsoChars(d: Date)
    requires d.Valid()
    ensures var s := IsoFormat(d);
            |s| == 10 && s[4] == '-' && s[7] == '-' &&
            forall k :: 0 <= k < 10 && k != 4 && k != 7 ==> IsDigit(s[k])
  {
    PadFour(d.year);
    PadTwo(d.month);
    PadTwo(d.day);
    DigitCharIsDigit(d.year / 1000);
    DigitCharIsDigit(d.year / 100 % 10);
    DigitCharIsDigit(d.year / 10 % 10);
    DigitCharIsDigit(d.year % 10);
    DigitCharIsDigit(d.month / 10);
    DigitCharIsDigit(d.month % 10);
    DigitCharIsDigit(d.day / 10);
    DigitCharIsDigit(d.day % 10);
  }

  /**
   * An album tag that starts with a date written YYYY-MM-DD, followed by the
   * end or a character that is not a word character, yields that same date.
   */
  lemma AlbumDateOfIso(album: string, d: Date)
    requires d.Valid() && |album| >= 10 && album[..10] == IsoFormat(d)
    requires |album| == 10 || !IsWordChar(album[10])
    ensures AlbumDate(ReplaceChar(album, '.', "-")) == IsoFormat(d)
  {
    var norm := ReplaceChar(album, '.', "-");
    IsoPrefixKept(album, d);
    IsoMatchAtStart(norm, d);
    AlbumDateOfMatch(norm, d);
  }

  /** Turning '.' into '-' keeps an ISO prefix and the boundary after it. */
  lemma IsoPrefixKept(album: string, d: Date)
    requires d.Valid() && |album| >= 10 && album[..10] == IsoFormat(d)
    requires |album| == 10 || !IsWordChar(album[10])
    ensures var norm := ReplaceChar(album, '.', "-");
            |norm| >= 10 && norm[..10] == IsoFormat(d) && EndBoundary(norm, 10)
  {
    var iso := IsoFormat(d);
    IsoChars(d);
    var norm := ReplaceChar(album, '.', "-");
    ReplaceCharSpec(album, '.', '-');
    assert norm[..10] == iso by {
      forall k | 0 <= k < 10 ensures norm[k] == iso[k] {
        assert album[k] == iso[k];
      }
    }
  }

  /** A match that is exactly an ISO date is parsed back to that date. */
  lemma AlbumDateOfMatch(norm: string, d: Date)
    requires d.Valid() && |norm| >= 10
    requires DateRxSearch(norm, 0) == Some((0, 10)) && norm[0..10] == IsoFormat(d)
    ensures AlbumDate(norm) == IsoFormat(d)
  {
    var iso := IsoFormat(d);
    IsoChars(d);
    ReplaceCharSpec(iso, '/', '-');
    assert '/' !in iso by {
      forall k | 0 <= k < 10 ensures iso[k] != '/' {
      }
    }
    IsoRoundTrip(d);
  }

  /** The album-date pattern matches an ISO date at the start of the text. */
  lemma IsoMatchAtStart(norm: string, d: Date)
    requires d.Valid() && |norm| >= 10 && norm[..10] == IsoFormat(d) && EndBoundary(norm, 10)
    ensures DateRxSearch(norm, 0) == Some((0, 10)) && norm[0..10] == IsoFormat(d)
  {
    var iso := IsoFormat(d);
    IsoChars(d);
    assert AllDigits(norm[0..4]) by {
      forall k | 0 <= k < 4 ensures IsDigit(norm[0..4][k]) {
        assert norm[0..4][k] == iso[k];
      }
    }
    assert TwoDigits(norm, 5) && TwoDigits(norm, 8) by {
      assert norm[5] == iso[5] && norm[6] == iso[6] && norm[8] == iso[8] && norm[9] == iso[9];
    }
    assert IsSep(norm[4]) && IsSep(norm[7]) by {
      assert norm[4] == iso[4] && norm[7] == iso[7];
    }
    assert TailEnd(norm, 7) == Some(10);
    assert DateRxAt(norm, 0) == Some(10);
  }

  // ---------------------------------------------------------------------
  // parse_album_flexible
  // ---------------------------------------------------------------------

  datatype Album = Album(date: string, venue: string, city: string, source: string, format: string)

  /** The first entry whose lowercase occurs in the lowercased text. */
  function FirstContained(list: seq<string>, hay: string): Option<string>
  {
    if |list| == 0 then None
    else if ContainsCI(hay, list[0]) then Some(list[0])
    else FirstContained(list[1..], hay)
  }

  /** The venue test: contained, and not the chosen (non-empty) city. */
  predicate VenueHit(hay: string, city: string, v: string)
  {
    ContainsCI(hay, v) && !(city != "" && Lower(v) == Lower(city))
  }

  function FirstVenue(list: seq<string>, hay: string, city: string): Option<string>
  {
    if |list| == 0 then None
    else if VenueHit(hay, city, list[0]) then Some(list[0])
    else FirstVenue(list[1..], hay, city)
  }

  /** The first contained entry: contained, and no earlier entry is. */
  lemma {:induction false} FirstContainedSpec(list: seq<string>, hay: string)
    ensures FirstContained(list, hay).None? <==> forall x :: x in list ==> !ContainsCI(hay, x)
    ensures FirstContained(list, hay).Some? ==>
              exists i :: 0 <= i < |list| && list[i] == FirstContained(list, hay).value &&
                ContainsCI(hay, list[i]) && forall j :: 0 <= j < i ==> !ContainsCI(hay, list[j])
  {
    if |list| > 0 {
      FirstContainedSpec(list[1..], hay);
      if !ContainsCI(hay, list[0]) && FirstContained(list, hay).Some? {
        var i :| 0 <= i < |list[1..]| && list[1..][i] == FirstContained(list, hay).value &&
                 ContainsCI(hay, list[1..][i]) && forall j :: 0 <= j < i ==> !ContainsCI(hay, list[1..][j]);
        assert list[i + 1] == list[1..][i];
        forall j | 0 <= j < i + 1 ensures !ContainsCI(hay, list[j]) {
          if j > 0 {
            assert list[j] == list[1..][j - 1];
          }
        }
      }
      if FirstContained(list, hay).None? {
        forall x | x in list ensures !ContainsCI(hay, x) {
          if x != list[0] {
            assert x in list[1..];
          }
        }
      }
    }
  }

  /** The first venue passing the test: it passes, and no earlier entry does. */
  lemma {:induction false} FirstVenueSpec(list: seq<string>, hay: string, city: string)
    ensures FirstVenue(list, hay, city).None? <==> forall x :: x in list ==> !VenueHit(hay, city, x)
    ensures FirstVenue(list, hay, city).Some? ==>
              exists i :: 0 <= i < |list| && list[i] == FirstVenue(list, hay, city).value &&
                VenueHit(hay, city, list[i]) && forall j :: 0 <= j < i ==> !VenueHit(hay, city, list[j])
  {
    if |list| > 0 {
      FirstVenueSpec(list[1..], hay, city);
      if !VenueHit(hay, city, list[0]) && FirstVenue(list, hay, city).Some? {
        var i :| 0 <= i < |list[1..]| && list[1..][i] == FirstVenue(list, hay, city).value &&
                 VenueHit(hay, city, list[1..][i]) && forall j :: 0 <= j < i ==> !VenueHit(hay, city, list[1..][j]);
        assert list[i + 1] == list[1..][i];
        forall j | 0 <= j < i + 1 ensures !VenueHit(hay, city, list[j]) {
          if j > 0 {
            assert list[j] == list[1..][j - 1];
          }
        }
      }
      if FirstVenue(list, hay, city).None? {
        forall x | x in list ensures !VenueHit(hay, city, x) {
          if x != list[0] {
            assert x in list[1..];
          }
        }
      }
    }
  }

  function OrEmpty(o: Option<string>): string
  {
    if o.Some? then o.value else ""
  }

  /** `parse_album_flexible` as a value. */
  function AlbumSpec(album: string, venues: seq<string>, cities: seq<string>): Album
  {
    if album == "" then Album("", "", "", "", "")
    else
      var city := OrEmpty(FirstContained(cities, album));
      Album(AlbumDate(ReplaceChar(album, '.', "-")),
            OrEmpty(FirstVenue(venues, album, city)),
            city,
            OrEmpty(FirstContained(DefaultSources, album)),
            OrEmpty(FirstContained(DefaultFormats, album)))
  }

  /** `parse_album_flexible`: one scan per list, each stopping at its first hit. */
  method ParseAlbumFlexible(album: string, venues: seq<string>, cities: seq<string>) returns (r: Album)
    ensures r == AlbumSpec(album, venues, cities)
  {
    if album == "" {
      return Album("", "", "", "", "");
    }
    var date := AlbumDate(ReplaceChar(album, '.', "-"));
    var city := ScanContained(cities, album);
    var venue := ScanVenues(venues, album, city);
    var source := ScanContained(DefaultSources, album);
    var format := ScanContained(DefaultFormats, album);
    r := Album(date, venue, city, source, format);
  }

  /** One list scan: the first entry contained in the album text, or "". */
  method ScanContained(list: seq<string>, album: string) returns (hit: string)
    ensures hit == OrEmpty(FirstContained(list, album))
  {
    hit := "";
    var i := 0;
    while i < |list|
      invariant 0 <= i <= |list|
      invariant FirstContained(list[i..], album) == FirstContained(list, album)
    {
      if ContainsCI(album, list[i]) {
        hit := list[i];
        break;
      }
      assert list[i..][1..] == list[i + 1..];
      i := i + 1;
    }
  }

  /** The venue scan: contained entries equal to the chosen city are passed over. */
  method ScanVenues(venues: seq<string>, album: string, city: string) returns (venue: string)
    ensures venue == OrEmpty(FirstVenue(venues, album, city))
  {
    venue := "";
    var i := 0;
    while i < |venues|
      invariant 0 <= i <= |venues|
      invariant FirstVenue(venues[i..], album, city) == FirstVenue(venues, album, city)
    {
      if ContainsCI(album, venues[i]) {
        if city != "" && Lower(venues[i]) == Lower(city) {
          assert venues[i..][1..] == venues[i + 1..];
          i := i + 1;
          continue;
        }
        venue := venues[i];
        break;
      }
      assert venues[i..][1..] == venues[i + 1..];
      i := i + 1;
    }
  }

  /** Album source and format are `DEFAULTS` entries or "". */
  lemma AlbumCodes(album: string, venues: seq<string>, cities: seq<string>)
    ensures var a := AlbumSpec(album, venues, cities);
            (a.source == "" || a.source in DefaultSources) && (a.format == "" || a.format in DefaultFormats)
  {
    if album != "" {
      FirstContainedSpec(DefaultSources, album);
      FirstContainedSpec(DefaultFormats, album);
    }
  }

  // ---------------------------------------------------------------------
  // normalize_date
  // ---------------------------------------------------------------------

  /**
   * The formats `normalize_date` tries, in order: "%Y-%m-%d", "%Y%m%d",
   * "%m/%d/%Y", "%d %b %Y", "%b %d, %Y", "%B %d, %Y" and "%Y".
   */
  const DateFormats: seq<seq<Directive>> :=
    [YmdDash, YmdCompact, MdySlash, DayMonYear, MonDayYear, MonthDayYear, YearOnly]

  /**
   * `normalize_date`: the first of `DateFormats` that reads the stripped
   * text, written YYYY-MM-DD; a bare year gives January 1.
   */
  function NormalizeDate(d: string): Option<string>
  {
    if d == "" then None
    else
      match FirstParse(Strip(d), DateFormats)
      case Some(x) => Some(IsoFormat(x))
      case None => None
  }

  /** Normalised dates are real calendar dates written YYYY-MM-DD. */
  lemma NormalizeDateShape(d: string)
    ensures d == "" ==> NormalizeDate(d).None?
    ensures NormalizeDate(d).Some? ==> exists x: Date :: x.Valid() && NormalizeDate(d).value == IsoFormat(x)
  {
    FirstParseValid(Strip(d), DateFormats);
  }

  /** A date already written YYYY-MM-DD is its own normal form. */
  lemma NormalizeDateIso(x: Date)
    requires x.Valid()
    ensures NormalizeDate(IsoFormat(x)) == Some(IsoFormat(x))
  {
    var s := IsoFormat(x);
    IsoChars(x);
    StripNoEnds(s);
    IsoRoundTrip(x);
  }

  /** A format holding a directive that matches nowhere in the text never matches. */
  lemma {:induction false} DirectiveNeeded(fmt: seq<Directive>, s: string, i: nat, f: Fields, d: Directive)
    requires d in fmt && forall j: nat :: Alternatives(d, s, j) == []
    ensures MatchFrom(fmt, s, i, f).None?
    decreases |fmt|, 1, 0
  {
    DirectiveNeededAlts(fmt, s, Alternatives(fmt[0], s, i), f, d);
  }

  lemma {:induction false} DirectiveNeededAlts(fmt: seq<Directive>, s: string, alts: seq<(nat, nat)>, f: Fields, d: Directive)
    requires |fmt| > 0 && d in fmt && forall j: nat :: Alternatives(d, s, j) == []
    requires fmt[0] == d ==> |alts| == 0
    ensures TryAlternatives(fmt, s, alts, f).None?
    decreases |fmt|, 0, |alts|
  {
    if |alts| > 0 {
      assert fmt[0] != d;
      assert d in fmt[1..] by {
        var k :| 0 <= k < |fmt| && fmt[k] == d;
        assert fmt[1..][k - 1] == d;
      }
      DirectiveNeeded(fmt[1..], s, alts[0].1, Record(f, fmt[0], alts[0].0), d);
      DirectiveNeededAlts(fmt, s, alts[1..], f, d);
    }
  }

  /** A literal matches only where the text holds that character. */
  lemma LiteralAbsent(s: string, c: char)
    requires c !in s
    ensures forall j: nat :: Alternatives(Lit(c), s, j) == []
  {
  }

  /** Whitespace in a format matches only where the text holds whitespace. */
  lemma SpaceAbsent(s: string)
    requires forall k :: 0 <= k < |s| ==> !IsSpace(s[k])
    ensures forall j: nat :: Alternatives(Space, s, j) == []
  {
    forall j: nat
      ensures Alternatives(Space, s, j) == []
    {
      if j <= |s| {
        assert WhitespaceEnd(s, j) == j;
      }
    }
  }

  /** Of the formats, only "%Y" reads a bare four-digit year. */
  lemma BareYearParses(y: nat)
    requires 1 <= y <= 9999
    ensures var s := PadNat(y, 4);
            Strptime(s, YmdDash).None? && Strptime(s, YmdCompact).None? && Strptime(s, MdySlash).None? &&
            Strptime(s, DayMonYear).None? && Strptime(s, MonDayYear).None? && Strptime(s, MonthDayYear).None? &&
            Strptime(s, YearOnly) == Some(Date(y, 1, 1))
  {
    BareYearNoSeparator(y);
    BareYearNotCompact(y);
    BareYearAlone(y);
  }

  /**
   * The formats with a literal '-' or '/', or with whitespace, need that
   * character, which a year does not hold.
   */
  lemma BareYearNoSeparator(y: nat)
    requires 1 <= y <= 9999
    ensures var s := PadNat(y, 4);
            Strptime(s, YmdDash).None? && Strptime(s, MdySlash).None? &&
            Strptime(s, DayMonYear).None? && Strptime(s, MonDayYear).None? && Strptime(s, MonthDayYear).None?
  {
    var s := PadNat(y, 4);
    PadFour(y);
    assert forall k :: 0 <= k < |s| ==> IsDigit(s[k]) by {
      DigitCharIsDigit(y / 1000);
      DigitCharIsDigit(y / 100 % 10);
      DigitCharIsDigit(y / 10 % 10);
      DigitCharIsDigit(y % 10);
    }
    assert '-' !in s && '/' !in s;
    var f0 := Fields(None, None, None);
    LiteralAbsent(s, '-');
    LiteralAbsent(s, '/');
    SpaceAbsent(s);
    DirectiveNeeded(YmdDash, s, 0, f0, Lit('-'));
    DirectiveNeeded(MdySlash, s, 0, f0, Lit('/'));
    DirectiveNeeded(DayMonYear, s, 0, f0, Space);
    DirectiveNeeded(MonDayYear, s, 0, f0, Space);
    DirectiveNeeded(MonthDayYear, s, 0, f0, Space);
  }

  /** "%Y%m%d" finds no month after the four year digits. */
  lemma BareYearNotCompact(y: nat)
    requires 1 <= y <= 9999
    ensures Strptime(PadNat(y, 4), YmdCompact).None?
  {
    var s := PadNat(y, 4);
    PadFour(y);
    var f0 := Fields(None, None, None);
    YearAlternative(s, 0, y);
    var f1 := f0.(year := Some(y));
    assert Alternatives(Month, s, 4) == [];
    assert MatchFrom(YmdCompact[1..], s, 4, f1).None?;
    assert TryAlternatives(YmdCompact, s, [], f0).None?;
    assert MatchFrom(YmdCompact, s, 0, f0).None?;
  }

  /** "%Y" reads the year and defaults month and day to 1. */
  lemma BareYearAlone(y: nat)
    requires 1 <= y <= 9999
    ensures Strptime(PadNat(y, 4), YearOnly) == Some(Date(y, 1, 1))
  {
    var s := PadNat(y, 4);
    PadFour(y);
    var f0 := Fields(None, None, None);
    YearAlternative(s, 0, y);
    var f1 := f0.(year := Some(y));
    assert MatchFrom(YearOnly[1..], s, 4, f1) == Some((f1, 4));
    assert MatchFrom(YearOnly, s, 0, f0) == Some((f1, 4));
  }

  /** A bare four-digit year is normalised to January 1 of that year. */
  lemma NormalizeDateYear(y: nat)
    requires 1 <= y <= 9999
    ensures NormalizeDate(PadNat(y, 4)) == Some(PadNat(y, 4) + "-01-01")
  {
    var s := PadNat(y, 4);
    PadFour(y);
    DigitCharIsDigit(y / 1000);
    DigitCharIsDigit(y % 10);
    StripNoEnds(s);
    BareYearFirstParse(y);
    PadTwo(1);
    assert IsoFormat(Date(y, 1, 1)) == s + "-01-01";
  }

  /** Only the last of the formats reads a bare year. */
  lemma BareYearFirstParse(y: nat)
    requires 1 <= y <= 9999
    ensures FirstParse(PadNat(y, 4), DateFormats) == Some(Date(y, 1, 1))
  {
    var s := PadNat(y, 4);
    BareYearParses(y);
    var fmts := DateFormats;
    assert FirstParse(s, fmts[6..]) == Some(Date(y, 1, 1));
    assert FirstParse(s, fmts[5..]) == FirstParse(s, fmts[6..]);
    assert FirstParse(s, fmts[4..]) == FirstParse(s, fmts[5..]);
    assert FirstParse(s, fmts[3..]) == FirstParse(s, fmts[4..]);
    assert FirstParse(s, fmts[2..]) == FirstParse(s, fmts[3..]);
    assert FirstParse(s, fmts[1..]) == FirstParse(s, fmts[2..]);
    assert FirstParse(s, fmts) == FirstParse(s, fmts[1..]);
  }

  /**
   * A date written "%b %d, %Y" (as in "May 05, 1995", the month in any
   * letter case) normalises to the same date written YYYY-MM-DD.
   */
  lemma NormalizeDateMonDayYear(s: string, x: Date)
    requires x.Valid() && |s| >= 3 && Lower(s[..3]) == MonthAbbrs[x.month - 1]
    requires s[3..] == " " + PadNat(x.day, 2) + ", " + PadNat(x.year, 4)
    ensures NormalizeDate(s) == Some(IsoFormat(x))
  {
    MonthAbbrsShape();
    MonDayYearPieces(s, x);
    assert IsAlpha(s[0]) by {
      assert Lower(s[..3])[0] == LowerChar(s[0]);
    }
    StripNoEnds(s);
    LetterStartFails(s);
    MonDayYearReads(s, x);
    var fmts := DateFormats;
    assert FirstParse(s, fmts[4..]) == Some(x);
    assert FirstParse(s, fmts[3..]) == FirstParse(s, fmts[4..]);
    assert FirstParse(s, fmts[2..]) == FirstParse(s, fmts[3..]);
    assert FirstParse(s, fmts[1..]) == FirstParse(s, fmts[2..]);
  }

  /** The formats that start with a number fail on a text that starts with a letter. */
  lemma LetterStartFails(s: string)
    requires |s| > 0 && IsAlpha(s[0])
    ensures Strptime(s, YmdDash).None? && Strptime(s, YmdCompact).None? &&
            Strptime(s, MdySlash).None? && Strptime(s, DayMonYear).None?
  {
    assert Alternatives(Year4, s, 0) == [] by {
      if 4 <= |s| {
        assert !AllDigits(s[0..4]) by {
          assert s[0..4][0] == s[0];
        }
      }
    }
    assert Alternatives(Month, s, 0) == [];
    assert Alternatives(Day, s, 0) == [];
  }

  // ---------------------------------------------------------------------
  // merge_metadata
  // ---------------------------------------------------------------------

  /** The nine keys of the merged dictionary. */
  datatype Key = Artist | Venue | City | DateKey | Source | Format | Genre | Add | Additional

  function KeyName(k: Key): string
  {
    match k
    case Artist => "artist" case Venue => "venue" case City => "city" case DateKey => "date"
    case Source => "source" case Format => "format" case Genre => "genre" case Add => "add"
    case Additional => "additional"
  }

  /** The merged dictionary: one string per key. */
  datatype Merged = Merged(artist: string, venue: string, city: string, date: string, source: string,
                           format: string, genre: string, add: string, additional: string)
  {
    function Get(k: Key): string
    {
      match k
      case Artist => artist case Venue => venue case City => city case DateKey => date
      case Source => source case Format => format case Genre => genre case Add => add
      case Additional => additional
    }

    function Set(k: Key, v: string): (r: Merged)
      ensures r.Get(k) == v && forall j :: j != k ==> r.Get(j) == Get(j)
    {
      match k
      case Artist => this.(artist := v) case Venue => this.(venue := v) case City => this.(city := v)
      case DateKey => this.(date := v) case Source => this.(source := v) case Format => this.(format := v)
      case Genre => this.(genre := v) case Add => this.(add := v) case Additional => this.(additional := v)
    }
  }

  /** Two dictionaries agreeing on every key are equal. */
  lemma MergedExt(a: Merged, b: Merged)
    requires forall k :: a.Get(k) == b.Get(k)
    ensures a == b
  {
    assert a.Get(Artist) == b.Get(Artist) && a.Get(Venue) == b.Get(Venue) && a.Get(City) == b.Get(City);
    assert a.Get(DateKey) == b.Get(DateKey) && a.Get(Source) == b.Get(Source) && a.Get(Format) == b.Get(Format);
    assert a.Get(Genre) == b.Get(Genre) && a.Get(Add) == b.Get(Add) && a.Get(Additional) == b.Get(Additional);
  }

  /** The folder loop visits every key. */
  lemma KeyListed(k: Key)
    ensures k in MergeKeys
  {
    match k
    case Artist => assert MergeKeys[0] == k;
    case Venue => assert MergeKeys[1] == k;
    case City => assert MergeKeys[2] == k;
    case DateKey => assert MergeKeys[3] == k;
    case Source => assert MergeKeys[4] == k;
    case Format => assert MergeKeys[5] == k;
    case Genre => assert MergeKeys[6] == k;
    case Add => assert MergeKeys[7] == k;
    case Additional => assert MergeKeys[8] == k;
  }

  /** The order the folder loop visits the keys in. */
  const MergeKeys: seq<Key> := [Artist, Venue, City, DateKey, Source, Format, Genre, Add, Additional]
  /** The keys the text-file parse may override. */
  const TxtKeys: seq<Key> := [Artist, Venue, City, DateKey, Source, Format]

  predicate IsCodeKey(k: Key) { k == Source || k == Format }
  predicate IsTxtKey(k: Key) { !(k == Genre || k == Add || k == Additional) }

  /** The text-file loop visits exactly the keys `IsTxtKey` names. */
  lemma TxtKeyListed(k: Key)
    ensures k in TxtKeys <==> IsTxtKey(k)
  {
    match k
    case Artist => assert TxtKeys[0] == k;
    case Venue => assert TxtKeys[1] == k;
    case City => assert TxtKeys[2] == k;
    case DateKey => assert TxtKeys[3] == k;
    case Source => assert TxtKeys[4] == k;
    case Format => assert TxtKeys[5] == k;
    case Genre =>
    case Add =>
    case Additional =>
  }

  /** The position of each key in `MergeKeys`. */
  function KeyIndex(k: Key): nat
  {
    match k
    case Artist => 0 case Venue => 1 case City => 2 case DateKey => 3 case Source => 4
    case Format => 5 case Genre => 6 case Add => 7 case Additional => 8
  }

  lemma KeyIndexOf(j: nat)
    requires j < |MergeKeys|
    ensures KeyIndex(MergeKeys[j]) == j
  {
  }

  /** No key occurs twice in `MergeKeys`, and `TxtKeys` is its first six. */
  lemma MergeKeysFresh(i: nat)
    requires i < |MergeKeys|
    ensures MergeKeys[i] !in MergeKeys[..i]
    ensures MergeKeys[..i + 1] == MergeKeys[..i] + [MergeKeys[i]]
    ensures TxtKeys == MergeKeys[..6]
  {
    if MergeKeys[i] in MergeKeys[..i] {
      var j :| 0 <= j < i && MergeKeys[..i][j] == MergeKeys[i];
      KeyIndexOf(j);
      KeyIndexOf(i);
    }
  }

  /** `folder_md.get(key)`. */
  function FolderGet(folder: FolderMatch.Info, k: Key): string
  {
    match k
    case Artist => folder.artist case Venue => folder.venue case City => folder.city
    case DateKey => folder.date case Source => folder.source case Format => folder.format
    case Genre => folder.genre case Add => folder.add case Additional => folder.additional
  }

  /** The dictionary built from the file tags and the album parse. */
  function InitialMd(fileTags: Tags, album: Album): Merged
  {
    Merged(Or(Lookup(fileTags, "artist"), Lookup(fileTags, "albumartist")),
           album.venue, album.city, Or(album.date, Lookup(fileTags, "date")),
           album.source, album.format, Lookup(fileTags, "genre"), "", "")
  }

  /** The folder loop's rule for one key. */
  function FolderValue(k: Key, current: string, folderVal: string): string
  {
    if IsCodeKey(k) then
      if (current == "" || !InDefaults(KeyName(k), current)) && folderVal != "" && InDefaults(KeyName(k), folderVal)
      then folderVal else current
    else if current == "" && folderVal != "" then folderVal
    else current
  }

  /** The text-file loop's rule for one key. */
  function TxtValue(k: Key, current: string, txtVal: string): string
  {
    if IsCodeKey(k) then (if txtVal != "" && InDefaults(KeyName(k), txtVal) then txtVal else current)
    else if txtVal != "" then txtVal
    else current
  }

  function AfterFolder(md: Merged, folder: FolderMatch.Info): (r: Merged)
    ensures forall k :: r.Get(k) == FolderValue(k, md.Get(k), FolderGet(folder, k))
  {
    Merged(FolderValue(Artist, md.artist, folder.artist), FolderValue(Venue, md.venue, folder.venue),
           FolderValue(City, md.city, folder.city), FolderValue(DateKey, md.date, folder.date),
           FolderValue(Source, md.source, folder.source), FolderValue(Format, md.format, folder.format),
           FolderValue(Genre, md.genre, folder.genre), FolderValue(Add, md.add, folder.add),
           FolderValue(Additional, md.additional, folder.additional))
  }

  function AfterTxt(md: Merged, txt: Tags): (r: Merged)
    ensures forall k :: r.Get(k) == if IsTxtKey(k) then TxtValue(k, md.Get(k), Lookup(txt, KeyName(k))) else md.Get(k)
  {
    md.(artist := TxtValue(Artist, md.artist, Lookup(txt, "artist")),
        venue := TxtValue(Venue, md.venue, Lookup(txt, "venue")),
        city := TxtValue(City, md.city, Lookup(txt, "city")),
        date := TxtValue(DateKey, md.date, Lookup(txt, "date")),
        source := TxtValue(Source, md.source, Lookup(txt, "source")),
        format := TxtValue(Format, md.format, Lookup(txt, "format")))
  }

  /** The non-empty entries, in order. */
  function NonEmpty(xs: seq<string>): (r: seq<string>)
    ensures forall x :: x in r ==> x != "" && x in xs
  {
    if |xs| == 0 then []
    else if xs[0] != "" then [xs[0]] + NonEmpty(xs[1..])
    else NonEmpty(xs[1..])
  }

  /** Text file, folder name, album, file tag: the date candidates by priority. */
  function DateCandidates(txt: Tags, folder: FolderMatch.Info, album: Album, fileTags: Tags): seq<string>
  {
    NonEmpty([Or(Lookup(txt, "date"), Lookup(txt, "release date")), folder.date, album.date, Lookup(fileTags, "date")])
  }

  /** A normal form that is not January 1. */
  predicate Precise(nd: Option<string>)
  {
    nd.Some? && !EndsWith(nd.value, "-01-01")
  }

  /** A normal form at all. */
  predicate Normal(nd: Option<string>)
  {
    nd.Some?
  }

  /** The normal form of the first candidate whose normal form passes `ok`. */
  function FirstWhere(cands: seq<string>, norm: string -> Option<string>, ok: Option<string> -> bool): Option<string>
  {
    if |cands| == 0 then None
    else if ok(norm(cands[0])) then norm(cands[0])
    else FirstWhere(cands[1..], norm, ok)
  }

  /** The first scan: a candidate that is not January 1. */
  function FirstPrecise(cands: seq<string>): Option<string>
  {
    FirstWhere(cands, NormalizeDate, Precise)
  }

  /** The second scan: a candidate that normalises at all. */
  function FirstNormal(cands: seq<string>): Option<string>
  {
    FirstWhere(cands, NormalizeDate, Normal)
  }

  /** The two candidate scans. */
  function SelectDate(cands: seq<string>): Option<string>
  {
    if FirstPrecise(cands).Some? then FirstPrecise(cands) else FirstNormal(cands)
  }

  /** `i` is the first candidate that passes, and the scan returns its normal form. */
  predicate FirstPassAt(cands: seq<string>, norm: string -> Option<string>, ok: Option<string> -> bool,
                        r: Option<string>, i: nat)
  {
    i < |cands| && r == norm(cands[i]) && ok(norm(cands[i])) && forall j :: 0 <= j < i ==> !ok(norm(cands[j]))
  }

  lemma {:induction false} FirstWhereSpec(cands: seq<string>, norm: string -> Option<string>, ok: Option<string> -> bool)
    requires !ok(None)
    ensures FirstWhere(cands, norm, ok).None? ==> forall i :: 0 <= i < |cands| ==> !ok(norm(cands[i]))
    ensures FirstWhere(cands, norm, ok).Some? ==>
              (exists i: nat :: FirstPassAt(cands, norm, ok, FirstWhere(cands, norm, ok), i))
    ensures (exists i :: 0 <= i < |cands| && ok(norm(cands[i]))) ==>
              (exists i: nat :: FirstPassAt(cands, norm, ok, FirstWhere(cands, norm, ok), i))
  {
    if |cands| > 0 {
      var r := FirstWhere(cands, norm, ok);
      if ok(norm(cands[0])) {
        assert FirstPassAt(cands, norm, ok, r, 0);
      } else {
        var tail := cands[1..];
        FirstWhereSpec(tail, norm, ok);
        assert r == FirstWhere(tail, norm, ok);
        forall i | 1 <= i < |cands| ensures cands[i] == tail[i - 1] { }
        if exists i: nat :: FirstPassAt(tail, norm, ok, r, i) {
          var i: nat :| FirstPassAt(tail, norm, ok, r, i);
          assert FirstPassAt(cands, norm, ok, r, i + 1);
        }
      }
    }
  }

  lemma {:induction false} FirstPreciseSpec(cands: seq<string>)
    ensures FirstPrecise(cands).None? <==> forall i :: 0 <= i < |cands| ==> !Precise(NormalizeDate(cands[i]))
    ensures FirstPrecise(cands).Some? ==>
              exists i :: 0 <= i < |cands| && FirstPrecise(cands) == NormalizeDate(cands[i]) &&
                Precise(NormalizeDate(cands[i])) && forall j :: 0 <= j < i ==> !Precise(NormalizeDate(cands[j]))
  {
    FirstWhereSpec(cands, NormalizeDate, Precise);
    if FirstPrecise(cands).Some? {
      var i: nat :| FirstPassAt(cands, NormalizeDate, Precise, FirstPrecise(cands), i);
    }
  }

  lemma {:induction false} FirstNormalSpec(cands: seq<string>)
    ensures FirstNormal(cands).None? <==> forall i :: 0 <= i < |cands| ==> NormalizeDate(cands[i]).None?
    ensures FirstNormal(cands).Some? ==>
              exists i :: 0 <= i < |cands| && FirstNormal(cands) == NormalizeDate(cands[i]) &&
                forall j :: 0 <= j < i ==> NormalizeDate(cands[j]).None?
  {
    FirstWhereSpec(cands, NormalizeDate, Normal);
    if FirstNormal(cands).Some? {
      var i: nat :| FirstPassAt(cands, NormalizeDate, Normal, FirstNormal(cands), i);
    }
  }

  /**
   * The chosen date is the normal form of the first candidate that is not
   * January 1; failing that, of the first candidate that normalises at all;
   * failing that, nothing. A genuine January 1 thus loses to any later
   * candidate with another day.
   */
  lemma SelectDateSpec(cands: seq<string>)
    ensures (exists i :: 0 <= i < |cands| && Precise(NormalizeDate(cands[i]))) ==>
              exists i :: 0 <= i < |cands| && SelectDate(cands) == NormalizeDate(cands[i]) &&
                Precise(NormalizeDate(cands[i])) && forall j :: 0 <= j < i ==> !Precise(NormalizeDate(cands[j]))
    ensures (forall i :: 0 <= i < |cands| ==> !Precise(NormalizeDate(cands[i]))) ==> SelectDate(cands) == FirstNormal(cands)
    ensures SelectDate(cands).None? <==> forall i :: 0 <= i < |cands| ==> NormalizeDate(cands[i]).None?
  {
    FirstPreciseSpec(cands);
    FirstNormalSpec(cands);
    if FirstPrecise(cands).Some? {
      var i :| 0 <= i < |cands| && FirstPrecise(cands) == NormalizeDate(cands[i]) && Precise(NormalizeDate(cands[i]));
    }
  }

  // ---------------------------------------------------------------------
  // The source word of the folder name: \b(aud|sbd|fm|dsbd|mtx|matrix)\b
  // ---------------------------------------------------------------------

  const SourceWords: seq<string> := ["aud", "sbd", "fm", "dsbd", "mtx", "matrix"]

  /** The first alternative matching at `p` and followed by a boundary. */
  function WordAt(s: string, p: nat, words: seq<string>): (r: Option<string>)
    ensures r.Some? ==> r.value in words
  {
    if |words| == 0 then None
    else if p + |words[0]| <= |s| && s[p..p + |words[0]|] == words[0] && EndBoundary(s, p + |words[0]|)
    then Some(words[0])
    else WordAt(s, p, words[1..])
  }

  /** `re.search`: the leftmost position where a word starts at a boundary. */
  function SourceWordSearch(s: string, p: nat): (r: Option<string>)
    requires p <= |s|
    ensures r.Some? ==> r.value in SourceWords
    decreases |s| - p
  {
    if p == |s| then None
    else if (p == 0 || !IsWordChar(s[p - 1])) && WordAt(s, p, SourceWords).Some? then WordAt(s, p, SourceWords)
    else SourceWordSearch(s, p + 1)
  }

  /** The last-resort source: only a word whose uppercase is a `DEFAULTS` source is taken. */
  function SourceFallback(md: Merged, folderName: string): Merged
  {
    if md.source == "" then
      match SourceWordSearch(Lower(folderName), 0)
      case Some(w) => if Upper(w) in DefaultSources then md.(source := Upper(w)) else md
      case None => md
    else md
  }

  /** The words the search can report, in upper case. */
  lemma SourceWordsUpper()
    ensures Upper("aud") == "AUD" && Upper("sbd") == "SBD" && Upper("fm") == "FM"
    ensures Upper("dsbd") == "DSBD" && Upper("mtx") == "MTX" && Upper("matrix") == "MATRIX"
  {
  }

  /**
   * The fallback fills only an empty source, only with a `DEFAULTS` source;
   * "dsbd" and "matrix" are found by the pattern but never accepted.
   */
  lemma SourceFallbackSpec(md: Merged, folderName: string)
    ensures var r := SourceFallback(md, folderName);
            r == md.(source := r.source) &&
            (r.source != md.source ==> md.source == "" && r.source in DefaultSources &&
                                       r.source != "DSBD" && r.source != "MATRIX")
  {
    SourceWordsUpper();
  }

  // ---------------------------------------------------------------------
  // The whole merge
  // ---------------------------------------------------------------------

  /** The merge before the date choice and the source fallback. */
  function Merged0(fileTags: Tags, folder: FolderMatch.Info, txt: Tags, album: Album): Merged
  {
    AfterTxt(AfterFolder(InitialMd(fileTags, album), folder), txt)
  }

  /** `merge_metadata` as a value; `folder` is the folder-name parse, `txt` the text-file parse. */
  function MergeSpec(fileTags: Tags, folder: FolderMatch.Info, txt: Tags, folderName: string,
                     venues: seq<string>, cities: seq<string>): Merged
  {
    var album := AlbumSpec(Strip(Lookup(fileTags, "album")), venues, cities);
    var md := Merged0(fileTags, folder, txt, album);
    var selected := SelectDate(DateCandidates(txt, folder, album, fileTags));
    var dated := if selected.Some? then md.(date := selected.value) else md;
    SourceFallback(dated, folderName)
  }

  /** The folder loop's invariant: the keys in `done` hold their folder rule, the rest are untouched. */
  predicate FolderDone(md: Merged, md0: Merged, folder: FolderMatch.Info, done: seq<Key>)
  {
    forall k :: md.Get(k) == if k in done then FolderValue(k, md0.Get(k), FolderGet(folder, k)) else md0.Get(k)
  }

  lemma FolderDoneStep(md: Merged, md': Merged, md0: Merged, folder: FolderMatch.Info, done: seq<Key>, key: Key)
    requires FolderDone(md, md0, folder, done) && key !in done
    requires md'.Get(key) == FolderValue(key, md.Get(key), FolderGet(folder, key))
    requires forall k :: k != key ==> md'.Get(k) == md.Get(k)
    ensures FolderDone(md', md0, folder, done + [key])
  {
  }

  /** The text-file loop's invariant, likewise. */
  predicate TxtDone(md: Merged, md1: Merged, txt: Tags, done: seq<Key>)
  {
    forall k :: md.Get(k) == if k in done then TxtValue(k, md1.Get(k), Lookup(txt, KeyName(k))) else md1.Get(k)
  }

  lemma TxtDoneStep(md: Merged, md': Merged, md1: Merged, txt: Tags, done: seq<Key>, key: Key)
    requires TxtDone(md, md1, txt, done) && key !in done
    requires md'.Get(key) == TxtValue(key, md.Get(key), Lookup(txt, KeyName(key)))
    requires forall k :: k != key ==> md'.Get(k) == md.Get(k)
    ensures TxtDone(md', md1, txt, done + [key])
  {
  }

  /** The loop over the nine keys filling values from the folder-name parse. */
  method FolderLoop(md0: Merged, folder: FolderMatch.Info) returns (md: Merged)
    ensures md == AfterFolder(md0, folder)
  {
    md := md0;
    for i := 0 to |MergeKeys|
      invariant FolderDone(md, md0, folder, MergeKeys[..i])
    {
      var key := MergeKeys[i];
      ghost var before := md;
      MergeKeysFresh(i);
      if IsCodeKey(key) {
        var val := md.Get(key);
        if val == "" || !InDefaults(KeyName(key), val) {
          if FolderGet(folder, key) != "" && InDefaults(KeyName(key), FolderGet(folder, key)) {
            md := md.Set(key, FolderGet(folder, key));
          }
        }
      } else {
        if md.Get(key) == "" && FolderGet(folder, key) != "" {
          md := md.Set(key, FolderGet(folder, key));
        }
      }
      FolderDoneStep(before, md, md0, folder, MergeKeys[..i], key);
    }
    assert MergeKeys[..|MergeKeys|] == MergeKeys;
    forall k ensures k in MergeKeys {
      KeyListed(k);
    }
    MergedExt(md, AfterFolder(md0, folder));
  }

  /** The loop over the six keys the text-file parse may override. */
  method TxtLoop(md1: Merged, txt: Tags) returns (md: Merged)
    ensures md == AfterTxt(md1, txt)
  {
    md := md1;
    for i := 0 to |TxtKeys|
      invariant TxtDone(md, md1, txt, TxtKeys[..i])
    {
      var key := TxtKeys[i];
      ghost var before := md;
      MergeKeysFresh(i);
      assert TxtKeys[..i] == MergeKeys[..i] && key == MergeKeys[i];
      assert TxtKeys[..i + 1] == MergeKeys[..i + 1];
      if IsCodeKey(key) {
        var txtVal := Lookup(txt, KeyName(key));
        if txtVal != "" && InDefaults(KeyName(key), txtVal) {
          md := md.Set(key, txtVal);
        }
      } else {
        if Lookup(txt, KeyName(key)) != "" {
          md := md.Set(key, Lookup(txt, KeyName(key)));
        }
      }
      TxtDoneStep(before, md, md1, txt, TxtKeys[..i], key);
    }
    assert TxtKeys[..|TxtKeys|] == TxtKeys;
    forall k ensures k in TxtKeys <==> IsTxtKey(k) {
      TxtKeyListed(k);
    }
    MergedExt(md, AfterTxt(md1, txt));
  }

  /** The two candidate scans, each stopping at its first hit. */
  method SelectDateLoop(candidates: seq<string>) returns (selected: Option<string>)
    ensures selected == SelectDate(candidates)
  {
    selected := None;
    var j := 0;
    while j < |candidates|
      invariant 0 <= j <= |candidates|
      invariant FirstPrecise(candidates[j..]) == FirstPrecise(candidates)
    {
      var nd := NormalizeDate(candidates[j]);
      if nd.Some? && !EndsWith(nd.value, "-01-01") {
        selected := nd;
        break;
      }
      assert candidates[j..][1..] == candidates[j + 1..];
      j := j + 1;
    }
    assert selected == FirstPrecise(candidates);
    if selected.None? {
      j := 0;
      while j < |candidates|
        invariant 0 <= j <= |candidates|
        invariant FirstNormal(candidates[j..]) == FirstNormal(candidates)
      {
        var nd := NormalizeDate(candidates[j]);
        if nd.Some? {
          selected := nd;
          break;
        }
        assert candidates[j..][1..] == candidates[j + 1..];
        j := j + 1;
      }
    }
  }

  /** `merge_metadata`: the folder loop, the text-file loop, the date choice, the source fallback. */
  method MergeMetadata(fileTags: Tags, folder: FolderMatch.Info, txt: Tags, folderName: string,
                       venues: seq<string>, cities: seq<string>) returns (md: Merged)
    ensures md == MergeSpec(fileTags, folder, txt, folderName, venues, cities)
  {
    var album := ParseAlbumFlexible(Strip(Lookup(fileTags, "album")), venues, cities);
    md := InitialMd(fileTags, album);
    md := FolderLoop(md, folder);
    md := TxtLoop(md, txt);
    var selected := SelectDateLoop(DateCandidates(txt, folder, album, fileTags));
    if selected.Some? {
      md := md.(date := selected.value);
    }
    if md.source == "" {
      var word := SourceWordSearch(Lower(folderName), 0);
      if word.Some? && Upper(word.value) in DefaultSources {
        md := md.(source := Upper(word.value));
      }
    }
  }

  /**
   * The date choice and the source fallback change only the date and an
   * empty source; every other key keeps its merged value.
   */
  lemma MergeSpecParts(fileTags: Tags, folder: FolderMatch.Info, txt: Tags, folderName: string,
                       venues: seq<string>, cities: seq<string>)
    ensures var album := AlbumSpec(Strip(Lookup(fileTags, "album")), venues, cities);
            var md := Merged0(fileTags, folder, txt, album);
            var selected := SelectDate(DateCandidates(txt, folder, album, fileTags));
            var r := MergeSpec(fileTags, folder, txt, folderName, venues, cities);
            (forall k :: k != DateKey && k != Source ==> r.Get(k) == md.Get(k)) &&
            r.date == (if selected.Some? then selected.value else md.date) &&
            (r.source != md.source ==> md.source == "" && r.source in DefaultSources &&
                                       r.source != "DSBD" && r.source != "MATRIX")
  {
    var album := AlbumSpec(Strip(Lookup(fileTags, "album")), venues, cities);
    var md := Merged0(fileTags, folder, txt, album);
    var selected := SelectDate(DateCandidates(txt, folder, album, fileTags));
    var dated := if selected.Some? then md.(date := selected.value) else md;
    var r := SourceFallback(dated, folderName);
    assert r == MergeSpec(fileTags, folder, txt, folderName, venues, cities);
    SourceFallbackSpec(dated, folderName);
    OtherKeysKept(md, dated, r);
  }

  /** A new date and then a new source leave every other key as it was. */
  lemma OtherKeysKept(md: Merged, dated: Merged, r: Merged)
    requires dated == md.(date := dated.date) && r == dated.(source := r.source)
    ensures forall k :: k != DateKey && k != Source ==> r.Get(k) == md.Get(k)
  {
  }

  /**
   * Artist, venue and city: a non-empty text-file value wins, then the value
   * from the file tags and album, then the folder-name value.
   */
  lemma MergePlaces(fileTags: Tags, folder: FolderMatch.Info, txt: Tags, folderName: string,
                    venues: seq<string>, cities: seq<string>, k: Key)
    requires k == Artist || k == Venue || k == City
    ensures var album := AlbumSpec(Strip(Lookup(fileTags, "album")), venues, cities);
            MergeSpec(fileTags, folder, txt, folderName, venues, cities).Get(k) ==
              Or(Lookup(txt, KeyName(k)), Or(InitialMd(fileTags, album).Get(k), FolderGet(folder, k)))
  {
    MergeSpecParts(fileTags, folder, txt, folderName, venues, cities);
    var album := AlbumSpec(Strip(Lookup(fileTags, "album")), venues, cities);
    var md0 := InitialMd(fileTags, album);
    MergedKey(fileTags, folder, txt, album, k);
    PlaceRule(k, md0.Get(k), FolderGet(folder, k), Lookup(txt, KeyName(k)));
  }

  /** The two loops' rules applied to one key of the initial dictionary. */
  lemma MergedKey(fileTags: Tags, folder: FolderMatch.Info, txt: Tags, album: Album, k: Key)
    ensures var md0 := InitialMd(fileTags, album);
            var v := FolderValue(k, md0.Get(k), FolderGet(folder, k));
            Merged0(fileTags, folder, txt, album).Get(k) == if IsTxtKey(k) then TxtValue(k, v, Lookup(txt, KeyName(k))) else v
  {
  }

  /** For a key outside source and format: the text value, else the current one, else the folder's. */
  lemma PlaceRule(k: Key, current: string, folderVal: string, txtVal: string)
    requires !IsCodeKey(k)
    ensures TxtValue(k, FolderValue(k, current, folderVal), txtVal) == Or(txtVal, Or(current, folderVal))
  {
  }

  /**
   * Genre, add and additional come from the file tags, else the folder name;
   * the text file never touches them.
   */
  lemma MergeFolderOnly(fileTags: Tags, folder: FolderMatch.Info, txt: Tags, folderName: string,
                        venues: seq<string>, cities: seq<string>, k: Key)
    requires k == Genre || k == Add || k == Additional
    ensures MergeSpec(fileTags, folder, txt, folderName, venues, cities).Get(k) ==
              Or(if k == Genre then Lookup(fileTags, "genre") else "", FolderGet(folder, k))
  {
    MergeSpecParts(fileTags, folder, txt, folderName, venues, cities);
  }

  /** A code value is empty or one of the `DEFAULTS` entries for its key. */
  predicate CodeOk(k: Key, v: string)
  {
    v == "" || InDefaults(KeyName(k), v)
  }

  /** Both loops keep a code value acceptable, and a `DEFAULTS` text value wins. */
  lemma CodeSteps(k: Key, current: string, folderVal: string, txtVal: string)
    requires IsCodeKey(k) && CodeOk(k, current)
    ensures CodeOk(k, FolderValue(k, current, folderVal))
    ensures CodeOk(k, TxtValue(k, FolderValue(k, current, folderVal), txtVal))
    ensures txtVal != "" && InDefaults(KeyName(k), txtVal) ==>
              TxtValue(k, FolderValue(k, current, folderVal), txtVal) == txtVal
  {
  }

  /**
   * Source and format are always "" or a `DEFAULTS` entry (ignoring case),
   * and a `DEFAULTS` value from the text file wins.
   */
  lemma MergeCodes(fileTags: Tags, folder: FolderMatch.Info, txt: Tags, folderName: string,
                   venues: seq<string>, cities: seq<string>, k: Key)
    requires IsCodeKey(k)
    ensures var r := MergeSpec(fileTags, folder, txt, folderName, venues, cities).Get(k);
            (r == "" || InDefaults(KeyName(k), r)) &&
            (Lookup(txt, KeyName(k)) != "" && InDefaults(KeyName(k), Lookup(txt, KeyName(k))) ==>
               r == Lookup(txt, KeyName(k)))
  {
    var album := AlbumSpec(Strip(Lookup(fileTags, "album")), venues, cities);
    AlbumCodes(Strip(Lookup(fileTags, "album")), venues, cities);
    var md0 := InitialMd(fileTags, album);
    assert CodeOk(k, md0.Get(k)) by {
      if md0.Get(k) != "" {
        assert md0.Get(k) in Defaults(KeyName(k));
      }
    }
    CodeSteps(k, md0.Get(k), FolderGet(folder, k), Lookup(txt, KeyName(k)));
    MergedKey(fileTags, folder, txt, album, k);
    var md := Merged0(fileTags, folder, txt, album);
    MergeSpecParts(fileTags, folder, txt, folderName, venues, cities);
    var r := MergeSpec(fileTags, folder, txt, folderName, venues, cities);
    if k == Source && r.source != md.source {
      assert r.source in Defaults(KeyName(k));
    }
  }

  /** The date is the selected candidate when there is one, else the merged value. */
  lemma MergeDate(fileTags: Tags, folder: FolderMatch.Info, txt: Tags, folderName: string,
                  venues: seq<string>, cities: seq<string>)
    ensures var album := AlbumSpec(Strip(Lookup(fileTags, "album")), venues, cities);
            var selected := SelectDate(DateCandidates(txt, folder, album, fileTags));
            var r := MergeSpec(fileTags, folder, txt, folderName, venues, cities);
            (selected.Some? ==> r.date == selected.value) &&
            (selected.None? ==> r.date == Or(Lookup(txt, "date"), Or(InitialMd(fileTags, album).date, folder.date)))
  {
    MergeSpecParts(fileTags, folder, txt, folderName, venues, cities);
  }
}
