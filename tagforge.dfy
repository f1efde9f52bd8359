/**
 * The stand-alone TagForge window (TagForge.py): its own folder-name parser,
 * the genre de-duplication of `retag_file`, the saved-folder list of the
 * walk-through window and the destination naming of the processing thread.
 */
module TagForge {
  import opened Text
  import opened Dates
  import opened FolderMatch

  // ---------------------------------------------------------------------
  // Fixed-width searches: extract_date
  // ---------------------------------------------------------------------

  /** A fixed-width pattern: 'd' stands for one digit, any other character for itself. */
  predicate ShapeAt(s: string, p: nat, shape: string)
  {
    p + |shape| <= |s| &&
    forall k :: 0 <= k < |shape| ==> if shape[k] == 'd' then IsDigit(s[p + k]) else s[p + k] == shape[k]
  }

  /** `re.search` for a fixed-width pattern: the leftmost start at or after `p`. */
  function SearchShape(s: string, shape: string, p: nat): Option<nat>
    requires p <= |s|
    decreases |s| - p
  {
    if ShapeAt(s, p, shape) then Some(p) else if p == |s| then None else SearchShape(s, shape, p + 1)
  }

  lemma {:induction false} SearchShapeSpec(s: string, shape: string, p: nat)
    requires p <= |s|
    ensures SearchShape(s, shape, p).None? <==> forall q :: p <= q <= |s| ==> !ShapeAt(s, q, shape)
    ensures SearchShape(s, shape, p).Some? ==>
              var q := SearchShape(s, shape, p).value;
              p <= q && ShapeAt(s, q, shape) && forall q' :: p <= q' < q ==> !ShapeAt(s, q', shape)
    decreases |s| - p
  {
    if !ShapeAt(s, p, shape) && p < |s| {
      SearchShapeSpec(s, shape, p + 1);
    }
  }

  const DateShapes: seq<string> := ["dddd-dd-dd", "dd-dd-dddd", "dd-dd-dd"]

  /** The text of the first hit of the first pattern (in order) that occurs at all. */
  function FirstShapeHit(s: string, shapes: seq<string>): string
  {
    if |shapes| == 0 then ""
    else match SearchShape(s, shapes[0], 0)
      case Some(p) => if p + |shapes[0]| <= |s| then s[p..p + |shapes[0]|] else ""
      case None => FirstShapeHit(s, shapes[1..])
  }

  /** `extract_date`: the raw text of the first hit, with no validation. */
  function ExtractDate(s: string): string
  {
    FirstShapeHit(s, DateShapes)
  }

  predicate OccursShape(s: string, shape: string)
  {
    exists q | 0 <= q <= |s| :: ShapeAt(s, q, shape)
  }

  /**
   * `r` is the text at `p` matched by `shapes[i]`: no earlier shape occurs
   * anywhere, and `shapes[i]` occurs nowhere before `p`.
   */
  predicate LeftmostOfFirst(s: string, shapes: seq<string>, r: string, i: nat, p: nat)
  {
    i < |shapes| && p <= |s| && ShapeAt(s, p, shapes[i]) && r == s[p..p + |shapes[i]|] &&
    (forall j :: 0 <= j < i ==> !OccursShape(s, shapes[j])) &&
    (forall q :: 0 <= q < p ==> !ShapeAt(s, q, shapes[i]))
  }

  lemma {:induction false} FirstShapeHitSpec(s: string, shapes: seq<string>)
    requires forall i :: 0 <= i < |shapes| ==> |shapes[i]| > 0
    ensures FirstShapeHit(s, shapes) == "" <==> forall i :: 0 <= i < |shapes| ==> !OccursShape(s, shapes[i])
    ensures FirstShapeHit(s, shapes) != "" ==>
              exists i: nat, p: nat :: LeftmostOfFirst(s, shapes, FirstShapeHit(s, shapes), i, p)
  {
    if |shapes| > 0 {
      SearchShapeSpec(s, shapes[0], 0);
      var hit := SearchShape(s, shapes[0], 0);
      if hit.Some? {
        var p := hit.value;
        assert LeftmostOfFirst(s, shapes, FirstShapeHit(s, shapes), 0, p);
      } else {
        FirstShapeHitSpec(s, shapes[1..]);
        ShapesShift(s, shapes);
      }
    }
  }

  /** When the first shape does not occur, the hit over the rest is the hit over all. */
  lemma ShapesShift(s: string, shapes: seq<string>)
    requires |shapes| > 0 && !OccursShape(s, shapes[0])
    requires var t := shapes[1..];
             (FirstShapeHit(s, t) == "" <==> forall i :: 0 <= i < |t| ==> !OccursShape(s, t[i])) &&
             (FirstShapeHit(s, t) != "" ==> exists i: nat, p: nat :: LeftmostOfFirst(s, t, FirstShapeHit(s, t), i, p))
    requires SearchShape(s, shapes[0], 0).None?
    ensures FirstShapeHit(s, shapes) == "" <==> forall i :: 0 <= i < |shapes| ==> !OccursShape(s, shapes[i])
    ensures FirstShapeHit(s, shapes) != "" ==>
              exists i: nat, p: nat :: LeftmostOfFirst(s, shapes, FirstShapeHit(s, shapes), i, p)
  {
    var t := shapes[1..];
    var r := FirstShapeHit(s, t);
    assert FirstShapeHit(s, shapes) == r;
    if r != "" {
      var i: nat, p: nat :| LeftmostOfFirst(s, t, r, i, p);
      assert t[i] == shapes[i + 1];
      forall j | 0 <= j < i + 1 ensures !OccursShape(s, shapes[j]) {
        if j > 0 {
          assert shapes[j] == t[j - 1];
        }
      }
      assert LeftmostOfFirst(s, shapes, r, i + 1, p);
    } else {
      forall i | 0 <= i < |shapes| ensures !OccursShape(s, shapes[i]) {
        if i > 0 {
          assert shapes[i] == t[i - 1];
        }
      }
    }
  }

  /**
   * `extract_date` is "" exactly when none of the three patterns occurs;
   * otherwise it is the leftmost hit of the first pattern that occurs.
   */
  lemma ExtractDateSpec(s: string)
    ensures ExtractDate(s) == "" <==> forall i :: 0 <= i < |DateShapes| ==> !OccursShape(s, DateShapes[i])
    ensures ExtractDate(s) != "" ==> exists i: nat, p: nat :: LeftmostOfFirst(s, DateShapes, ExtractDate(s), i, p)
  {
    FirstShapeHitSpec(s, DateShapes);
  }

  // ---------------------------------------------------------------------
  // extract_city: ([A-Za-z\s\.]+,\s*[A-Z]{2})
  // ---------------------------------------------------------------------

  predicate IsPlaceChar(c: char) { IsAlpha(c) || IsSpace(c) || c == '.' }

  function PlaceRunEnd(s: string, i: nat): (e: nat)
    requires i <= |s|
    ensures i <= e <= |s| && (e == |s| || !IsPlaceChar(s[e]))
    ensures forall k :: i <= k < e ==> IsPlaceChar(s[k])
    decreases |s| - i
  {
    if i < |s| && IsPlaceChar(s[i]) then PlaceRunEnd(s, i + 1) else i
  }

  function SpaceRunEnd(s: string, i: nat): (e: nat)
    requires i <= |s|
    ensures i <= e <= |s| && forall k :: i <= k < e ==> IsSpace(s[k])
    decreases |s| - i
  {
    if i < |s| && IsSpace(s[i]) then SpaceRunEnd(s, i + 1) else i
  }

  /** Some character strictly between `p` and `e` is a comma. */
  predicate CommaBetween(s: string, p: nat, e: nat)
    requires e <= |s|
  {
    exists c :: p < c < e && s[c] == ','
  }

  /**
   * The end of a match starting at `p`.  The place run cannot hold the
   * comma, so group 1 can only end where the run ends.
   */
  function PlaceMatchAt(s: string, p: nat): (r: Option<nat>)
    requires p <= |s|
    ensures r.Some? ==> p < r.value <= |s| && IsUpperAscii(s[r.value - 1]) && CommaBetween(s, p, r.value)
  {
    if p < |s| && IsPlaceChar(s[p]) then
      var e := PlaceRunEnd(s, p);
      if e < |s| && s[e] == ',' then
        var w := SpaceRunEnd(s, e + 1);
        if w + 2 <= |s| && IsUpperAscii(s[w]) && IsUpperAscii(s[w + 1]) then Some(w + 2) else None
      else None
    else None
  }

  function PlaceSearch(s: string, p: nat): (r: Option<(nat, nat)>)
    requires p <= |s|
    ensures r.Some? ==> p <= r.value.0 <= |s| && PlaceMatchAt(s, r.value.0) == Some(r.value.1)
    decreases |s| - p
  {
    if PlaceMatchAt(s, p).Some? then Some((p, PlaceMatchAt(s, p).value))
    else if p == |s| then None
    else PlaceSearch(s, p + 1)
  }

  /** `extract_city` of TagForge.py: the first match, stripped, "" without one. */
  function ExtractCity(s: string): (r: string)
    ensures r == "" <==> PlaceSearch(s, 0).None?
    ensures r != "" ==> ',' in r && |r| >= 2 && IsUpperAscii(r[|r| - 1])
  {
    CityOf(s, PlaceSearch(s, 0))
  }

  /** The city a search result yields; a city found holds a comma and ends in an upper-case letter. */
  function CityOf(s: string, m: Option<(nat, nat)>): (r: string)
    requires m.Some? ==> m.value.0 <= |s| && PlaceMatchAt(s, m.value.0) == Some(m.value.1)
    ensures r == "" <==> m.None?
    ensures r != "" ==> ',' in r && |r| >= 2 && IsUpperAscii(r[|r| - 1])
  {
    if m.Some? then
      PlaceMatchStripped(s, m.value.0, m.value.1);
      Strip(s[m.value.0..m.value.1])
    else ""
  }

  /** A stripped match keeps its comma and its final upper-case letter. */
  lemma PlaceMatchStripped(s: string, p: nat, e: nat)
    requires p <= |s| && PlaceMatchAt(s, p) == Some(e)
    ensures var r := Strip(s[p..e]);
            ',' in r && |r| >= 2 && IsUpperAscii(r[|r| - 1])
  {
    assert IsUpperAscii(s[e - 1]);
    var c :| p < c < e && s[c] == ',';
    StrippedEnds(s[p..e], c - p);
  }

  /** Stripping text that ends in an upper-case letter and holds an inner comma keeps both. */
  lemma StrippedEnds(t: string, c: nat)
    requires c < |t| && t[c] == ',' && IsUpperAscii(t[|t| - 1])
    ensures var r := Strip(t);
            ',' in r && |r| >= 2 && IsUpperAscii(r[|r| - 1])
  {
    StripAroundInner(t, c);
    var r := Strip(t);
    var k := |t| - |r|;
    assert r[c - k] == t[c];
    assert r[|r| - 1] == t[|t| - 1];
    if c == |t| - 1 {
      assert false;
    }
  }

  /** Stripping text whose last character and some inner character are not blank keeps both. */
  lemma StripAroundInner(t: string, c: nat)
    requires c < |t| && !IsSpace(t[c]) && !IsSpace(t[|t| - 1])
    ensures |Strip(t)| <= |t| && |t| - |Strip(t)| <= c && Strip(t) == t[|t| - |Strip(t)|..]
  {
    LStripShape(t);
    var l := LStrip(t);
    assert l[|l| - 1] == t[|t| - 1];
    RStripNoTrail(l);
  }

  // ---------------------------------------------------------------------
  // extract_format, extract_source, extract_id
  // ---------------------------------------------------------------------

  /** The alternatives of the bracketed format pattern, in order. */
  const BracketFormats: seq<string> := ["FLAC16", "FLAC24", "FLAC", "MP3-V0", "MP3-320", "MP3-256", "MP3-128", "MP3"]
  /**
   * The alternatives of the dotted-suffix pattern.  The pattern is matched
   * ignoring case, so they are written here in upper case.
   */
  const SuffixFormats: seq<string> := ["FLAC16", "FLAC24", "FLAC", "MP3V0", "MP3320", "MP3256", "MP3128", "MP3"]
  const BracketSources: seq<string> := ["SBD", "AUD"]

  /** The first alternative that matches (ignoring case) at `i` and is followed by ']'. */
  function BracketAltAt(s: string, i: nat, alts: seq<string>): (r: Option<string>)
    requires i <= |s|
    ensures r.Some? ==> r.value in alts && i + |r.value| < |s| && EqualsCI(s[i..i + |r.value|], r.value) &&
                        s[i + |r.value|] == ']'
  {
    if |alts| == 0 then None
    else if i + |alts[0]| < |s| && EqualsCI(s[i..i + |alts[0]|], alts[0]) && s[i + |alts[0]|] == ']'
    then Some(alts[0])
    else BracketAltAt(s, i, alts[1..])
  }

  /** `re.search(r'\[(A|B|...)\]', s, re.IGNORECASE)`: the leftmost start and the alternative. */
  function BracketSearch(s: string, p: nat, alts: seq<string>): (r: Option<(nat, string)>)
    requires p <= |s|
    ensures r.Some? ==> p <= r.value.0 && BracketHitAt(s, r.value.0, alts, r.value.1)
    decreases |s| - p
  {
    if p == |s| then None
    else if BracketOpenAt(s, p, alts).Some? then Some((p, BracketOpenAt(s, p, alts).value))
    else BracketSearch(s, p + 1, alts)
  }

  /** The alternative a '[' at `p` opens, if any. */
  function BracketOpenAt(s: string, p: nat, alts: seq<string>): (r: Option<string>)
    requires p < |s|
    ensures r.Some? ==> BracketHitAt(s, p, alts, r.value)
  {
    if s[p] == '[' then BracketAltAt(s, p + 1, alts) else None
  }

  /** A '[' at `q` followed by the alternative `a` and ']'. */
  predicate BracketHitAt(s: string, q: nat, alts: seq<string>, a: string)
  {
    q < |s| && s[q] == '[' && BracketAltAt(s, q + 1, alts) == Some(a)
  }

  /** The first alternative that matches (ignoring case) at `i` and reaches the `$` anchor. */
  function SuffixAltAt(s: string, i: nat, alts: seq<string>): (r: Option<string>)
    requires i <= |s|
    ensures r.Some? ==> r.value in alts && i + |r.value| <= |s| && EqualsCI(s[i..i + |r.value|], r.value)
  {
    if |alts| == 0 then None
    else if i + |alts[0]| <= |s| && EqualsCI(s[i..i + |alts[0]|], alts[0]) &&
            (i + |alts[0]| == |s| || i + |alts[0]| == EndAnchor(s))
    then Some(alts[0])
    else SuffixAltAt(s, i, alts[1..])
  }

  /** `re.search(r'\.(a|b|...)$', s, re.IGNORECASE)`. */
  function SuffixSearch(s: string, p: nat, alts: seq<string>): (r: Option<(nat, string)>)
    requires p <= |s|
    ensures r.Some? ==> p <= r.value.0 && SuffixHitAt(s, r.value.0, alts, r.value.1)
    decreases |s| - p
  {
    if p == |s| then None
    else if SuffixDotAt(s, p, alts).Some? then Some((p, SuffixDotAt(s, p, alts).value))
    else SuffixSearch(s, p + 1, alts)
  }

  /** The alternative a '.' at `p` introduces, if any. */
  function SuffixDotAt(s: string, p: nat, alts: seq<string>): (r: Option<string>)
    requires p < |s|
    ensures r.Some? ==> SuffixHitAt(s, p, alts, r.value)
  {
    if s[p] == '.' then SuffixAltAt(s, p + 1, alts) else None
  }

  /** A '.' at `q` followed by the alternative `a` at the end. */
  predicate SuffixHitAt(s: string, q: nat, alts: seq<string>, a: string)
  {
    q < |s| && s[q] == '.' && SuffixAltAt(s, q + 1, alts) == Some(a)
  }

  /** The upper-cased text of a group that matched `alt` ignoring case. */
  function MatchedUpper(s: string, i: nat, alt: string): string
    requires i + |alt| <= |s|
  {
    Upper(s[i..i + |alt|])
  }

  /** `extract_format`: a bracketed format first, then a dotted suffix, upper-cased. */
  function ExtractFormat(s: string): string
  {
    var bracket := BracketSearch(s, 0, BracketFormats);
    var suffix := SuffixSearch(s, 0, SuffixFormats);
    if bracket.Some? then MatchedUpper(s, bracket.value.0 + 1, bracket.value.1)
    else if suffix.Some? then MatchedUpper(s, suffix.value.0 + 1, suffix.value.1)
    else ""
  }

  /** `extract_source`: only [SBD] and [AUD] are recognised. */
  function ExtractSource(s: string): string
  {
    var bracket := BracketSearch(s, 0, BracketSources);
    if bracket.Some? then MatchedUpper(s, bracket.value.0 + 1, bracket.value.1) else ""
  }

  /** A code with no lower-case letter, as every alternative above is written. */
  predicate NoLowerCode(a: string)
  {
    forall k :: 0 <= k < |a| ==> !IsLowerAscii(a[k])
  }

  lemma BracketFormatsNoLower()
    ensures forall a :: a in BracketFormats ==> NoLowerCode(a)
  {
  }

  lemma SuffixFormatsNoLower()
    ensures forall a :: a in SuffixFormats ==> NoLowerCode(a)
  {
  }

  lemma BracketSourcesNoLower()
    ensures forall a :: a in BracketSources ==> NoLowerCode(a)
  {
  }

  /** Text equal to an upper-case alternative ignoring case upper-cases to it. */
  lemma UpperOfEqualCI(t: string, a: string)
    requires EqualsCI(t, a) && NoLowerCode(a)
    ensures Upper(t) == a
  {
    LowerLength(t);
    LowerLength(a);
    forall k | 0 <= k < |t| ensures Upper(t)[k] == a[k] {
      assert Lower(t)[k] == Lower(a)[k];
    }
  }

  /** A bracketed hit upper-cases to the alternative it matched. */
  lemma BracketHitUpper(s: string, alts: seq<string>)
    requires forall a :: a in alts ==> NoLowerCode(a)
    ensures BracketSearch(s, 0, alts).Some? ==>
              var (p, a) := BracketSearch(s, 0, alts).value;
              p + 1 + |a| <= |s| && MatchedUpper(s, p + 1, a) == a
  {
    if BracketSearch(s, 0, alts).Some? {
      var (p, a) := BracketSearch(s, 0, alts).value;
      UpperOfEqualCI(s[p + 1..p + 1 + |a|], a);
    }
  }

  /** A suffix hit upper-cases to the alternative it matched. */
  lemma SuffixHitUpper(s: string, alts: seq<string>)
    requires forall a :: a in alts ==> NoLowerCode(a)
    ensures SuffixSearch(s, 0, alts).Some? ==>
              var (p, a) := SuffixSearch(s, 0, alts).value;
              p + 1 + |a| <= |s| && MatchedUpper(s, p + 1, a) == a
  {
    if SuffixSearch(s, 0, alts).Some? {
      var (p, a) := SuffixSearch(s, 0, alts).value;
      UpperOfEqualCI(s[p + 1..p + 1 + |a|], a);
    }
  }

  /** A bracketed code anywhere wins, and `extract_format` returns the alternative it matched. */
  lemma ExtractFormatBracket(s: string)
    requires BracketSearch(s, 0, BracketFormats).Some?
    ensures ExtractFormat(s) == BracketSearch(s, 0, BracketFormats).value.1
    ensures ExtractFormat(s) in BracketFormats
  {
    BracketFormatsNoLower();
    BracketHitUpper(s, BracketFormats);
  }

  /** Without a bracketed code, a dotted suffix gives the alternative it matched. */
  lemma ExtractFormatSuffix(s: string)
    requires BracketSearch(s, 0, BracketFormats).None? && SuffixSearch(s, 0, SuffixFormats).Some?
    ensures ExtractFormat(s) == SuffixSearch(s, 0, SuffixFormats).value.1
    ensures ExtractFormat(s) in SuffixFormats
  {
    SuffixFormatsNoLower();
    SuffixHitUpper(s, SuffixFormats);
  }

  /** `extract_source` is "", "SBD" or "AUD". */
  lemma ExtractSourceSpec(s: string)
    ensures ExtractSource(s) in {"", "SBD", "AUD"}
    ensures ExtractSource(s) == "" <==> BracketSearch(s, 0, BracketSources).None?
  {
    BracketSourcesNoLower();
    BracketHitUpper(s, BracketSources);
  }

  const IdExclusions: seq<string> := ["SBD", "AUD", "FLAC16", "FLAC24", "FLAC", "MP3-V0", "MP3-320", "MP3-256", "MP3-128", "MP3"]

  /** `extract_id` of TagForge.py. */
  function ExtractId(s: string): string
  {
    match TrailingBracket(s, 0)
    case Some(v) => if Upper(v) !in IdExclusions then v else ""
    case None => ""
  }

  /** The id is the trailing bracket group, unless it is one of the ten codes ignoring case. */
  lemma ExtractIdSpec(s: string)
    ensures var r := ExtractId(s);
            r != "" ==> Upper(r) !in IdExclusions && ']' !in r &&
                        (EndsWith(s, "[" + r + "]") || EndsWith(s, "[" + r + "]\n"))
    ensures TrailingBracket(s, 0).None? ==> ExtractId(s) == ""
  {
    TrailingBracketShape(s, 0);
  }

  // ---------------------------------------------------------------------
  // match_folder of TagForge.py
  // ---------------------------------------------------------------------

  /** The eight-key dictionary of TagForge's `match_folder`. */
  datatype FolderInfo = FolderInfo(artist: string, date: string, venue: string, city: string, id: string,
                                   source: string, format: string, genre: string)
  {
    function Get(key: string): string
    {
      if key == "artist" then artist else if key == "date" then date
      else if key == "venue" then venue else if key == "city" then city
      else if key == "id" then id else if key == "source" then source
      else if key == "format" then format else if key == "genre" then genre
      else ""
    }

    /** `info[key] = v` for one of the eight keys. */
    function Set(key: string, v: string): FolderInfo
    {
      if key == "artist" then this.(artist := v) else if key == "date" then this.(date := v)
      else if key == "venue" then this.(venue := v) else if key == "city" then this.(city := v)
      else if key == "id" then this.(id := v) else if key == "source" then this.(source := v)
      else if key == "format" then this.(format := v) else if key == "genre" then this.(genre := v)
      else this
    }
  }

  const BlankFolderInfo := FolderInfo("", "", "", "", "", "", "", "")

  const FolderKeys: set<string> := {"artist", "date", "venue", "city", "id", "source", "format", "genre"}

  lemma FolderSetGet(info: FolderInfo, key: string, v: string, k: string)
    requires key in FolderKeys
    ensures info.Set(key, v).Get(k) == if k == key then v else info.Get(k)
  {
  }

  const FolderPatternGroups: seq<seq<string>> := [
    ["date", "venue", "city", "id"],
    ["artist", "date", "venue", "city", "id"],
    ["artist", "date", "venue", "city", "format"]
  ]

  function FillFolder(info: FolderInfo, groups: seq<string>, m: Groups): FolderInfo
    decreases |groups|
  {
    if |groups| == 0 then info else FillFolder(info.Set(groups[0], Strip(Group(m, groups[0]))), groups[1..], m)
  }

  function PatternFolderInfo(name: string, rxs: seq<Matcher>): FolderInfo
    requires |rxs| == |FolderPatternGroups|
  {
    var hit := FirstMatch(rxs, name, 0);
    if hit.None? then BlankFolderInfo
    else FillFolder(BlankFolderInfo, FolderPatternGroups[hit.value.0], hit.value.1)
  }

  /** What TagForge's `match_folder` returns: each empty field falls back to its extractor. */
  function ParseFolder(name: string, rxs: seq<Matcher>): FolderInfo
    requires |rxs| == |FolderPatternGroups|
  {
    var i := PatternFolderInfo(name, rxs);
    i.(date := OrElse(i.date, ExtractDate(name)), city := OrElse(i.city, ExtractCity(name)),
       format := OrElse(i.format, ExtractFormat(name)), source := OrElse(i.source, ExtractSource(name)),
       id := OrElse(i.id, ExtractId(name)))
  }

  method MatchFolder(name: string, rxs: seq<Matcher>) returns (info: FolderInfo)
    requires |rxs| == |FolderPatternGroups|
    ensures info == ParseFolder(name, rxs)
  {
    info := BlankFolderInfo;
    var k := 0;
    while k < |rxs|
      invariant 0 <= k <= |rxs|
      invariant FirstMatch(rxs, name, k) == FirstMatch(rxs, name, 0)
      invariant info == BlankFolderInfo
    {
      var m := rxs[k](name);
      if m.Some? {
        var groups := FolderPatternGroups[k];
        var i := 0;
        while i < |groups|
          invariant 0 <= i <= |groups|
          invariant FillFolder(info, groups[i..], m.value) == FillFolder(BlankFolderInfo, groups, m.value)
        {
          info := info.Set(groups[i], Strip(Group(m.value, groups[i])));
          i := i + 1;
        }
        break;
      }
      k := k + 1;
    }
    assert info == PatternFolderInfo(name, rxs);
    if info.date == "" {
      info := info.(date := ExtractDate(name));
    }
    if info.city == "" {
      info := info.(city := ExtractCity(name));
    }
    if info.format == "" {
      info := info.(format := ExtractFormat(name));
    }
    if info.source == "" {
      info := info.(source := ExtractSource(name));
    }
    if info.id == "" {
      info := info.(id := ExtractId(name));
    }
  }

  /** Filling sets exactly the listed keys to their stripped captures. */
  lemma {:induction false} FillFolderSpec(info: FolderInfo, groups: seq<string>, m: Groups, k: string)
    requires forall g :: g in groups ==> g in FolderKeys
    ensures FillFolder(info, groups, m).Get(k) == if k in groups then Strip(Group(m, k)) else info.Get(k)
    decreases |groups|
  {
    if |groups| > 0 {
      FillFolderSpec(info.Set(groups[0], Strip(Group(m, groups[0]))), groups[1..], m, k);
      FolderSetGet(info, groups[0], Strip(Group(m, groups[0])), k);
      assert k in groups <==> k == groups[0] || k in groups[1..];
    }
  }

  /**
   * Genre is never filled; a date captured by the first matching pattern
   * is kept, and an empty one is replaced by `extract_date`.
   */
  lemma ParseFolderSpec(name: string, rxs: seq<Matcher>)
    requires |rxs| == |FolderPatternGroups|
    ensures ParseFolder(name, rxs).genre == ""
    ensures var captured := PatternFolderInfo(name, rxs).date;
            ParseFolder(name, rxs).date == if captured != "" then captured else ExtractDate(name)
    ensures FirstMatch(rxs, name, 0).Some? ==>
              PatternFolderInfo(name, rxs).date == Strip(Group(FirstMatch(rxs, name, 0).value.1, "date"))
  {
    var hit := FirstMatch(rxs, name, 0);
    if hit.Some? {
      FilledFolder(hit.value.0, hit.value.1);
    }
  }

  /** Every pattern captures "date" and none captures "genre". */
  lemma FilledFolder(k: nat, m: Groups)
    requires k < |FolderPatternGroups|
    ensures var info := FillFolder(BlankFolderInfo, FolderPatternGroups[k], m);
            info.genre == "" && info.date == Strip(Group(m, "date"))
  {
    assert forall g :: g in FolderPatternGroups[k] ==> g in FolderKeys;
    var groups := FolderPatternGroups[k];
    var info := FillFolder(BlankFolderInfo, groups, m);
    FillFolderSpec(BlankFolderInfo, groups, m, "genre");
    assert "genre" !in groups by {
      assert "genre"[0] == 'g';
    }
    assert info.genre == info.Get("genre");
    FillFolderSpec(BlankFolderInfo, groups, m, "date");
    assert "date" in groups;
  }

  // ---------------------------------------------------------------------
  // retag_file: the genre list
  // ---------------------------------------------------------------------

  /** Keep the first occurrence of each genre ignoring case, dropping empty entries. */
  function KeepFirstCI(genres: seq<string>, seen: set<string>): seq<string>
  {
    if |genres| == 0 then []
    else if genres[0] != "" && Lower(genres[0]) !in seen then
      [genres[0]] + KeepFirstCI(genres[1..], seen + {Lower(genres[0])})
    else KeepFirstCI(genres[1..], seen)
  }

  /** Every kept genre is a non-empty input genre not already seen. */
  predicate KeptFrom(r: seq<string>, genres: seq<string>, seen: set<string>)
  {
    forall i :: 0 <= i < |r| ==> r[i] != "" && r[i] in genres && Lower(r[i]) !in seen
  }

  predicate DistinctCI(r: seq<string>)
  {
    forall i, j :: 0 <= i < j < |r| ==> Lower(r[i]) != Lower(r[j])
  }

  predicate CoversCI(r: seq<string>, genres: seq<string>, seen: set<string>)
  {
    forall g :: g in genres && g != "" && Lower(g) !in seen ==> exists i :: 0 <= i < |r| && Lower(r[i]) == Lower(g)
  }

  lemma {:induction false} KeepFirstCIMembers(genres: seq<string>, seen: set<string>)
    ensures KeptFrom(KeepFirstCI(genres, seen), genres, seen)
  {
    if |genres| > 0 {
      var g0 := genres[0];
      if g0 != "" && Lower(g0) !in seen {
        var seen' := seen + {Lower(g0)};
        KeepFirstCIMembers(genres[1..], seen');
        var t := KeepFirstCI(genres[1..], seen');
        var r := [g0] + t;
        assert KeepFirstCI(genres, seen) == r;
        forall i | 0 <= i < |r| ensures r[i] != "" && r[i] in genres && Lower(r[i]) !in seen {
          if i > 0 {
            assert r[i] == t[i - 1];
            assert t[i - 1] in genres[1..];
          }
        }
      } else {
        KeepFirstCIMembers(genres[1..], seen);
        var t := KeepFirstCI(genres[1..], seen);
        assert KeepFirstCI(genres, seen) == t;
        forall i | 0 <= i < |t| ensures t[i] in genres {
          assert t[i] in genres[1..];
        }
      }
    }
  }

  /** No two kept genres are equal ignoring case. */
  lemma {:induction false} KeepFirstCIDistinct(genres: seq<string>, seen: set<string>)
    ensures DistinctCI(KeepFirstCI(genres, seen))
  {
    if |genres| > 0 {
      var g0 := genres[0];
      if g0 != "" && Lower(g0) !in seen {
        var seen' := seen + {Lower(g0)};
        KeepFirstCIDistinct(genres[1..], seen');
        KeepFirstCIMembers(genres[1..], seen');
        var t := KeepFirstCI(genres[1..], seen');
        var r := [g0] + t;
        assert KeepFirstCI(genres, seen) == r;
        forall i, j | 0 <= i < j < |r| ensures Lower(r[i]) != Lower(r[j]) {
          assert r[j] == t[j - 1];
          if i > 0 {
            assert r[i] == t[i - 1];
          }
        }
      } else {
        KeepFirstCIDistinct(genres[1..], seen);
        assert KeepFirstCI(genres, seen) == KeepFirstCI(genres[1..], seen);
      }
    }
  }

  /** Every non-empty genre not already seen is represented, ignoring case. */
  lemma {:induction false} KeepFirstCICovers(genres: seq<string>, seen: set<string>)
    ensures CoversCI(KeepFirstCI(genres, seen), genres, seen)
  {
    if |genres| > 0 {
      var g0 := genres[0];
      if g0 != "" && Lower(g0) !in seen {
        var seen' := seen + {Lower(g0)};
        KeepFirstCICovers(genres[1..], seen');
        var t := KeepFirstCI(genres[1..], seen');
        var r := [g0] + t;
        assert KeepFirstCI(genres, seen) == r;
        forall g | g in genres && g != "" && Lower(g) !in seen
          ensures exists i :: 0 <= i < |r| && Lower(r[i]) == Lower(g)
        {
          if Lower(g) == Lower(g0) {
            assert Lower(r[0]) == Lower(g);
          } else {
            assert g in genres[1..];
            var i :| 0 <= i < |t| && Lower(t[i]) == Lower(g);
            assert Lower(r[i + 1]) == Lower(g);
          }
        }
      } else {
        KeepFirstCICovers(genres[1..], seen);
        assert KeepFirstCI(genres, seen) == KeepFirstCI(genres[1..], seen);
        forall g | g in genres && g != "" && Lower(g) !in seen
          ensures g in genres[1..]
        {
          assert g != g0;
        }
      }
    }
  }

  /**
   * Position `i` holds the first occurrence of its genre ignoring case: it
   * is non-empty, not already seen, and no earlier non-empty genre has the
   * same lower-cased form.
   */
  predicate FirstCI(genres: seq<string>, seen: set<string>, i: nat)
    requires i < |genres|
  {
    genres[i] != "" && Lower(genres[i]) !in seen &&
    forall j :: 0 <= j < i ==> genres[j] == "" || Lower(genres[j]) != Lower(genres[i])
  }

  /** The genres among the first `n` that are first occurrences, in index order. */
  function FirstsUpTo(genres: seq<string>, seen: set<string>, n: nat): seq<string>
    requires n <= |genres|
  {
    if n == 0 then []
    else FirstsUpTo(genres, seen, n - 1) + (if FirstCI(genres, seen, n - 1) then [genres[n - 1]] else [])
  }

  /** `seen` plus the lower-cased form of every non-empty genre among the first `n`. */
  function SeenBefore(genres: seq<string>, seen: set<string>, n: nat): set<string>
    requires n <= |genres|
  {
    if n == 0 then seen
    else SeenBefore(genres, seen, n - 1) + (if genres[n - 1] != "" then {Lower(genres[n - 1])} else {})
  }

  /**
   * The de-duplication keeps exactly the first occurrences, ignoring case,
   * in the order of the list: a later spelling of a genre never replaces an
   * earlier one.
   */
  lemma KeepFirstCIOrder(genres: seq<string>, seen: set<string>)
    ensures KeepFirstCI(genres, seen) == FirstsUpTo(genres, seen, |genres|)
  {
    KeepFirstCISplit(genres, seen, |genres|);
    assert genres[|genres|..] == [];
  }

  /** After `n` positions the rest of the de-duplication runs on what those positions have seen. */
  lemma {:induction false} KeepFirstCISplit(genres: seq<string>, seen: set<string>, n: nat)
    requires n <= |genres|
    ensures KeepFirstCI(genres, seen) ==
            FirstsUpTo(genres, seen, n) + KeepFirstCI(genres[n..], SeenBefore(genres, seen, n))
  {
    if n == 0 {
      assert genres[0..] == genres;
    } else {
      KeepFirstCISplit(genres, seen, n - 1);
      KeepFirstCIStep(genres, seen, n - 1);
    }
  }

  /** One position: its genre is kept iff it is a first occurrence. */
  lemma KeepFirstCIStep(genres: seq<string>, seen: set<string>, n: nat)
    requires n < |genres|
    ensures KeepFirstCI(genres[n..], SeenBefore(genres, seen, n)) ==
            (if FirstCI(genres, seen, n) then [genres[n]] else []) +
            KeepFirstCI(genres[n + 1..], SeenBefore(genres, seen, n + 1))
  {
    var g := genres[n];
    var before := SeenBefore(genres, seen, n);
    assert genres[n..][0] == g && genres[n..][1..] == genres[n + 1..];
    SeenBeforeSpec(genres, seen, n);
    if g != "" && Lower(g) !in before {
      assert FirstCI(genres, seen, n);
    } else {
      assert !FirstCI(genres, seen, n);
      assert SeenBefore(genres, seen, n + 1) == before;
    }
  }

  /** What the first `n` positions have seen: `seen` and their non-empty genres, lower-cased. */
  lemma {:induction false} SeenBeforeSpec(genres: seq<string>, seen: set<string>, n: nat)
    requires n <= |genres|
    ensures forall x :: x in SeenBefore(genres, seen, n) <==>
                        x in seen || exists j :: 0 <= j < n && genres[j] != "" && Lower(genres[j]) == x
  {
    if n > 0 {
      SeenBeforeSpec(genres, seen, n - 1);
    }
  }

  /**
   * The loop of `retag_file` that builds the genre tag: `existing` holds the
   * lower-cased genres kept so far.
   */
  method GenreTag(genres: seq<string>) returns (tag: string)
    ensures genres == [] ==> tag == ""
    ensures genres != [] ==> tag == Join(KeepFirstCI(genres, {}), "; ")
  {
    if |genres| == 0 {
      return "";
    }
    var existing: set<string> := {};
    var genreList: seq<string> := [];
    var i := 0;
    assert genres[0..] == genres;
    while i < |genres|
      invariant 0 <= i <= |genres|
      invariant genreList + KeepFirstCI(genres[i..], existing) == KeepFirstCI(genres, {})
    {
      var g := genres[i];
      assert genres[i..][1..] == genres[i + 1..];
      if g != "" && Lower(g) !in existing {
        assert genreList + KeepFirstCI(genres[i..], existing) ==
               (genreList + [g]) + KeepFirstCI(genres[i + 1..], existing + {Lower(g)});
        genreList := genreList + [g];
        existing := existing + {Lower(g)};
      }
      i := i + 1;
    }
    assert genres[i..] == [];
    assert genreList + [] == genreList;
    tag := Join(genreList, "; ");
  }

  // ---------------------------------------------------------------------
  // The walk-through window: saving and removing folders
  // ---------------------------------------------------------------------

  /** `int` reads back what `str` and zero padding wrote. */
  lemma ParseIntPadded(n: nat, w: nat)
    ensures ParseInt(PadNat(n, w)) == Some(n)
  {
    PadValue(n, w);
    NatToStringDigits(n);
    var t := PadNat(n, w);
    assert |t| >= 1;
    WithoutUnderscoresOfDigits(t);
    assert UnderscoredDigits(t);
  }

  /** `f"{n:0{w}d}"`: zero padding comes after the sign and counts it. */
  function FormatZeroPadded(n: int, w: nat): string
  {
    if n < 0 then "-" + PadNat(-n, if w > 0 then w - 1 else 0) else PadNat(n, w)
  }

  /** The date `save_selected_folder` composes from the year, month and day fields. */
  function ComposeDate(year: string, month: string, day: string): string
  {
    if year == "" || month == "" || day == "" then ""
    else
      match (ParseInt(year), ParseInt(month), ParseInt(day))
      case (Some(y), Some(m), Some(d)) =>
        FormatZeroPadded(y, 4) + "-" + FormatZeroPadded(m, 2) + "-" + FormatZeroPadded(d, 2)
      case _ => ""
  }

  /** A date is composed only when all three fields are present and integers. */
  lemma ComposeDateNeedsAll(year: string, month: string, day: string)
    ensures ComposeDate(year, month, day) != "" <==>
              ParseInt(year).Some? && ParseInt(month).Some? && ParseInt(day).Some?
  {
    if ParseInt(year).Some? && ParseInt(month).Some? && ParseInt(day).Some? {
      assert year != "" && month != "" && day != "";
    }
  }

  /** Splitting a formatted date into its fields and saving composes the same date. */
  lemma ComposeDateRoundTrip(d: Date)
    requires d.Valid()
    ensures ComposeDate(PadNat(d.year, 4), PadNat(d.month, 2), PadNat(d.day, 2)) == IsoFormat(d)
  {
    ParseIntPadded(d.year, 4);
    ParseIntPadded(d.month, 2);
    ParseIntPadded(d.day, 2);
    NatToStringDigits(d.year);
  }

  /** What is stored for a saved folder; `id` holds the "additional" field. */
  datatype SavedMetadata = SavedMetadata(artist: string, venue: string, city: string, date: string,
                                         source: string, format: string, genre: string, id: string)

  /** The raw texts of the entry fields of the walk-through window. */
  datatype FormFields = FormFields(artist: string, venue: string, city: string, additional: string,
                                   source: string, format: string, genre: string,
                                   year: string, month: string, day: string)

  /** The stripped fields and the composed date, as `save_selected_folder` stores them. */
  function Entry(f: FormFields): SavedMetadata
  {
    SavedMetadata(Strip(f.artist), Strip(f.venue), Strip(f.city),
                  ComposeDate(Strip(f.year), Strip(f.month), Strip(f.day)),
                  Strip(f.source), Strip(f.format), Strip(f.genre), Strip(f.additional))
  }

  /** Artist, date and venue are required. */
  predicate Complete(e: SavedMetadata)
  {
    e.artist != "" && e.date != "" && e.venue != ""
  }

  datatype SaveOutcome = NoSelection | MissingData | SavedFolder(path: string)

  /** The value histories the walk-through window offers in its entry fields. */
  datatype Histories = Histories(artist: set<string>, venue: set<string>, city: set<string>,
                                 additional: set<string>, source: set<string>, format: set<string>,
                                 genre: set<string>)
  {
    /** Every value of a saved entry joins its history. */
    function Add(e: SavedMetadata): Histories
    {
      Histories(artist + {e.artist}, venue + {e.venue}, city + {e.city}, additional + {e.id},
                source + {e.source}, format + {e.format}, genre + {e.genre})
    }
  }

  /** The source and format choices offered when there is no cache file. */
  const SourceChoices: set<string> := {"", "SBD", "AUD"}
  const FormatChoices: set<string> := {"", "FLAC16", "FLAC24", "MP3-V0", "MP3-320", "MP3-256", "MP3-128"}

  /**
   * What reading the history cache gives: no file, a read or parse that
   * raises, or the file's values, each `data.get(key, default)`.
   */
  datatype CacheRead =
    | NoCacheFile
    | CacheError
    | CacheData(artist: seq<string>, venue: seq<string>, city: seq<string>, additional: seq<string>,
                source: seq<string>, format: seq<string>, genre: seq<string>,
                lastSource: string, lastFormat: string, lastGenre: string)

  /** `set(values)`. */
  function SetOf(values: seq<string>): set<string>
  {
    set v | v in values
  }

  /** The histories a cache file holds, each list made a set. */
  function CachedHistories(c: CacheRead): Histories
    requires c.CacheData?
  {
    Histories(SetOf(c.artist), SetOf(c.venue), SetOf(c.city), SetOf(c.additional),
              SetOf(c.source), SetOf(c.format), SetOf(c.genre))
  }

  class WalkThroughGui {
    var currentSelection: Option<string>
    var savedFolders: seq<string>
    /** The entries of the saved-folders list box. */
    var listbox: seq<string>
    var folderMetadata: map<string, SavedMetadata>
    var lastSource: string
    var lastFormat: string
    var lastGenre: string
    var histories: Histories

    /** The list box shows the saved folders, each once. */
    predicate Valid()
      reads this
    {
      listbox == savedFolders && NoDuplicates(savedFolders)
    }

    /**
     * `__init__`: no selection, no saved folders and no metadata, then the
     * histories and last values `load_history_cache` reads from `cache`.
     */
    constructor(cache: CacheRead)
      ensures Valid() && savedFolders == [] && folderMetadata == map[] && currentSelection.None?
      ensures cache.CacheData? ==>
                histories == CachedHistories(cache) &&
                lastSource == cache.lastSource && lastFormat == cache.lastFormat && lastGenre == cache.lastGenre
      ensures cache.NoCacheFile? ==>
                histories == Histories({}, {}, {}, {}, SourceChoices, FormatChoices, {}) &&
                lastSource == lastFormat == lastGenre == ""
      ensures cache.CacheError? ==>
                histories == Histories({}, {}, {}, {}, {}, {}, {}) && lastSource == lastFormat == lastGenre == ""
    {
      currentSelection := None;
      savedFolders := [];
      listbox := [];
      folderMetadata := map[];
      lastSource, lastFormat, lastGenre := "", "", "";
      histories := Histories({}, {}, {}, {}, {}, {}, {});
      new;
      LoadHistoryCache(cache);
    }

    /**
     * `load_history_cache`: a cache file replaces the histories and the last
     * values; without one the source and format histories gain their
     * default choices; a failing read changes nothing.
     */
    method LoadHistoryCache(cache: CacheRead)
      modifies this
      ensures savedFolders == old(savedFolders) && listbox == old(listbox) &&
              folderMetadata == old(folderMetadata) && currentSelection == old(currentSelection)
      ensures cache.CacheData? ==>
                histories == CachedHistories(cache) &&
                lastSource == cache.lastSource && lastFormat == cache.lastFormat && lastGenre == cache.lastGenre
      ensures cache.NoCacheFile? ==>
                histories == old(histories).(source := old(histories).source + SourceChoices,
                                             format := old(histories).format + FormatChoices) &&
                lastSource == old(lastSource) && lastFormat == old(lastFormat) && lastGenre == old(lastGenre)
      ensures cache.CacheError? ==>
                histories == old(histories) &&
                lastSource == old(lastSource) && lastFormat == old(lastFormat) && lastGenre == old(lastGenre)
    {
      match cache
      case CacheData(_, _, _, _, _, _, _, _, _, _) =>
        histories := CachedHistories(cache);
        lastSource, lastFormat, lastGenre := cache.lastSource, cache.lastFormat, cache.lastGenre;
      case NoCacheFile =>
        histories := histories.(source := histories.source + SourceChoices,
                                format := histories.format + FormatChoices);
      case CacheError =>
    }

    /** The folder list after saving `f`: appended unless already present. */
    method AppendFolder(f: string)
      requires Valid()
      modifies this
      ensures Valid()
      ensures savedFolders == old(savedFolders) + (if f in old(savedFolders) then [] else [f])
      ensures f in savedFolders
      ensures folderMetadata == old(folderMetadata) && currentSelection == old(currentSelection)
      ensures lastSource == old(lastSource) && lastFormat == old(lastFormat) && lastGenre == old(lastGenre)
      ensures histories == old(histories)
    {
      if f !in savedFolders {
        savedFolders := savedFolders + [f];
        listbox := listbox + [f];
      }
    }

    /** Stores the entry and remembers its source, format and genre as the last ones. */
    method StoreEntry(f: string, e: SavedMetadata)
      modifies this
      ensures savedFolders == old(savedFolders) && listbox == old(listbox)
      ensures folderMetadata == old(folderMetadata)[f := e]
      ensures lastSource == e.source && lastFormat == e.format && lastGenre == e.genre
      ensures histories == old(histories) && currentSelection == old(currentSelection)
    {
      folderMetadata := folderMetadata[f := e];
      lastSource, lastFormat, lastGenre := e.source, e.format, e.genre;
    }

    /**
     * `save_selected_folder`: refuses without a selection or when artist,
     * date or venue is empty, changing nothing; otherwise appends the
     * folder once, stores its entry, remembers the last source, format and
     * genre and adds every value to its history.
     */
    method SaveSelectedFolder(form: FormFields) returns (outcome: SaveOutcome)
      requires Valid()
      modifies this
      ensures Valid() && currentSelection == old(currentSelection)
      ensures old(currentSelection).None? <==> outcome == NoSelection
      ensures old(currentSelection).Some? && !Complete(Entry(form)) <==> outcome == MissingData
      ensures outcome.NoSelection? || outcome.MissingData? ==>
                savedFolders == old(savedFolders) && folderMetadata == old(folderMetadata) &&
                lastSource == old(lastSource) && lastFormat == old(lastFormat) && lastGenre == old(lastGenre) &&
                histories == old(histories)
      ensures outcome.SavedFolder? ==>
                var e := Entry(form);
                var f := outcome.path;
                old(currentSelection) == Some(f) && Complete(e) &&
                savedFolders == old(savedFolders) + (if f in old(savedFolders) then [] else [f]) &&
                folderMetadata == old(folderMetadata)[f := e] &&
                lastSource == e.source && lastFormat == e.format && lastGenre == e.genre &&
                histories == old(histories).Add(e)
    {
      if currentSelection.None? {
        return NoSelection;
      }
      var e := Entry(form);
      if !Complete(e) {
        return MissingData;
      }
      var folderPath := currentSelection.value;
      AppendFolder(folderPath);
      StoreEntry(folderPath, e);
      histories := histories.Add(e);
      return SavedFolder(folderPath);
    }

    /** `remove_selected_folder`: drops the selected list entry, its folder and its metadata. */
    method RemoveSelectedFolder(selection: Option<nat>)
      requires Valid()
      requires selection.Some? ==> selection.value < |listbox|
      modifies this
      ensures Valid() && currentSelection == old(currentSelection) && histories == old(histories)
      ensures lastSource == old(lastSource) && lastFormat == old(lastFormat) && lastGenre == old(lastGenre)
      ensures selection.None? ==> savedFolders == old(savedFolders) && folderMetadata == old(folderMetadata)
      ensures selection.Some? ==>
                var idx := selection.value;
                var f := old(listbox)[idx];
                savedFolders == old(savedFolders)[..idx] + old(savedFolders)[idx + 1..] &&
                f !in savedFolders &&
                folderMetadata == old(folderMetadata) - {f}
    {
      if selection.None? {
        return;
      }
      var idx := selection.value;
      var folder := listbox[idx];
      if folder in savedFolders {
        savedFolders := savedFolders[..idx] + savedFolders[idx + 1..];
      }
      if folder in folderMetadata {
        folderMetadata := folderMetadata - {folder};
      }
      listbox := listbox[..idx] + listbox[idx + 1..];
      assert forall i :: 0 <= i < |savedFolders| ==> savedFolders[i] == old(savedFolders)[if i < idx then i else i + 1];
    }
  }

  // ---------------------------------------------------------------------
  // Destination naming in the processing thread
  // ---------------------------------------------------------------------

  /** The year directory: the text before the first "-" of the date, or "UnknownYear". */
  function DestinationYear(date: string): string
  {
    if date == "" then "UnknownYear" else Split(date, '-')[0]
  }

  lemma {:induction false} SplitFirstPart(s: string, c: char, acc: string)
    ensures var first := SplitFrom(s, c, acc)[0];
            StartsWith(first, acc) && c !in first[|acc|..] && StartsWith(acc + s, first) &&
            (|first| == |acc + s| || (acc + s)[|first|] == c)
    requires c !in acc
  {
    if |s| > 0 {
      if s[0] == c {
        assert (acc + s)[|acc|] == c;
      } else {
        SplitFirstPart(s[1..], c, acc + [s[0]]);
        assert acc + [s[0]] + s[1..] == acc + s;
      }
    } else {
      assert acc + s == acc;
    }
  }

  /** The year is the longest prefix of the date without "-". */
  lemma DestinationYearSpec(date: string)
    requires date != ""
    ensures var y := DestinationYear(date);
            StartsWith(date, y) && '-' !in y && (|y| == |date| || date[|y|] == '-')
  {
    SplitFirstPart(date, '-', "");
    assert "" + date == date;
  }

  /**
   * The year directory of a date saved from the walk-through window is its
   * zero-padded year, when the year is not negative.
   */
  lemma DestinationYearOfSavedDate(year: string, month: string, day: string)
    requires ComposeDate(year, month, day) != ""
    requires ParseInt(year).Some? && ParseInt(year).value >= 0
    ensures DestinationYear(ComposeDate(year, month, day)) == PadNat(ParseInt(year).value, 4)
  {
    var d := ComposeDate(year, month, day);
    var p := PadNat(ParseInt(year).value, 4);
    ComposeDateNeedsAll(year, month, day);
    PadValue(ParseInt(year).value, 4);
    DestinationYearSpec(d);
    var y := DestinationYear(d);
    assert d[..|p|] == p && d[|p|] == '-';
  }

  /** The bracketed tags: source, format and id, each only when non-empty. */
  function Tags(source: string, format: string, additional: string): seq<string>
  {
    (if source != "" then ["[" + source + "]"] else []) +
    (if format != "" then ["[" + format + "]"] else []) +
    (if additional != "" then ["[" + additional + "]"] else [])
  }

  /** The destination folder name: "date - venue[ - city]" and the tags after a space. */
  function DestinationName(date: string, venue: string, city: string, source: string, format: string,
                           additional: string): string
  {
    var parts := [date, venue] + (if city != "" then [city] else []);
    var tags := Tags(source, format, additional);
    Join(parts, " - ") + (if |tags| > 0 then " " + Join(tags, " ") else "")
  }

  /** One tag per non-empty value, each a non-empty bracketed text. */
  lemma TagsSpec(source: string, format: string, additional: string)
    ensures var tags := Tags(source, format, additional);
            |tags| == (if source != "" then 1 else 0) + (if format != "" then 1 else 0) + (if additional != "" then 1 else 0) &&
            forall t :: t in tags ==> |t| > 2 && t[0] == '[' && t[|t| - 1] == ']'
  {
  }

  lemma {:induction false} JoinLastChar(parts: seq<string>, sep: string)
    requires |parts| > 0 && |parts[|parts| - 1]| > 0
    ensures var j := Join(parts, sep); var last := parts[|parts| - 1];
            |j| > 0 && j[|j| - 1] == last[|last| - 1]
  {
    if |parts| > 1 {
      JoinLastChar(parts[1..], sep);
    }
  }

  /**
   * The name starts with "date - venue", has " - city" only for a non-empty
   * city, and is followed by a space and the tags, ending in "]", exactly
   * when some tag value is non-empty.
   */
  lemma DestinationNameSpec(date: string, venue: string, city: string, source: string, format: string,
                            additional: string)
    ensures var n := DestinationName(date, venue, city, source, format, additional);
            var base := date + " - " + venue + (if city != "" then " - " + city else "");
            StartsWith(n, base) &&
            (source == "" && format == "" && additional == "" ==> n == base) &&
            (source != "" || format != "" || additional != "" ==>
               |n| > |base| && n[|base|] == ' ' && n[|n| - 1] == ']')
  {
    var base := BaseName(date, venue, city);
    var n := DestinationName(date, venue, city, source, format, additional);
    if source != "" || format != "" || additional != "" {
      DestinationNameTagged(date, venue, city, source, format, additional);
    } else {
      DestinationNameUntagged(date, venue, city);
      assert n[..|base|] == base;
    }
  }

  /** "date - venue[ - city]". */
  function BaseName(date: string, venue: string, city: string): string
  {
    date + " - " + venue + (if city != "" then " - " + city else "")
  }

  /** With some tag value the base is followed by a space and ends in a tag. */
  lemma DestinationNameTagged(date: string, venue: string, city: string, source: string, format: string,
                              additional: string)
    requires source != "" || format != "" || additional != ""
    ensures var n := DestinationName(date, venue, city, source, format, additional);
            var base := BaseName(date, venue, city);
            StartsWith(n, base) && |n| > |base| && n[|base|] == ' ' && n[|n| - 1] == ']'
  {
    PartsJoin(date, venue, city);
    var tags := Tags(source, format, additional);
    TagsSpec(source, format, additional);
    TagsAfter(BaseName(date, venue, city), tags);
  }

  /** Without tag values the name is the base. */
  lemma DestinationNameUntagged(date: string, venue: string, city: string)
    ensures DestinationName(date, venue, city, "", "", "") == BaseName(date, venue, city)
  {
    PartsJoin(date, venue, city);
    assert Tags("", "", "") == [];
  }

  /** "date - venue", then " - city" for a non-empty city. */
  lemma PartsJoin(date: string, venue: string, city: string)
    ensures Join([date, venue] + (if city != "" then [city] else []), " - ") ==
            date + " - " + venue + (if city != "" then " - " + city else "")
  {
    var parts := [date, venue] + (if city != "" then [city] else []);
    if city != "" {
      assert parts[1..] == [venue, city];
      assert parts[1..][1..] == [city];
      assert Join(parts[1..], " - ") == venue + " - " + city;
    } else {
      assert parts[1..] == [venue];
    }
  }

  /** A space and at least one bracketed tag after the base. */
  lemma TagsAfter(base: string, tags: seq<string>)
    requires |tags| > 0 && forall t :: t in tags ==> |t| > 2 && t[|t| - 1] == ']'
    ensures var n := base + " " + Join(tags, " ");
            StartsWith(n, base) && |n| > |base| && n[|base|] == ' ' && n[|n| - 1] == ']'
  {
    assert tags[|tags| - 1] in tags;
    JoinLastChar(tags, " ");
    var n := base + " " + Join(tags, " ");
    assert n[..|base|] == base;
  }
}
