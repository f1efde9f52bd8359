/**
 * Folder-name inference (utils/match_folder.py).
 *
 * A folder name such as "Phish 1995-12-31 Madison Square Garden, New York, NY"
 * is turned into a ten-key metadata map.  The five anchored regular
 * expressions of the pattern table are abstract matchers: a `Matcher` gives
 * the named groups that took part in a match, or `None`.  The small fixed
 * expressions the helpers use are written out with Python's leftmost,
 * greedy-with-backtracking meaning.
 */
module FolderMatch {
  import opened Text
  import opened Dates

  /** The ten-key dictionary `match_folder` returns. */
  datatype Info = Info(artist: string, date: string, venue: string, city: string, id: string,
                       source: string, format: string, genre: string, additional: string, add: string)
  {
    /** `info[key]` for one of the ten keys. */
    function Get(key: string): string
    {
      if key == "artist" then artist else if key == "date" then date
      else if key == "venue" then venue else if key == "city" then city
      else if key == "id" then id else if key == "source" then source
      else if key == "format" then format else if key == "genre" then genre
      else if key == "additional" then additional else if key == "add" then add
      else ""
    }

    /** `info[key] = v` for one of the ten keys. */
    function Set(key: string, v: string): Info
    {
      if key == "artist" then this.(artist := v) else if key == "date" then this.(date := v)
      else if key == "venue" then this.(venue := v) else if key == "city" then this.(city := v)
      else if key == "id" then this.(id := v) else if key == "source" then this.(source := v)
      else if key == "format" then this.(format := v) else if key == "genre" then this.(genre := v)
      else if key == "additional" then this.(additional := v) else if key == "add" then this.(add := v)
      else this
    }
  }
  /** The named groups of one successful `rx.match(name)`. */
  type Groups = map<string, string>
  type Matcher = string -> Option<Groups>

  const InfoKeys: set<string> :=
    {"artist", "date", "venue", "city", "id", "source", "format", "genre", "additional", "add"}

  const KnownFormats: set<string> := {"FLAC24", "FLAC16", "FLAC", "MP3", "MP4", "WAV", "MKV", "MOV"}
  const KnownSources: set<string> := {"SBD", "AUD", "FM", "SOFT"}

  /**
   * One result of `sorted(KNOWN_FORMATS, key=len, reverse=True)`: the sort
   * is stable, so formats of equal length keep the set's iteration order,
   * which depends on string hashing. `LongestFirst` admits every such order.
   */
  const FormatsLongestFirst: seq<string> := ["FLAC24", "FLAC16", "FLAC", "MP3", "MP4", "WAV", "MKV", "MOV"]

  /** The group names each pattern of the table contributes, in table order. */
  const PatternGroups: seq<seq<string>> := [
    ["date", "venue", "city"],
    ["date", "venue", "city", "id"],
    ["artist", "date", "venue", "city", "id"],
    ["artist", "date", "venue", "city", "id"],
    ["artist", "date", "venue", "city", "format"]
  ]

  const StateAbbr: map<string, string> := map[
    "Alabama" := "AL", "Alaska" := "AK", "Arizona" := "AZ", "Arkansas" := "AR", "California" := "CA",
    "Colorado" := "CO", "Connecticut" := "CT", "Delaware" := "DE", "Florida" := "FL", "Georgia" := "GA",
    "Hawaii" := "HI", "Idaho" := "ID", "Illinois" := "IL", "Indiana" := "IN", "Iowa" := "IA",
    "Kansas" := "KS", "Kentucky" := "KY", "Louisiana" := "LA", "Maine" := "ME", "Maryland" := "MD",
    "Massachusetts" := "MA", "Michigan" := "MI", "Minnesota" := "MN", "Mississippi" := "MS",
    "Missouri" := "MO", "Montana" := "MT", "Nebraska" := "NE", "Nevada" := "NV", "New Hampshire" := "NH",
    "New Jersey" := "NJ", "New Mexico" := "NM", "New York" := "NY", "North Carolina" := "NC",
    "North Dakota" := "ND", "Ohio" := "OH", "Oklahoma" := "OK", "Oregon" := "OR", "Pennsylvania" := "PA",
    "Rhode Island" := "RI", "South Carolina" := "SC", "South Dakota" := "SD", "Tennessee" := "TN",
    "Texas" := "TX", "Utah" := "UT", "Vermont" := "VT", "Virginia" := "VA", "Washington" := "WA",
    "West Virginia" := "WV", "Wisconsin" := "WI", "Wyoming" := "WY"
  ]

  // ---------------------------------------------------------------------
  // Comma normalisation: re.sub(r",(\S)", r", \1", name)
  // ---------------------------------------------------------------------

  function NormalizeCommas(s: string): string
  {
    if |s| == 0 then ""
    else if |s| >= 2 && s[0] == ',' && !IsSpace(s[1]) then [',', ' ', s[1]] + NormalizeCommas(s[2..])
    else [s[0]] + NormalizeCommas(s[1..])
  }

  /** The text with its ' ' characters removed. */
  function WithoutSpaces(s: string): string
  {
    if |s| == 0 then "" else (if s[0] == ' ' then "" else [s[0]]) + WithoutSpaces(s[1..])
  }

  predicate NoDoubleComma(s: string)
  {
    forall i :: 0 <= i < |s| - 1 ==> !(s[i] == ',' && s[i + 1] == ',')
  }

  lemma NormalizeCommasFirst(s: string)
    requires |s| > 0
    ensures |NormalizeCommas(s)| > 0 && NormalizeCommas(s)[0] == s[0]
  {
  }

  /** Normalisation only inserts spaces: removing all spaces gives the same text. */
  lemma {:induction false} NormalizeCommasOnlyInsertsSpaces(s: string)
    ensures WithoutSpaces(NormalizeCommas(s)) == WithoutSpaces(s)
  {
    if |s| == 0 {
    } else if |s| >= 2 && s[0] == ',' && !IsSpace(s[1]) {
      NormalizeCommasOnlyInsertsSpaces(s[2..]);
      CommaStep(s);
    } else {
      NormalizeCommasOnlyInsertsSpaces(s[1..]);
      assert WithoutSpaces(NormalizeCommas(s)) == (if s[0] == ' ' then "" else [s[0]]) + WithoutSpaces(NormalizeCommas(s[1..]));
    }
  }

  /** The inserted space is the only difference a rewritten comma makes. */
  lemma CommaStep(s: string)
    requires |s| >= 2 && s[0] == ',' && !IsSpace(s[1])
    requires WithoutSpaces(NormalizeCommas(s[2..])) == WithoutSpaces(s[2..])
    ensures WithoutSpaces(NormalizeCommas(s)) == WithoutSpaces(s)
  {
    assert s[1] != ' ';
    var n := NormalizeCommas(s[2..]);
    var r := NormalizeCommas(s);
    assert r == [',', ' ', s[1]] + n;
    var u := r[1..][1..];
    assert u[0] == s[1] && u[1..] == n;
    assert WithoutSpaces(u) == [s[1]] + WithoutSpaces(n);
    assert WithoutSpaces(r[1..]) == WithoutSpaces(u);
    assert WithoutSpaces(r) == [','] + WithoutSpaces(u);
    var t := s[1..];
    assert t[0] == s[1] && t[1..] == s[2..];
    assert WithoutSpaces(t) == [s[1]] + WithoutSpaces(s[2..]);
  }

  lemma {:induction false} WithoutSpacesAppend(a: string, b: string)
    ensures WithoutSpaces(a + b) == WithoutSpaces(a) + WithoutSpaces(b)
  {
    if |a| > 0 {
      assert (a + b)[1..] == a[1..] + b;
      WithoutSpacesAppend(a[1..], b);
    } else {
      assert a + b == b;
    }
  }

  /**
   * Where no two commas are adjacent, every comma of the normalised name is
   * followed by whitespace (or ends the name).
   */
  lemma {:induction false} NormalizeCommasSpaced(s: string)
    requires NoDoubleComma(s)
    ensures forall i :: 0 <= i < |NormalizeCommas(s)| - 1 && NormalizeCommas(s)[i] == ',' ==>
              IsSpace(NormalizeCommas(s)[i + 1])
  {
    var r := NormalizeCommas(s);
    if |s| == 0 {
    } else if |s| >= 2 && s[0] == ',' && !IsSpace(s[1]) {
      var t := NormalizeCommas(s[2..]);
      assert NoDoubleComma(s[2..]) by {
        forall i | 0 <= i < |s[2..]| - 1 ensures !(s[2..][i] == ',' && s[2..][i + 1] == ',') {
          assert s[2..][i] == s[i + 2] && s[2..][i + 1] == s[i + 3];
        }
      }
      NormalizeCommasSpaced(s[2..]);
      assert r == [',', ' ', s[1]] + t;
      forall i | 0 <= i < |r| - 1 && r[i] == ',' ensures IsSpace(r[i + 1]) {
        if i > 2 {
          assert r[i] == t[i - 3] && r[i + 1] == t[i - 2];
        }
      }
    } else {
      var t := NormalizeCommas(s[1..]);
      assert NoDoubleComma(s[1..]) by {
        forall i | 0 <= i < |s[1..]| - 1 ensures !(s[1..][i] == ',' && s[1..][i + 1] == ',') {
          assert s[1..][i] == s[i + 1] && s[1..][i + 1] == s[i + 2];
        }
      }
      NormalizeCommasSpaced(s[1..]);
      assert r == [s[0]] + t;
      forall i | 0 <= i < |r| - 1 && r[i] == ',' ensures IsSpace(r[i + 1]) {
        if i == 0 {
          NormalizeCommasFirst(s[1..]);
        } else {
          assert r[i] == t[i - 1] && r[i + 1] == t[i];
        }
      }
    }
  }

  // ---------------------------------------------------------------------
  // The pattern table: first match wins
  // ---------------------------------------------------------------------

  /** `(m.group(g) or "")`. */
  function Group(m: Groups, g: string): string
  {
    if g in m then m[g] else ""
  }

  /** The index and groups of the first matcher that accepts `name`. */
  function FirstMatch(rxs: seq<Matcher>, name: string, from: nat): (r: Option<(nat, Groups)>)
    ensures r.Some? ==> from <= r.value.0 < |rxs| && rxs[r.value.0](name) == Some(r.value.1)
    decreases |rxs| - from
  {
    if from >= |rxs| then None
    else if rxs[from](name).Some? then Some((from, rxs[from](name).value))
    else FirstMatch(rxs, name, from + 1)
  }

  /** The first accepting matcher is the one reported, and none before it accepts. */
  lemma {:induction false} FirstMatchWins(rxs: seq<Matcher>, name: string, from: nat)
    ensures FirstMatch(rxs, name, from).None? <==>
              forall j :: from <= j < |rxs| ==> rxs[j](name).None?
    ensures FirstMatch(rxs, name, from).Some? ==>
              forall j :: from <= j < FirstMatch(rxs, name, from).value.0 ==> rxs[j](name).None?
    decreases |rxs| - from
  {
    if from < |rxs| && rxs[from](name).None? {
      FirstMatchWins(rxs, name, from + 1);
    }
  }

  /** Each listed group gets its stripped capture, "" when it did not take part. */
  function Fill(info: Info, groups: seq<string>, m: Groups): Info
    decreases |groups|
  {
    if |groups| == 0 then info else Fill(info.Set(groups[0], Strip(Group(m, groups[0]))), groups[1..], m)
  }

  function EmptyInfo(): Info
  {
    Info("", "", "", "", "", "", "", "", "", "")
  }

  lemma SetGet(info: Info, key: string, v: string, k: string)
    requires key in InfoKeys
    ensures info.Set(key, v).Get(k) == if k == key then v else info.Get(k)
  {
    if k == key {
      SetGetSame(info, key, v);
    } else {
      SetGetOther(info, key, v, k);
    }
  }

  lemma SetGetSame(info: Info, key: string, v: string)
    requires key in InfoKeys
    ensures info.Set(key, v).Get(key) == v
  {
  }

  lemma SetGetOther(info: Info, key: string, v: string, k: string)
    requires key in InfoKeys && k != key
    ensures info.Set(key, v).Get(k) == info.Get(k)
  {
    var r := info.Set(key, v);
    if key == "artist" { assert r == info.(artist := v); }
    else if key == "date" { assert r == info.(date := v); }
    else if key == "venue" { assert r == info.(venue := v); }
    else if key == "city" { assert r == info.(city := v); }
    else if key == "id" { assert r == info.(id := v); }
    else if key == "source" { assert r == info.(source := v); }
    else if key == "format" { assert r == info.(format := v); }
    else if key == "genre" { assert r == info.(genre := v); }
    else if key == "additional" { assert r == info.(additional := v); }
    else { assert r == info.(add := v); }
  }

  /** Filling sets exactly the listed keys to their stripped captures. */
  lemma {:induction false} FillSpec(info: Info, groups: seq<string>, m: Groups, k: string)
    requires forall g :: g in groups ==> g in InfoKeys
    ensures Fill(info, groups, m).Get(k) == if k in groups then Strip(Group(m, k)) else info.Get(k)
    decreases |groups|
  {
    if |groups| > 0 {
      var next := info.Set(groups[0], Strip(Group(m, groups[0])));
      FillSpec(next, groups[1..], m, k);
      SetGet(info, groups[0], Strip(Group(m, groups[0])), k);
      assert k in groups <==> k == groups[0] || k in groups[1..];
    }
  }

  /** The info map after the pattern loop. */
  function PatternInfo(name: string, rxs: seq<Matcher>): Info
    requires |rxs| == |PatternGroups|
  {
    var hit := FirstMatch(rxs, name, 0);
    if hit.None? then EmptyInfo() else Fill(EmptyInfo(), PatternGroups[hit.value.0], hit.value.1)
  }

  // ---------------------------------------------------------------------
  // extract_date: DATE_RX = (\d{2,4})-(\d{2})-(\d{2})
  // ---------------------------------------------------------------------

  function DigitRunEnd(s: string, i: nat): (e: nat)
    requires i <= |s|
    ensures i <= e <= |s| && AllDigits(s[i..e]) && (e == |s| || !IsDigit(s[e]))
    decreases |s| - i
  {
    if i < |s| && IsDigit(s[i]) then DigitRunEnd(s, i + 1) else i
  }

  /** The groups of a DATE_RX match starting exactly at `p`. */
  function DateAt(s: string, p: nat): (r: Option<(string, string, string)>)
    requires p <= |s|
    ensures r.Some? ==> AllDigits(r.value.0) && 2 <= |r.value.0| <= 4 &&
                        AllDigits(r.value.1) && |r.value.1| == 2 && AllDigits(r.value.2) && |r.value.2| == 2
  {
    var e := DigitRunEnd(s, p);
    if 2 <= e - p <= 4 && e + 6 <= |s| && s[e] == '-' && IsDigit(s[e + 1]) && IsDigit(s[e + 2])
       && s[e + 3] == '-' && IsDigit(s[e + 4]) && IsDigit(s[e + 5])
    then Some((s[p..e], s[e + 1..e + 3], s[e + 4..e + 6]))
    else None
  }

  /** `DATE_RX.search(s)`, trying start positions from `p` on. */
  function SearchDate(s: string, p: nat): (r: Option<(string, string, string)>)
    requires p <= |s|
    ensures r.Some? ==> AllDigits(r.value.0) && 2 <= |r.value.0| <= 4 &&
                        AllDigits(r.value.1) && |r.value.1| == 2 && AllDigits(r.value.2) && |r.value.2| == 2
    decreases |s| - p
  {
    if DateAt(s, p).Some? then DateAt(s, p) else if p == |s| then None else SearchDate(s, p + 1)
  }

  /** A two-digit year pivots at 50: 19YY above it, 20YY otherwise. */
  function ExpandYear(y: string): nat
    requires AllDigits(y)
  {
    if |y| == 2 then (if DigitsValue(y) > 50 then 1900 + DigitsValue(y) else 2000 + DigitsValue(y))
    else DigitsValue(y)
  }

  function ExtractDate(s: string): string
  {
    match SearchDate(s, 0)
    case None => ""
    case Some((y, m, d)) =>
      var yr, mo, dd := ExpandYear(y), DigitsValue(m), DigitsValue(d);
      if ValidDate(yr, mo, dd) then IsoFormat(Date(yr, mo, dd)) else ""
  }

  lemma TwoDigitValue(y: string)
    requires |y| == 2 && AllDigits(y)
    ensures DigitsValue(y) < 100
  {
    assert y[..1][..0] == [];
    assert DigitsValue(y[..1]) == DigitValue(y[0]);
  }

  lemma ExpandYearPivot(y: string)
    requires |y| == 2 && AllDigits(y)
    ensures 1951 <= ExpandYear(y) <= 2050
    ensures ExpandYear(y) % 100 == DigitsValue(y)
  {
    TwoDigitValue(y);
  }

  /** `extract_date` never raises: it yields "" or a real date in YYYY-MM-DD form. */
  lemma ExtractDateShape(s: string)
    ensures ExtractDate(s) == "" ||
            exists d: Date :: d.Valid() && ExtractDate(s) == IsoFormat(d)
  {
  }

  /** Extracting the date from a formatted date gives it back. */
  lemma ExtractDateRoundTrip(d: Date)
    requires d.Valid()
    ensures ExtractDate(IsoFormat(d)) == IsoFormat(d)
  {
    IsoDateFound(d);
    PadFour(d.year);
    PadValue(d.year, 4);
    PadValue(d.month, 2);
    PadValue(d.day, 2);
    assert ExpandYear(PadNat(d.year, 4)) == d.year;
  }

  /** The search finds a formatted date at its start, with its three padded fields as groups. */
  lemma IsoDateFound(d: Date)
    requires d.Valid()
    ensures SearchDate(IsoFormat(d), 0) == Some((PadNat(d.year, 4), PadNat(d.month, 2), PadNat(d.day, 2)))
  {
    var s := IsoFormat(d);
    PadFour(d.year);
    PadTwo(d.month);
    PadTwo(d.day);
    assert s[..4] == PadNat(d.year, 4);
    assert s[5..7] == PadNat(d.month, 2);
    assert s[8..10] == PadNat(d.day, 2);
    assert DigitRunEnd(s, 4) == 4;
    assert DigitRunEnd(s, 3) == 4;
    assert DigitRunEnd(s, 2) == 4;
    assert DigitRunEnd(s, 1) == 4;
    assert DigitRunEnd(s, 0) == 4;
    assert DateAt(s, 0) == Some((s[..4], s[5..7], s[8..10]));
  }

  // ---------------------------------------------------------------------
  // Substring lookups against known lists
  // ---------------------------------------------------------------------

  predicate IsCandidate(name: string, v: string)
  {
    ContainsCI(name, v)
  }

  /** `max(candidates, key=len)`: the earliest entry of maximal length. */
  function LongestCandidate(name: string, list: seq<string>): Option<string>
  {
    if |list| == 0 then None
    else
      var rest := LongestCandidate(name, list[1..]);
      if IsCandidate(name, list[0]) && (rest.None? || |list[0]| >= |rest.value|) then Some(list[0])
      else rest
  }

  function FindBestMatchInName(name: string, list: seq<string>): Option<string>
  {
    if name == "" || |list| == 0 then None else LongestCandidate(name, list)
  }

  /** Entry `i` is a candidate, no candidate is longer, and every earlier candidate is shorter. */
  predicate LongestAt(name: string, list: seq<string>, i: nat)
  {
    i < |list| && IsCandidate(name, list[i]) &&
    (forall j :: 0 <= j < |list| && IsCandidate(name, list[j]) ==> |list[j]| <= |list[i]|) &&
    (forall j :: 0 <= j < i && IsCandidate(name, list[j]) ==> |list[j]| < |list[i]|)
  }

  /** The head wins when it is a candidate at least as long as the tail's winner. */
  lemma LongestHead(name: string, list: seq<string>, rest: Option<string>)
    requires |list| > 0 && IsCandidate(name, list[0])
    requires rest.None? ==> forall j :: 0 <= j < |list[1..]| ==> !IsCandidate(name, list[1..][j])
    requires rest.Some? ==> |list[0]| >= |rest.value| && exists i: nat :: LongestAt(name, list[1..], i) && list[1..][i] == rest.value
    ensures LongestAt(name, list, 0)
  {
    var tail := list[1..];
    forall j | 0 <= j < |list| && IsCandidate(name, list[j]) ensures |list[j]| <= |list[0]| {
      if j > 0 {
        assert tail[j - 1] == list[j];
        if rest.Some? {
          var i: nat :| LongestAt(name, tail, i) && tail[i] == rest.value;
        }
      }
    }
  }

  /** Otherwise the tail's winner wins, one position further on. */
  lemma LongestTail(name: string, list: seq<string>, i: nat)
    requires |list| > 0 && LongestAt(name, list[1..], i)
    requires IsCandidate(name, list[0]) ==> |list[0]| < |list[1..][i]|
    ensures LongestAt(name, list, i + 1)
  {
    var tail := list[1..];
    assert list[i + 1] == tail[i];
    forall j | 0 <= j < |list| && IsCandidate(name, list[j]) ensures |list[j]| <= |list[i + 1]| {
      if j > 0 {
        assert tail[j - 1] == list[j];
      }
    }
    forall j | 0 <= j < i + 1 && IsCandidate(name, list[j]) ensures |list[j]| < |list[i + 1]| {
      if j > 0 {
        assert tail[j - 1] == list[j];
      }
    }
  }

  lemma {:induction false} LongestCandidateSpec(name: string, list: seq<string>)
    ensures LongestCandidate(name, list).None? <==> forall j :: 0 <= j < |list| ==> !IsCandidate(name, list[j])
    ensures LongestCandidate(name, list).Some? ==>
              exists i: nat :: LongestAt(name, list, i) && list[i] == LongestCandidate(name, list).value
  {
    if |list| > 0 {
      var tail := list[1..];
      LongestCandidateSpec(name, tail);
      var rest := LongestCandidate(name, tail);
      if IsCandidate(name, list[0]) && (rest.None? || |list[0]| >= |rest.value|) {
        LongestHead(name, list, rest);
      } else if rest.Some? {
        var i: nat :| LongestAt(name, tail, i) && tail[i] == rest.value;
        LongestTail(name, list, i);
        assert list[i + 1] == rest.value;
      } else {
        forall j | 0 <= j < |list| ensures !IsCandidate(name, list[j]) {
          if j > 0 {
            assert tail[j - 1] == list[j];
          }
        }
      }
    }
  }

  /**
   * `find_best_match_in_name`: nothing for an empty name, an empty list or no
   * hit; otherwise the earliest entry of maximal length among the entries
   * contained in the name ignoring case.
   */
  lemma FindBestMatchSpec(name: string, list: seq<string>)
    ensures FindBestMatchInName(name, list).None? <==>
              name == "" || forall j :: 0 <= j < |list| ==> !IsCandidate(name, list[j])
    ensures FindBestMatchInName(name, list).Some? ==>
              exists i :: 0 <= i < |list| && list[i] == FindBestMatchInName(name, list).value &&
                IsCandidate(name, list[i]) &&
                (forall j :: 0 <= j < |list| && IsCandidate(name, list[j]) ==> |list[j]| <= |list[i]|) &&
                (forall j :: 0 <= j < i && IsCandidate(name, list[j]) ==> |list[j]| < |list[i]|)
  {
    LongestCandidateSpec(name, list);
    if FindBestMatchInName(name, list).Some? {
      var i: nat :| LongestAt(name, list, i) && list[i] == LongestCandidate(name, list).value;
    }
  }

  /** `find_normalized_value_exact`: the first entry equal to `value` ignoring case. */
  function FindNormalizedValueExact(value: string, list: seq<string>): Option<string>
  {
    if value == "" || |list| == 0 then None else FirstEqualCI(value, list)
  }

  function FirstEqualCI(value: string, list: seq<string>): Option<string>
  {
    if |list| == 0 then None
    else if EqualsCI(list[0], value) then Some(list[0])
    else FirstEqualCI(value, list[1..])
  }

  lemma {:induction false} FirstEqualCISpec(value: string, list: seq<string>)
    ensures FirstEqualCI(value, list).None? <==> forall j :: 0 <= j < |list| ==> !EqualsCI(list[j], value)
    ensures FirstEqualCI(value, list).Some? ==>
              exists i :: 0 <= i < |list| && list[i] == FirstEqualCI(value, list).value &&
                EqualsCI(list[i], value) && forall j :: 0 <= j < i ==> !EqualsCI(list[j], value)
  {
    if |list| > 0 && !EqualsCI(list[0], value) {
      FirstEqualCISpec(value, list[1..]);
      if FirstEqualCI(value, list[1..]).Some? {
        var i :| 0 <= i < |list[1..]| && list[1..][i] == FirstEqualCI(value, list).value &&
                 EqualsCI(list[1..][i], value) && forall j :: 0 <= j < i ==> !EqualsCI(list[1..][j], value);
        assert list[i + 1] == list[1..][i];
        forall j | 0 <= j < i + 1 ensures !EqualsCI(list[j], value) {
          if j > 0 {
            assert list[j] == list[1..][j - 1];
          }
        }
      } else {
        forall j | 0 <= j < |list| ensures !EqualsCI(list[j], value) {
          if j > 0 {
            assert list[j] == list[1..][j - 1];
          }
        }
      }
    }
  }

  lemma FindNormalizedValueExactSpec(value: string, list: seq<string>)
    ensures FindNormalizedValueExact(value, list).None? <==>
              value == "" || forall j :: 0 <= j < |list| ==> !EqualsCI(list[j], value)
    ensures FindNormalizedValueExact(value, list).Some? ==>
              exists i :: 0 <= i < |list| && list[i] == FindNormalizedValueExact(value, list).value &&
                EqualsCI(list[i], value) && forall j :: 0 <= j < i ==> !EqualsCI(list[j], value)
  {
    FirstEqualCISpec(value, list);
  }

  /** `re.sub(re.escape(p), '', s, flags=re.IGNORECASE)` for a non-empty `p`. */
  function RemoveAllCI(s: string, p: string): string
    requires |p| > 0
  {
    if |s| < |p| then s
    else if EqualsCI(s[..|p|], p) then RemoveAllCI(s[|p|..], p)
    else [s[0]] + RemoveAllCI(s[1..], p)
  }

  /** Removal never lengthens the text, and changes nothing unless `p` occurs in it ignoring case. */
  lemma {:induction false} RemoveAllCIShorter(s: string, p: string)
    requires |p| > 0
    ensures |RemoveAllCI(s, p)| <= |s|
    ensures Contains(Lower(s), Lower(p)) || RemoveAllCI(s, p) == s
  {
    if |s| >= |p| {
      if EqualsCI(s[..|p|], p) {
        RemoveAllCIShorter(s[|p|..], p);
        assert Lower(s)[0..0 + |Lower(p)|] == Lower(s[..|p|]);
        ContainsAt(Lower(s), Lower(p), 0);
      } else {
        RemoveAllCIShorter(s[1..], p);
        ContainsCITail(s, p);
      }
    }
  }

  /** An occurrence after the first character is an occurrence in the whole text. */
  lemma ContainsCITail(s: string, p: string)
    requires |s| > 0
    ensures Contains(Lower(s[1..]), Lower(p)) ==> Contains(Lower(s), Lower(p))
  {
    if Contains(Lower(s[1..]), Lower(p)) {
      var t := Lower(s[1..]);
      var i :| 0 <= i <= |t| - |Lower(p)| && OccursAt(t, Lower(p), i);
      assert Lower(s)[i + 1..i + 1 + |Lower(p)|] == t[i..i + |Lower(p)|];
      ContainsAt(Lower(s), Lower(p), i + 1);
    }
  }

  // ---------------------------------------------------------------------
  // Bracket tokens and extract_id
  // ---------------------------------------------------------------------

  /** Index of the first ']' at or after `i`, or |s|. */
  function NextClose(s: string, i: nat): (e: nat)
    requires i <= |s|
    ensures i <= e <= |s| && (e < |s| ==> s[e] == ']')
    ensures forall k :: i <= k < e ==> s[k] != ']'
    decreases |s| - i
  {
    if i == |s| || s[i] == ']' then i else NextClose(s, i + 1)
  }

  /** `re.findall(r"\[([^\]]+)\]", s)` from index `i`. */
  function BracketTokensFrom(s: string, i: nat): seq<string>
    requires i <= |s|
    decreases |s| - i
  {
    if i == |s| then []
    else if s[i] == '[' && NextClose(s, i + 1) < |s| && NextClose(s, i + 1) > i + 1 then
      [s[i + 1..NextClose(s, i + 1)]] + BracketTokensFrom(s, NextClose(s, i + 1) + 1)
    else BracketTokensFrom(s, i + 1)
  }

  function BracketTokens(s: string): seq<string>
  {
    BracketTokensFrom(s, 0)
  }

  /** Every bracket token is non-empty and holds no ']'. */
  lemma {:induction false} BracketTokensShape(s: string, i: nat)
    requires i <= |s|
    ensures forall t :: t in BracketTokensFrom(s, i) ==> |t| > 0 && ']' !in t
    decreases |s| - i
  {
    if i < |s| {
      if s[i] == '[' && NextClose(s, i + 1) < |s| && NextClose(s, i + 1) > i + 1 {
        var e := NextClose(s, i + 1);
        BracketTokensShape(s, e + 1);
        NoCloseBetween(s, i + 1, e);
      } else {
        BracketTokensShape(s, i + 1);
      }
    }
  }

  /** The text before the next ']' holds none. */
  lemma NoCloseBetween(s: string, i: nat, e: nat)
    requires i <= e <= |s| && e == NextClose(s, i)
    ensures ']' !in s[i..e]
  {
    var t := s[i..e];
    forall k | 0 <= k < |t| ensures t[k] != ']' {
      assert t[k] == s[i + k];
    }
  }

  /** Where the `$` of a pattern can match: the end, or before a final newline. */
  function EndAnchor(s: string): nat
  {
    if |s| > 0 && s[|s| - 1] == '\n' then |s| - 1 else |s|
  }

  /** A `\[([^\]]+)\]$` match can start at `p`. */
  predicate TrailingBracketAt(s: string, p: nat)
    requires p <= |s|
  {
    p < |s| && s[p] == '[' && NextClose(s, p + 1) > p + 1 && NextClose(s, p + 1) < |s| &&
    (NextClose(s, p + 1) + 1 == |s| || (NextClose(s, p + 1) + 1 == EndAnchor(s)))
  }

  /** `re.search(r'\[([^\]]+)\]$', s).group(1)`, searching from `p`. */
  function TrailingBracket(s: string, p: nat): Option<string>
    requires p <= |s|
    decreases |s| - p
  {
    if p == |s| then None
    else if TrailingBracketAt(s, p) then Some(s[p + 1..NextClose(s, p + 1)])
    else TrailingBracket(s, p + 1)
  }

  /**
   * The trailing bracket group is the last thing in the name (before an
   * optional final newline), is non-empty and holds no ']'.
   */
  lemma {:induction false} TrailingBracketShape(s: string, p: nat)
    requires p <= |s|
    ensures TrailingBracket(s, p).Some? ==>
              var v := TrailingBracket(s, p).value;
              |v| > 0 && ']' !in v &&
              (EndsWith(s, "[" + v + "]") || EndsWith(s, "[" + v + "]\n"))
    decreases |s| - p
  {
    if p < |s| {
      if TrailingBracketAt(s, p) {
        TrailingHitShape(s, p);
      } else {
        TrailingBracketShape(s, p + 1);
      }
    }
  }

  /** A trailing group found at `p` has the shape `TrailingBracketShape` promises. */
  lemma TrailingHitShape(s: string, p: nat)
    requires p <= |s| && TrailingBracketAt(s, p)
    ensures var v := s[p + 1..NextClose(s, p + 1)];
            |v| > 0 && ']' !in v && (EndsWith(s, "[" + v + "]") || EndsWith(s, "[" + v + "]\n"))
  {
    var e := NextClose(s, p + 1);
    NoCloseBetween(s, p + 1, e);
    GroupEndsText(s, p, e);
  }

  /** A group `[..]` from `p` to `e` that ends the text, or ends it before a final newline. */
  lemma GroupEndsText(s: string, p: nat, e: nat)
    requires p < e < |s| && s[p] == '[' && s[e] == ']'
    requires e + 1 == |s| || e + 1 == EndAnchor(s)
    ensures var v := s[p + 1..e];
            EndsWith(s, "[" + v + "]") || EndsWith(s, "[" + v + "]\n")
  {
    var v := s[p + 1..e];
    var w := "[" + v + "]";
    assert s[p..e + 1] == w;
    if e + 1 == |s| {
      assert s[|s| - |w|..] == w;
    } else {
      assert s[e + 1..] == "\n";
      assert s[|s| - |w + "\n"|..] == s[p..e + 1] + s[e + 1..];
    }
  }

  /** `extract_id`: the trailing bracket group unless it names a known source or format. */
  function ExtractId(s: string): string
  {
    match TrailingBracket(s, 0)
    case Some(v) => if Upper(v) !in KnownSources + KnownFormats then v else ""
    case None => ""
  }

  /** The first bracket token whose upper-case form is in `known`. */
  function FirstKnown(tokens: seq<string>, known: set<string>): (r: Option<string>)
    ensures r.Some? ==> r.value in tokens && Upper(r.value) in known
  {
    if |tokens| == 0 then None
    else if Upper(tokens[0]) in known then Some(tokens[0])
    else FirstKnown(tokens[1..], known)
  }

  lemma {:induction false} FirstKnownSpec(tokens: seq<string>, known: set<string>)
    ensures FirstKnown(tokens, known).None? <==> forall j :: 0 <= j < |tokens| ==> Upper(tokens[j]) !in known
    ensures FirstKnown(tokens, known).Some? ==>
              exists i :: 0 <= i < |tokens| && tokens[i] == FirstKnown(tokens, known).value &&
                Upper(tokens[i]) in known && forall j :: 0 <= j < i ==> Upper(tokens[j]) !in known
  {
    if |tokens| > 0 && Upper(tokens[0]) !in known {
      FirstKnownSpec(tokens[1..], known);
      if FirstKnown(tokens[1..], known).Some? {
        var i :| 0 <= i < |tokens[1..]| && tokens[1..][i] == FirstKnown(tokens, known).value &&
                 Upper(tokens[1..][i]) in known && forall j :: 0 <= j < i ==> Upper(tokens[1..][j]) !in known;
        assert tokens[i + 1] == tokens[1..][i];
        forall j | 0 <= j < i + 1 ensures Upper(tokens[j]) !in known {
          if j > 0 {
            assert tokens[j] == tokens[1..][j - 1];
          }
        }
      } else {
        forall j | 0 <= j < |tokens| ensures Upper(tokens[j]) !in known {
          if j > 0 {
            assert tokens[j] == tokens[1..][j - 1];
          }
        }
      }
    }
  }

  // ---------------------------------------------------------------------
  // Format fallback on the \w+ tokens of the upper-cased name
  // ---------------------------------------------------------------------

  function WordRunEnd(s: string, i: nat): (e: nat)
    requires i <= |s|
    ensures i <= e <= |s|
    ensures i < |s| && IsWordChar(s[i]) ==> e > i
    decreases |s| - i
  {
    if i < |s| && IsWordChar(s[i]) then WordRunEnd(s, i + 1) else i
  }

  /** `re.findall(r'\w+', s)` from index `i`. */
  function WordTokensFrom(s: string, i: nat): seq<string>
    requires i <= |s|
    decreases |s| - i
  {
    if i == |s| then []
    else if !IsWordChar(s[i]) then WordTokensFrom(s, i + 1)
    else [s[i..WordRunEnd(s, i)]] + WordTokensFrom(s, WordRunEnd(s, i))
  }

  function WordTokens(s: string): seq<string>
  {
    WordTokensFrom(s, 0)
  }

  /** `any(token.startswith(fmt) for token in tokens)`. */
  predicate AnyStartsWith(tokens: seq<string>, fmt: string)
  {
    exists t :: t in tokens && StartsWith(t, fmt)
  }

  /** The first format, in the given order, that prefixes some token. */
  function FirstPrefixFormat(tokens: seq<string>, order: seq<string>): Option<string>
  {
    if |order| == 0 then None
    else if AnyStartsWith(tokens, order[0]) then Some(order[0])
    else FirstPrefixFormat(tokens, order[1..])
  }

  predicate LengthNonIncreasing(order: seq<string>)
  {
    forall i, j :: 0 <= i < j < |order| ==> |order[i]| >= |order[j]|
  }

  /** The set iteration order visits every known format once. */
  predicate EnumeratesKnownFormats(order: seq<string>)
  {
    |order| == |KnownFormats| && (forall f :: f in order ==> f in KnownFormats) &&
    (forall f :: f in KnownFormats ==> f in order)
  }

  /** A possible result of `sorted(KNOWN_FORMATS, key=len, reverse=True)`. */
  predicate LongestFirst(order: seq<string>)
  {
    EnumeratesKnownFormats(order) && LengthNonIncreasing(order)
  }

  lemma {:induction false} FirstPrefixFormatSpec(tokens: seq<string>, order: seq<string>)
    ensures FirstPrefixFormat(tokens, order).None? <==> forall f :: f in order ==> !AnyStartsWith(tokens, f)
    ensures FirstPrefixFormat(tokens, order).Some? ==>
              var f := FirstPrefixFormat(tokens, order).value;
              f in order && AnyStartsWith(tokens, f) &&
              (LengthNonIncreasing(order) ==>
                 forall g :: g in order && |g| > |f| ==> !AnyStartsWith(tokens, g))
  {
    if |order| > 0 {
      FirstPrefixFormatSpec(tokens, order[1..]);
      assert forall g :: g in order <==> g == order[0] || g in order[1..];
      if AnyStartsWith(tokens, order[0]) {
        if LengthNonIncreasing(order) {
          forall g | g in order && |g| > |order[0]| ensures !AnyStartsWith(tokens, g) {
            var j :| 0 <= j < |order| && order[j] == g;
          }
        }
      } else if FirstPrefixFormat(tokens, order[1..]).Some? && LengthNonIncreasing(order) {
        assert LengthNonIncreasing(order[1..]) by {
          forall i, j | 0 <= i < j < |order[1..]| ensures |order[1..][i]| >= |order[1..][j]| {
            assert order[1..][i] == order[i + 1] && order[1..][j] == order[j + 1];
          }
        }
      }
    }
  }

  /**
   * The fallback picks a known format that prefixes some word of the
   * upper-cased name, and no strictly longer known format does.
   */
  lemma FormatFallbackLongest(tokens: seq<string>, order: seq<string>)
    requires LongestFirst(order)
    ensures FirstPrefixFormat(tokens, order).None? <==>
              forall f :: f in KnownFormats ==> !AnyStartsWith(tokens, f)
    ensures FirstPrefixFormat(tokens, order).Some? ==>
              var f := FirstPrefixFormat(tokens, order).value;
              f in KnownFormats && AnyStartsWith(tokens, f) &&
              forall g :: g in KnownFormats && |g| > |f| ==> !AnyStartsWith(tokens, g)
  {
    FirstPrefixFormatSpec(tokens, order);
  }

  /** `FormatsLongestFirst` is one of the orders the sort can produce. */
  lemma LongestFirstOrdered()
    ensures LongestFirst(FormatsLongestFirst)
  {
    var f := FormatsLongestFirst;
    assert |f[0]| == 6 && |f[1]| == 6 && |f[2]| == 4;
    assert |f[3]| == 3 && |f[4]| == 3 && |f[5]| == 3 && |f[6]| == 3 && |f[7]| == 3;
    forall i, j | 0 <= i < j < |f| ensures |f[i]| >= |f[j]| {
      assert |f[j]| <= 4 || j == 1;
    }
  }

  // ---------------------------------------------------------------------
  // The "additional" text
  // ---------------------------------------------------------------------

  /** A `%token%` placeholder left in a bracket. */
  predicate IsPlaceholder(t: string)
  {
    StartsWith(Strip(t), "%") && EndsWith(Strip(t), "%")
  }

  /** The bracket tokens kept for `additional`, in order. */
  function AdditionalTokens(tokens: seq<string>, fmt: Option<string>, src: Option<string>): seq<string>
  {
    if |tokens| == 0 then []
    else
      var t := tokens[0];
      var keep := (fmt.None? || t != fmt.value) && (src.None? || t != src.value) && !IsPlaceholder(t);
      (if keep then [t] else []) + AdditionalTokens(tokens[1..], fmt, src)
  }

  lemma {:induction false} AdditionalTokensSpec(tokens: seq<string>, fmt: Option<string>, src: Option<string>)
    ensures forall t :: t in AdditionalTokens(tokens, fmt, src) <==>
              t in tokens && (fmt.None? || t != fmt.value) && (src.None? || t != src.value) && !IsPlaceholder(t)
  {
    if |tokens| > 0 {
      AdditionalTokensSpec(tokens[1..], fmt, src);
      assert forall t :: t in tokens <==> t == tokens[0] || t in tokens[1..];
    }
  }

  function OrElse(a: string, b: string): string
  {
    if a != "" then a else b
  }

  // ---------------------------------------------------------------------
  // extract_city: CITY_STATE_RE = ([A-Za-z.\s]+)[,\s]+([A-Za-z]{2,})
  // ---------------------------------------------------------------------

  predicate IsCityChar(c: char) { IsAlpha(c) || c == '.' || IsSpace(c) }
  predicate IsSepChar(c: char) { c == ',' || IsSpace(c) }

  function CityRunEnd(s: string, i: nat): (e: nat)
    requires i <= |s|
    ensures i <= e <= |s| && forall k :: i <= k < e ==> IsCityChar(s[k])
    decreases |s| - i
  {
    if i < |s| && IsCityChar(s[i]) then CityRunEnd(s, i + 1) else i
  }

  function SepRunEnd(s: string, i: nat): (e: nat)
    requires i <= |s|
    ensures i <= e <= |s| && forall k :: i <= k < e ==> IsSepChar(s[k])
    decreases |s| - i
  {
    if i < |s| && IsSepChar(s[i]) then SepRunEnd(s, i + 1) else i
  }

  function AlphaRunEnd(s: string, i: nat): (e: nat)
    requires i <= |s|
    ensures i <= e <= |s| && forall k :: i <= k < e ==> IsAlpha(s[k])
    ensures e == |s| || !IsAlpha(s[e])
    decreases |s| - i
  {
    if i < |s| && IsAlpha(s[i]) then AlphaRunEnd(s, i + 1) else i
  }

  /** `[,\s]+([A-Za-z]{2,})` matched at `q` (greedy, so the separator run is maximal). */
  function StateAt(s: string, q: nat): (r: Option<string>)
    requires q <= |s|
    ensures r.Some? ==> |r.value| >= 2 && forall k :: 0 <= k < |r.value| ==> IsAlpha(r.value[k])
  {
    var b := SepRunEnd(s, q);
    var e := AlphaRunEnd(s, b);
    if b > q && e - b >= 2 then
      var g := s[b..e];
      assert forall k :: 0 <= k < |g| ==> g[k] == s[b + k];
      Some(g)
    else None
  }

  /** Backtracking over where group 1 ends: the largest end in (p, q] that lets the rest match. */
  function CityEndFrom(s: string, p: nat, q: nat): (r: Option<(nat, string)>)
    requires p <= q <= |s|
    ensures r.Some? ==> p < r.value.0 <= q && StateAt(s, r.value.0) == Some(r.value.1)
    decreases q
  {
    if q == p then None
    else if StateAt(s, q).Some? then Some((q, StateAt(s, q).value))
    else CityEndFrom(s, p, q - 1)
  }

  /** The two groups of a CITY_STATE_RE match starting exactly at `p`. */
  function CityStateAt(s: string, p: nat): (r: Option<(string, string)>)
    requires p <= |s|
    ensures r.Some? ==> |r.value.0| > 0 && (forall k :: 0 <= k < |r.value.0| ==> IsCityChar(r.value.0[k])) &&
                        |r.value.1| >= 2 && (forall k :: 0 <= k < |r.value.1| ==> IsAlpha(r.value.1[k]))
  {
    var e := CityRunEnd(s, p);
    match CityEndFrom(s, p, e)
    case None => None
    case Some((q, g2)) =>
      var g1 := s[p..q];
      assert forall k :: 0 <= k < |g1| ==> g1[k] == s[p + k];
      Some((g1, g2))
  }

  /** `CITY_STATE_RE.search(s)` from position `p`. */
  function CityStateSearch(s: string, p: nat): (r: Option<(string, string)>)
    requires p <= |s|
    ensures r.Some? ==> |r.value.0| > 0 && (forall k :: 0 <= k < |r.value.0| ==> IsCityChar(r.value.0[k])) &&
                        |r.value.1| >= 2 && (forall k :: 0 <= k < |r.value.1| ==> IsAlpha(r.value.1[k]))
    decreases |s| - p
  {
    if CityStateAt(s, p).Some? then CityStateAt(s, p) else if p == |s| then None else CityStateSearch(s, p + 1)
  }

  /** A state name becomes its abbreviation; anything else is upper-cased. */
  function StateCode(raw: string): string
  {
    if raw in StateAbbr then StateAbbr[raw] else Upper(raw)
  }

  /** `extract_city`. */
  function ExtractCity(s: string): string
  {
    var m := CityStateSearch(s, 0);
    if m.None? then "" else Title(Strip(m.value.0)) + ", " + StateCode(Title(Strip(m.value.1)))
  }

  predicate NoLowerAscii(s: string)
  {
    forall k :: 0 <= k < |s| ==> !IsLowerAscii(s[k])
  }

  lemma StripNoSpaceInside(g: string)
    requires forall k :: 0 <= k < |g| ==> IsAlpha(g[k])
    ensures Strip(g) == g
  {
    if |g| > 0 {
      StripNoEnds(g);
    }
  }

  /**
   * `extract_city` is "" exactly when nothing matches; otherwise it is a
   * title-cased city and ", ", followed by the abbreviation of a state name
   * or by the state group upper-cased.  The state group never holds a
   * space, so the two-word entries of the state table are never looked up.
   */
  lemma ExtractCitySpec(s: string)
    ensures ExtractCity(s) == "" <==> CityStateSearch(s, 0).None?
    ensures CityStateSearch(s, 0).Some? ==>
              CityAndCode(ExtractCity(s), CityStateSearch(s, 0).value.0, CityStateSearch(s, 0).value.1)
  {
    var m := CityStateSearch(s, 0);
    if m.Some? {
      StripNoSpaceInside(m.value.1);
      CityAndCodeOf(m.value.0, m.value.1);
    }
  }

  /**
   * `r` is the title-cased city group, ", " and a code: the table's
   * abbreviation of the title-cased state group when that is a state name,
   * else the state group upper-cased. The state group holds no space, and
   * when it is not a state name the code is at least two characters
   * without lower case.
   */
  predicate CityAndCode(r: string, g1: string, g2: string)
  {
    var city := Title(Strip(g1));
    |r| >= |city| + 2 && r[..|city| + 2] == city + ", " && Title(city) == city &&
    r[|city| + 2..] == (if Title(g2) in StateAbbr then StateAbbr[Title(g2)] else Upper(g2)) &&
    ' ' !in Title(g2) &&
    (Title(g2) !in StateAbbr ==> |r[|city| + 2..]| >= 2 && NoLowerAscii(r[|city| + 2..]))
  }

  /** Upper-casing a title-cased text is upper-casing the text. */
  lemma UpperOfTitle(g: string)
    ensures Upper(Title(g)) == Upper(g)
  {
    forall k | 0 <= k < |g| ensures Upper(Title(g))[k] == Upper(g)[k] {
      if IsAlpha(g[k]) {
        CaseIdempotent(g[k]);
      }
    }
  }

  /** What `extract_city` builds from the two groups has that shape. */
  lemma CityAndCodeOf(g1: string, g2: string)
    requires |g2| >= 2 && forall k :: 0 <= k < |g2| ==> IsAlpha(g2[k])
    ensures CityAndCode(Title(Strip(g1)) + ", " + StateCode(Title(g2)), g1, g2)
  {
    var city, code := Title(Strip(g1)), StateCode(Title(g2));
    TitleIdempotent(Strip(g1));
    TitleKeepsAlpha(g2);
    StateCodeShape(Title(g2));
    UpperOfTitle(g2);
    CityThenCode(city, code);
  }

  /** Title-casing a run of letters gives a run of letters of the same length. */
  lemma TitleKeepsAlpha(g: string)
    requires forall k :: 0 <= k < |g| ==> IsAlpha(g[k])
    ensures |Title(g)| == |g| && forall k :: 0 <= k < |Title(g)| ==> IsAlpha(Title(g)[k])
  {
  }

  /** A run of letters that is not a state name is upper-cased into a code without lower case. */
  lemma StateCodeShape(t: string)
    requires |t| >= 2 && forall k :: 0 <= k < |t| ==> IsAlpha(t[k])
    ensures ' ' !in t
    ensures t !in StateAbbr ==> |StateCode(t)| >= 2 && NoLowerAscii(StateCode(t))
  {
    assert forall k :: 0 <= k < |t| ==> t[k] != ' ';
  }

  /** The city, the separator and the code, read back. */
  lemma CityThenCode(city: string, code: string)
    ensures var r := city + ", " + code;
            |r| >= |city| + 2 && r[..|city| + 2] == city + ", " && r[|city| + 2..] == code
  {
  }

  // ---------------------------------------------------------------------
  // Capitalisation helpers
  // ---------------------------------------------------------------------

  function CapFirst(w: string): string
  {
    if w == "" then "" else [UpperChar(w[0])] + w[1..]
  }

  function MapCapFirst(ws: seq<string>): seq<string>
  {
    if |ws| == 0 then [] else [CapFirst(ws[0])] + MapCapFirst(ws[1..])
  }

  /** `capitalize_words_except_apostrophe`. */
  function CapitalizeWords(text: string): string
  {
    Join(MapCapFirst(Split(text, ' ')), " ")
  }

  /** The character-level reading: the first character and every character after a space is upper-cased. */
  function CapAfterSpace(t: string): string
  {
    seq(|t|, i requires 0 <= i < |t| => if i == 0 || t[i - 1] == ' ' then UpperChar(t[i]) else t[i])
  }

  lemma {:induction false} CapWordsFrom(s: string, acc: string)
    requires ' ' !in acc
    ensures Join(MapCapFirst(SplitFrom(s, ' ', acc)), " ") == CapAfterSpace(acc + s)
  {
    if |s| == 0 {
      assert acc + s == acc;
      assert CapAfterSpace(acc) == CapFirst(acc);
    } else if s[0] == ' ' {
      var rest := SplitFrom(s[1..], ' ', "");
      CapWordsFrom(s[1..], "");
      assert "" + s[1..] == s[1..];
      assert SplitFrom(s, ' ', acc) == [acc] + rest;
      var parts := [acc] + rest;
      assert parts[1..] == rest;
      assert MapCapFirst(parts) == [CapFirst(acc)] + MapCapFirst(rest);
      assert |MapCapFirst(rest)| >= 1 by {
        assert |rest| >= 1;
      }
      var m := MapCapFirst(parts);
      assert m[1..] == MapCapFirst(rest);
      assert Join(m, " ") == CapFirst(acc) + " " + CapAfterSpace(s[1..]);
      CapAfterSpaceSplit(acc, s);
    } else {
      CapWordsFrom(s[1..], acc + [s[0]]);
      assert acc + [s[0]] + s[1..] == acc + s;
    }
  }

  /** A space splits the character-level reading into the first word's and the rest's. */
  lemma CapAfterSpaceSplit(acc: string, s: string)
    requires ' ' !in acc && |s| > 0 && s[0] == ' '
    ensures CapAfterSpace(acc + s) == CapFirst(acc) + " " + CapAfterSpace(s[1..])
  {
    var whole := acc + s;
    var rhs := CapFirst(acc) + " " + CapAfterSpace(s[1..]);
    assert |rhs| == |whole|;
    forall i | 0 <= i < |whole| ensures CapAfterSpace(whole)[i] == rhs[i] {
      if i < |acc| {
        assert whole[i] == acc[i];
        if i > 0 {
          assert whole[i - 1] == acc[i - 1];
        }
      } else if i > |acc| {
        assert whole[i] == s[1..][i - |acc| - 1];
        if i > |acc| + 1 {
          assert whole[i - 1] == s[1..][i - |acc| - 2];
        }
      }
    }
  }

  /** Length is kept; only the first character of each space-separated word can change. */
  lemma CapitalizeWordsSpec(text: string)
    ensures |CapitalizeWords(text)| == |text|
    ensures forall i :: 0 <= i < |text| ==>
              CapitalizeWords(text)[i] == if i == 0 || text[i - 1] == ' ' then UpperChar(text[i]) else text[i]
  {
    CapWordsFrom(text, "");
    assert "" + text == text;
    var r := CapitalizeWords(text);
    var c := CapAfterSpace(text);
    assert r == c;
    forall i | 0 <= i < |text| ensures r[i] == if i == 0 || text[i - 1] == ' ' then UpperChar(text[i]) else text[i] {
      assert c[i] == if i == 0 || text[i - 1] == ' ' then UpperChar(text[i]) else text[i];
    }
  }

  function IndexOfChar(s: string, c: char): (i: nat)
    requires c in s
    ensures i < |s| && s[i] == c && c !in s[..i]
  {
    if s[0] == c then 0 else 1 + IndexOfChar(s[1..], c)
  }

  /** `capitalize_city_preserve_state`. */
  function CapitalizeCityPreserveState(city: string): string
  {
    if ',' in city then
      var i := IndexOfChar(city, ',');
      CapitalizeWords(Strip(city[..i])) + ", " + Upper(Strip(city[i + 1..]))
    else CapitalizeWords(city)
  }

  lemma LowerUpperChar(c: char)
    ensures LowerChar(UpperChar(c)) == LowerChar(c)
  {
  }

  lemma CapitalizeWordsAt(text: string, i: nat)
    requires i < |text|
    ensures |CapitalizeWords(text)| == |text| && CapitalizeWords(text)[i] == if i == 0 || text[i - 1] == ' ' then UpperChar(text[i]) else text[i]
  {
    CapitalizeWordsSpec(text);
  }

  lemma CapitalizeWordsOnlyCase(text: string)
    ensures EqualsCI(CapitalizeWords(text), text)
  {
    CapitalizeWordsSpec(text);
    var r := CapitalizeWords(text);
    LowerLength(r);
    LowerLength(text);
    forall i | 0 <= i < |text| ensures Lower(r)[i] == Lower(text)[i] {
      LowerUpperChar(text[i]);
      CapitalizeWordsAt(text, i);
    }
  }

  /**
   * `r` is `cp` up to letter case, then ", ", then `sp` upper-cased (up to
   * letter case it is `sp`, and no lower-case letter is left in it).
   */
  predicate CityStateForm(r: string, cp: string, sp: string)
  {
    var k := |cp|;
    |r| == k + 2 + |sp| && r[k..k + 2] == ", " &&
    EqualsCI(r[..k], cp) && EqualsCI(r[k + 2..], sp) && NoLowerAscii(r[k + 2..])
  }

  /**
   * Only letter case changes, around a comma re-spaced as ", "; everything
   * after the first comma is upper-cased.
   */
  lemma CapitalizeCitySpec(city: string)
    ensures ',' !in city ==> EqualsCI(CapitalizeCityPreserveState(city), city)
    ensures ',' in city ==>
              var i := IndexOfChar(city, ',');
              CityStateForm(CapitalizeCityPreserveState(city), Strip(city[..i]), Strip(city[i + 1..]))
  {
    if ',' in city {
      var i := IndexOfChar(city, ',');
      CityStateShape(Strip(city[..i]), Strip(city[i + 1..]));
    } else {
      CapitalizeWordsOnlyCase(city);
    }
  }

  /** The capitalised city, ", " and the upper-cased state, each read back. */
  lemma CityStateShape(cp: string, sp: string)
    ensures CityStateForm(CapitalizeWords(cp) + ", " + Upper(sp), cp, sp)
  {
    CapitalizeWordsSpec(cp);
    CapitalizeWordsOnlyCase(cp);
    var r := CapitalizeWords(cp) + ", " + Upper(sp);
    assert r[..|cp|] == CapitalizeWords(cp);
    assert r[|cp| + 2..] == Upper(sp);
    UpperOnlyCase(sp);
  }

  /** Upper-casing changes only letter case and leaves no lower-case letter. */
  lemma UpperOnlyCase(sp: string)
    ensures EqualsCI(Upper(sp), sp) && NoLowerAscii(Upper(sp))
  {
    forall j | 0 <= j < |sp| ensures Lower(Upper(sp))[j] == Lower(sp)[j] {
      LowerUpperChar(sp[j]);
    }
  }

  // ---------------------------------------------------------------------
  // match_folder
  // ---------------------------------------------------------------------

  /** A non-empty list hit replaces the current value. */
  function ListHit(current: string, hit: Option<string>): string
  {
    if hit.Some? && hit.value != "" then hit.value else current
  }

  /** The name searched for the venue: with every occurrence of the city removed. */
  function NameWithoutCity(name: string, city: string): string
  {
    if city != "" then Strip(RemoveAllCI(name, city)) else name
  }

  /** The info after the pattern table, the list lookups, the bracket tokens and the id. */
  function LookupInfo(name: string, rxs: seq<Matcher>, artists: seq<string>, venues: seq<string>,
                      cities: seq<string>): Info
    requires |rxs| == |PatternGroups|
  {
    var i1 := PatternInfo(name, rxs);
    var i2 := i1.(date := OrElse(i1.date, ExtractDate(name)));
    var i3 := i2.(artist := ListHit(i2.artist, FindBestMatchInName(name, artists)));
    var i4 := i3.(city := ListHit(i3.city, FindBestMatchInName(name, cities)));
    var i5 := i4.(venue := ListHit(i4.venue, FindBestMatchInName(NameWithoutCity(name, i4.city), venues)));
    var toks := BracketTokens(name);
    var ft := FirstKnown(toks, KnownFormats);
    var st := FirstKnown(toks, KnownSources);
    var i6 := if ft.Some? then i5.(format := OrElse(i5.format, ft.value)) else i5;
    var i7 := if st.Some? then i6.(source := OrElse(i6.source, st.value)) else i6;
    i7.(id := OrElse(i7.id, ExtractId(name)))
  }

  /** The `additional`/`add` text of a (comma-normalised) name. */
  function AdditionalText(name: string): string
  {
    var toks := BracketTokens(name);
    Strip(Join(AdditionalTokens(toks, FirstKnown(toks, KnownFormats), FirstKnown(toks, KnownSources)), " "))
  }

  /** An empty format is replaced by the first format of `order` prefixing a word. */
  function WithFallback(format: string, words: seq<string>, order: seq<string>): string
  {
    var fb := FirstPrefixFormat(words, order);
    if format == "" && fb.Some? then fb.value else format
  }

  /** What `match_folder` returns, given the order the format fallback tries formats in. */
  function ParseName(rawName: string, rxs: seq<Matcher>, artists: seq<string>, venues: seq<string>,
                     cities: seq<string>, order: seq<string>): Info
    requires |rxs| == |PatternGroups|
  {
    var name := NormalizeCommas(rawName);
    var i8 := LookupInfo(name, rxs, artists, venues, cities);
    var i9 := i8.(format := WithFallback(i8.format, WordTokens(Upper(name)), order));
    var add := AdditionalText(name);
    i9.(additional := add, add := add)
  }

  /** The pattern loop: the first matching pattern fills its groups, then the loop stops. */
  method ApplyPatterns(name: string, rxs: seq<Matcher>) returns (info: Info)
    requires |rxs| == |PatternGroups|
    ensures info == PatternInfo(name, rxs)
  {
    info := EmptyInfo();
    var k := 0;
    while k < |rxs|
      invariant 0 <= k <= |rxs|
      invariant FirstMatch(rxs, name, k) == FirstMatch(rxs, name, 0)
      invariant info == EmptyInfo()
    {
      var m := rxs[k](name);
      if m.Some? {
        var groups := PatternGroups[k];
        var i := 0;
        while i < |groups|
          invariant 0 <= i <= |groups|
          invariant Fill(info, groups[i..], m.value) == Fill(EmptyInfo(), groups, m.value)
        {
          info := info.Set(groups[i], Strip(Group(m.value, groups[i])));
          i := i + 1;
        }
        return;
      }
      k := k + 1;
    }
  }

  /** The format fallback loop: the first format in `order` that prefixes a word. */
  method FormatFallback(words: seq<string>, order: seq<string>) returns (r: Option<string>)
    ensures r == FirstPrefixFormat(words, order)
  {
    var i := 0;
    while i < |order|
      invariant 0 <= i <= |order|
      invariant FirstPrefixFormat(words, order[i..]) == FirstPrefixFormat(words, order)
    {
      var fmt := order[i];
      if AnyStartsWith(words, fmt) {
        return Some(fmt);
      }
      i := i + 1;
    }
    return None;
  }

  /**
   * `match_folder`: the fallback tries the known formats longest first, in
   * `order`, the order `sorted` gives them.
   */
  method MatchFolder(rawName: string, rxs: seq<Matcher>, artists: seq<string>, venues: seq<string>,
                     cities: seq<string>, order: seq<string>) returns (info: Info)
    requires |rxs| == |PatternGroups| && LongestFirst(order)
    ensures info == ParseName(rawName, rxs, artists, venues, cities, order)
  {
    info := MatchFolderInOrder(rawName, rxs, artists, venues, cities, order);
  }

  /**
   * The body of `match_folder`, with the order the format fallback tries
   * formats in as a parameter.  The pattern loop and the format fallback
   * loop are the source's loops with `break`.
   */
  method MatchFolderInOrder(rawName: string, rxs: seq<Matcher>, artists: seq<string>, venues: seq<string>,
                            cities: seq<string>, order: seq<string>) returns (info: Info)
    requires |rxs| == |PatternGroups|
    ensures info == ParseName(rawName, rxs, artists, venues, cities, order)
  {
    var name := NormalizeCommas(rawName);
    info := ApplyPatterns(name, rxs);
    assert info == PatternInfo(name, rxs);

    info := info.(date := OrElse(info.date, ExtractDate(name)));
    info := info.(artist := ListHit(info.artist, FindBestMatchInName(name, artists)));
    info := info.(city := ListHit(info.city, FindBestMatchInName(name, cities)));
    var nameWithoutCity := NameWithoutCity(name, info.city);
    info := info.(venue := ListHit(info.venue, FindBestMatchInName(nameWithoutCity, venues)));
    var tokens := BracketTokens(name);
    var formatToken := FirstKnown(tokens, KnownFormats);
    if formatToken.Some? {
      info := info.(format := OrElse(info.format, formatToken.value));
    }
    var sourceToken := FirstKnown(tokens, KnownSources);
    if sourceToken.Some? {
      info := info.(source := OrElse(info.source, sourceToken.value));
    }
    info := info.(id := OrElse(info.id, ExtractId(name)));
    assert info == LookupInfo(name, rxs, artists, venues, cities);

    if info.format == "" {
      var fallback := FormatFallback(WordTokens(Upper(name)), order);
      if fallback.Some? {
        info := info.(format := fallback.value);
      }
    }
    var add := Strip(Join(AdditionalTokens(tokens, formatToken, sourceToken), " "));
    info := info.(additional := add, add := add);
  }

  /** Genre is never set by the folder name, and additional == add. */
  lemma ParseNameShape(rawName: string, rxs: seq<Matcher>, artists: seq<string>, venues: seq<string>,
                       cities: seq<string>, order: seq<string>)
    requires |rxs| == |PatternGroups|
    ensures var info := ParseName(rawName, rxs, artists, venues, cities, order);
            info.genre == "" && info.additional == info.add == AdditionalText(NormalizeCommas(rawName))
  {
    var name := NormalizeCommas(rawName);
    PatternGenreEmpty(name, rxs);
    assert LookupInfo(name, rxs, artists, venues, cities).genre == "";
  }

  /** No pattern captures a genre. */
  lemma PatternGenreEmpty(name: string, rxs: seq<Matcher>)
    requires |rxs| == |PatternGroups|
    ensures PatternInfo(name, rxs).genre == ""
  {
    var hit := FirstMatch(rxs, name, 0);
    if hit.Some? {
      var groups := PatternGroups[hit.value.0];
      NoGenreGroup(hit.value.0);
      FillSpec(EmptyInfo(), groups, hit.value.1, "genre");
      assert Fill(EmptyInfo(), groups, hit.value.1).genre == Fill(EmptyInfo(), groups, hit.value.1).Get("genre");
    }
  }

  /** Every pattern's groups are info keys, and none of them is the genre. */
  lemma NoGenreGroup(k: nat)
    requires k < |PatternGroups|
    ensures (forall g :: g in PatternGroups[k] ==> g in InfoKeys) && "genre" !in PatternGroups[k]
  {
    assert "genre"[0] == 'g';
  }

  /** Only the first accepting pattern contributes, each group stripped ("" when absent). */
  lemma PatternGroupsFromFirstMatch(name: string, rxs: seq<Matcher>, k: nat, m: Groups, key: string)
    requires |rxs| == |PatternGroups|
    requires k < |rxs| && rxs[k](name) == Some(m)
    requires forall j :: 0 <= j < k ==> rxs[j](name).None?
    ensures PatternInfo(name, rxs).Get(key) == if key in PatternGroups[k] then Strip(Group(m, key)) else ""
  {
    FirstMatchWins(rxs, name, 0);
    var r := FirstMatch(rxs, name, 0);
    assert r.Some?;
    assert r.value.0 == k;
    FillSpec(EmptyInfo(), PatternGroups[k], m, key);
  }

  /** With no accepting pattern every field starts out "". */
  lemma NoPatternMatch(name: string, rxs: seq<Matcher>)
    requires |rxs| == |PatternGroups|
    requires forall j :: 0 <= j < |rxs| ==> rxs[j](name).None?
    ensures PatternInfo(name, rxs) == EmptyInfo()
  {
    FirstMatchWins(rxs, name, 0);
  }

  /**
   * A non-empty list hit overrides the pattern capture for artist and city;
   * the venue is looked up in the name with the city removed.
   */
  lemma ListHitsOverride(name: string, rxs: seq<Matcher>, artists: seq<string>, venues: seq<string>,
                         cities: seq<string>, a: string, c: string)
    requires |rxs| == |PatternGroups|
    requires FindBestMatchInName(name, artists) == Some(a) && a != ""
    requires FindBestMatchInName(name, cities) == Some(c) && c != ""
    ensures LookupInfo(name, rxs, artists, venues, cities).artist == a
    ensures LookupInfo(name, rxs, artists, venues, cities).city == c
    ensures var v := FindBestMatchInName(Strip(RemoveAllCI(name, c)), venues);
            v.Some? && v.value != "" ==> LookupInfo(name, rxs, artists, venues, cities).venue == v.value
  {
  }

  /** The format after the bracket tokens: the capture if any, else the first known-format token. */
  lemma LookupFormat(name: string, rxs: seq<Matcher>, artists: seq<string>, venues: seq<string>,
                     cities: seq<string>)
    requires |rxs| == |PatternGroups|
    ensures var captured := PatternInfo(name, rxs).format;
            var ft := FirstKnown(BracketTokens(name), KnownFormats);
            var looked := LookupInfo(name, rxs, artists, venues, cities).format;
            (captured != "" ==> looked == captured) &&
            (captured == "" && ft.Some? ==> looked == ft.value) &&
            (captured == "" && ft.None? ==> looked == "")
  {
  }

  /** The final format is the looked-up one with the word-prefix fallback applied. */
  lemma ParseNameFormat(rawName: string, rxs: seq<Matcher>, artists: seq<string>, venues: seq<string>,
                        cities: seq<string>, order: seq<string>)
    requires |rxs| == |PatternGroups|
    ensures var name := NormalizeCommas(rawName);
            ParseName(rawName, rxs, artists, venues, cities, order).format ==
              WithFallback(LookupInfo(name, rxs, artists, venues, cities).format, WordTokens(Upper(name)), order)
  {
  }

  /**
   * Format precedence: a pattern capture is kept; otherwise the first bracket
   * token naming a known format; otherwise the word-prefix fallback, which
   * `FormatFallbackLongest` shows picks the longest known format that prefixes
   * a word of the upper-cased name.
   */
  lemma FormatPrecedence(name: string, rxs: seq<Matcher>, artists: seq<string>, venues: seq<string>,
                         cities: seq<string>, order: seq<string>)
    requires |rxs| == |PatternGroups|
    ensures var captured := PatternInfo(name, rxs).format;
            var ft := FirstKnown(BracketTokens(name), KnownFormats);
            var words := WordTokens(Upper(name));
            var f := WithFallback(LookupInfo(name, rxs, artists, venues, cities).format, words, order);
            (captured != "" ==> f == captured) &&
            (captured == "" && ft.Some? ==> f == ft.value) &&
            (captured == "" && ft.None? ==>
               f == match FirstPrefixFormat(words, order) case Some(g) => g case None => "")
  {
    var ft := FirstKnown(BracketTokens(name), KnownFormats);
    LookupFormat(name, rxs, artists, venues, cities);
    if ft.Some? {
      assert Upper(ft.value) in KnownFormats;
    }
  }
}
