/**
 * The older copy of the folder-name parser (utils/__pycache__/match_folder.py).
 *
 * Its helpers and pattern table are those of `FolderMatch`.  It differs in
 * two places: it has a comma-based city/venue fallback, and its format
 * fallback walks the set `KNOWN_FORMATS` in the set's iteration order instead
 * of longest first.  That order is not fixed by the language, so it is a
 * parameter here.
 */
module FolderMatchVariant {
  import opened Text
  import opened FolderMatch

  function StripAll(xs: seq<string>): (r: seq<string>)
    ensures |r| == |xs| && forall i :: 0 <= i < |xs| ==> r[i] == Strip(xs[i])
  {
    if |xs| == 0 then [] else [Strip(xs[0])] + StripAll(xs[1..])
  }

  /** `DATE_RX.match(s).end()`: a date anchored at the start of the name. */
  function DateMatchEnd(s: string): (r: Option<nat>)
    ensures r.Some? ==> r.value <= |s|
  {
    if DateAt(s, 0).Some? then Some(DigitRunEnd(s, 0) + 6) else None
  }

  /** `fallback_extract_city_and_venue`, returning (venue, city). */
  function FallbackExtractCityAndVenue(name: string): (string, string)
  {
    var parts := StripAll(Split(name, ','));
    if |parts| < 2 then ("", "")
    else
      var cityParts := parts[|parts| - 2..];
      var city := if |cityParts[1]| == 2 then cityParts[0] + ", " + cityParts[1] else cityParts[1];
      var venue :=
        match DateMatchEnd(name)
        case None => ""
        case Some(end) =>
          var after := Strip(name[end..]);
          var cityStr := Join(cityParts, ", ");
          if EndsWith(after, cityStr) then VenueBeforeCity(after, cityStr)
          else Strip(Join(parts[..|parts| - 2], ", "));
      (venue, city)
  }

  /** Fewer than two comma-separated parts give nothing. */
  lemma FallbackTooFewParts(name: string)
    requires ',' !in name
    ensures FallbackExtractCityAndVenue(name) == ("", "")
  {
    NoSeparatorOnePart(name, "");
  }

  lemma {:induction false} NoSeparatorOnePart(s: string, acc: string)
    requires ',' !in s
    ensures |SplitFrom(s, ',', acc)| == 1
  {
    if |s| > 0 {
      assert s[0] != ',';
      assert ',' !in s[1..];
      NoSeparatorOnePart(s[1..], acc + [s[0]]);
    }
  }

  /**
   * The city ends with the last stripped part, and is "A, B" from the last
   * two parts exactly when the last part has two characters; without a
   * leading date the venue is "".
   */
  lemma FallbackCity(name: string)
    ensures var parts := StripAll(Split(name, ','));
            var (venue, city) := FallbackExtractCityAndVenue(name);
            (|parts| < 2 ==> venue == "" && city == "") &&
            (|parts| >= 2 ==>
               var last := parts[|parts| - 1];
               EndsWith(city, last) &&
               (|last| == 2 ==> city == parts[|parts| - 2] + ", " + last) &&
               (|last| != 2 ==> city == last)) &&
            (DateMatchEnd(name).None? ==> venue == "")
  {
    var parts := StripAll(Split(name, ','));
    if |parts| >= 2 {
      var last := parts[|parts| - 1];
      var city := FallbackExtractCityAndVenue(name).1;
      assert city[|city| - |last|..] == last;
    }
  }

  /** The venue taken from the head of the post-date text when it ends in the city text. */
  function VenueBeforeCity(after: string, cityStr: string): string
    requires EndsWith(after, cityStr)
  {
    Strip(RStripChars(after[..|after| - |cityStr|], {',', ' '}))
  }

  /**
   * Text without leading whitespace that ends in the city text is the venue,
   * a run of commas and whitespace, and the city text.
   */
  lemma VenueBeforeCitySplits(after: string, cityStr: string)
    requires EndsWith(after, cityStr)
    requires |after| == 0 || !IsSpace(after[0])
    ensures var venue := VenueBeforeCity(after, cityStr);
            StartsWith(after, venue) && |venue| + |cityStr| <= |after| &&
            forall k :: |venue| <= k < |after| - |cityStr| ==> after[k] == ',' || IsSpace(after[k])
  {
    var head := after[..|after| - |cityStr|];
    var r1 := RStripChars(head, {',', ' '});
    RStripCharsShape(head, {',', ' '});
    assert |r1| == 0 || !IsSpace(r1[0]) by {
      if |r1| > 0 {
        assert r1[0] == head[0] == after[0];
      }
    }
    LStripNoLead(r1);
    RStripShape(r1);
    var venue := Strip(r1);
    assert venue == RStrip(r1);
    assert after[..|venue|] == venue by {
      assert venue == r1[..|venue|];
      assert r1 == head[..|r1|];
    }
    forall k | |venue| <= k < |after| - |cityStr| ensures after[k] == ',' || IsSpace(after[k]) {
      assert after[k] == head[k];
      if k < |r1| {
        assert r1[|venue|..][k - |venue|] == r1[k];
      }
    }
  }

  /**
   * With a leading date and post-date text ending in the city text, the
   * post-date text is the venue, a run of commas and whitespace, and the
   * city text.
   */
  lemma FallbackVenueSplitsAfterDate(name: string)
    requires |StripAll(Split(name, ','))| >= 2 && DateMatchEnd(name).Some?
    ensures var parts := StripAll(Split(name, ','));
            var cityStr := Join(parts[|parts| - 2..], ", ");
            var after := Strip(name[DateMatchEnd(name).value..]);
            var venue := FallbackExtractCityAndVenue(name).0;
            EndsWith(after, cityStr) ==>
              StartsWith(after, venue) && |venue| + |cityStr| <= |after| &&
              forall k :: |venue| <= k < |after| - |cityStr| ==> after[k] == ',' || IsSpace(after[k])
  {
    var parts := StripAll(Split(name, ','));
    var cityStr := Join(parts[|parts| - 2..], ", ");
    var after := Strip(name[DateMatchEnd(name).value..]);
    if EndsWith(after, cityStr) {
      StripShape(name[DateMatchEnd(name).value..]);
      assert FallbackExtractCityAndVenue(name).0 == VenueBeforeCity(after, cityStr);
      VenueBeforeCitySplits(after, cityStr);
    }
  }


  /**
   * `match_folder` of the older copy, with the set iteration order of
   * `KNOWN_FORMATS` as a parameter.
   */
  method MatchFolder(rawName: string, rxs: seq<Matcher>, artists: seq<string>, venues: seq<string>,
                     cities: seq<string>, setOrder: seq<string>) returns (info: Info)
    requires |rxs| == |PatternGroups|
    requires EnumeratesKnownFormats(setOrder)
    ensures info == ParseName(rawName, rxs, artists, venues, cities, setOrder)
    ensures info.genre == "" && info.additional == info.add
  {
    info := MatchFolderInOrder(rawName, rxs, artists, venues, cities, setOrder);
    ParseNameShape(rawName, rxs, artists, venues, cities, setOrder);
  }

  /** One order of the set in which the shorter "FLAC" comes before "FLAC24". */
  const ShortFirst: seq<string> := ["FLAC", "FLAC16", "FLAC24", "MP3", "MP4", "WAV", "MKV", "MOV"]

  lemma WordTokensOfFlac24()
    ensures WordTokens(Upper("FLAC24")) == ["FLAC24"]
  {
    var s := Upper("FLAC24");
    assert s == "FLAC24";
    assert WordRunEnd(s, 6) == 6;
    assert WordRunEnd(s, 5) == 6;
    assert WordRunEnd(s, 4) == 6;
    assert WordRunEnd(s, 3) == 6;
    assert WordRunEnd(s, 2) == 6;
    assert WordRunEnd(s, 1) == 6;
    assert WordRunEnd(s, 0) == 6;
    assert s[0..6] == s;
  }

  /**
   * The fallback's answer depends on the set's iteration order: for the word
   * "FLAC24" one valid order yields "FLAC", the longest-first order "FLAC24".
   */
  lemma FallbackDependsOnSetOrder()
    ensures EnumeratesKnownFormats(ShortFirst) && EnumeratesKnownFormats(FormatsLongestFirst)
    ensures FirstPrefixFormat(WordTokens(Upper("FLAC24")), ShortFirst) == Some("FLAC")
    ensures FirstPrefixFormat(WordTokens(Upper("FLAC24")), FormatsLongestFirst) == Some("FLAC24")
  {
    WordTokensOfFlac24();
    var words := ["FLAC24"];
    assert StartsWith(words[0], "FLAC");
    assert AnyStartsWith(words, "FLAC");
    assert StartsWith(words[0], "FLAC24");
    assert AnyStartsWith(words, "FLAC24");
  }
}
