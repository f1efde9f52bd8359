/**
 * The dropdown lists offered for each metadata field
 * (utils/combobox_utils.py, `update_combobox_values`).
 *
 * The widgets are given by the set of keys that have one; what the function
 * assigns to them is returned. Python iterates each history set in an order
 * it does not specify: each history is given here as a sequence in that
 * iteration order.
 */
module Combobox {
  import opened Text
  import Sorting
  import Cache

  /** The base list: the asset list for artist, venue and city, `DEFAULTS` otherwise. */
  function BaseFor(key: string, artists: seq<string>, venues: seq<string>, cities: seq<string>): seq<string>
  {
    if key == "artist" then artists
    else if key == "venue" then venues
    else if key == "city" then cities
    else Cache.DefaultsFor(key)
  }

  /** The cached values appended after the base list, sorted ignoring case: only artist and genre have them. */
  ghost function ExtraFor(key: string, artistCache: set<string>, genreCache: set<string>): seq<string>
  {
    if key == "artist" then Sorting.SortedOf(Sorting.CaseInsensitive, artistCache)
    else if key == "genre" then Sorting.SortedOf(Sorting.CaseInsensitive, genreCache)
    else []
  }

  /** `histories.get(key, set())`, in iteration order. */
  function HistoryFor(key: string, histories: map<string, seq<string>>): seq<string>
  {
    if key in histories then histories[key] else []
  }

  /** The list built for one key: last used, base list, sorted cache, history, without repeats or empties. */
  ghost function ComboList(key: string, artists: seq<string>, venues: seq<string>, cities: seq<string>,
                           artistCache: set<string>, genreCache: set<string>, histories: map<string, seq<string>>,
                           lastSource: string, lastFormat: string, lastGenre: string): seq<string>
  {
    Cache.Dedup([Cache.LastFor(key, lastSource, lastFormat, lastGenre)]
                + BaseFor(key, artists, venues, cities)
                + ExtraFor(key, artistCache, genreCache)
                + HistoryFor(key, histories))
  }

  /** The four-part list the loops build, whatever its parts. */
  lemma Layered(last: string, base: seq<string>, extra: seq<string>, hist: seq<string>)
    ensures var r := Cache.Dedup([last] + base + extra + hist);
            NoDuplicates(r) && "" !in r &&
            (forall x :: x in r <==> x != "" && (x == last || x in base || x in extra || x in hist)) &&
            (last != "" ==> |r| > 0 && r[0] == last) &&
            |Cache.Dedup([last] + base)| <= |Cache.Dedup([last] + base + extra)| <= |r| &&
            r[..|Cache.Dedup([last] + base + extra)|] == Cache.Dedup([last] + base + extra) &&
            Cache.Dedup([last] + base + extra)[..|Cache.Dedup([last] + base)|] == Cache.Dedup([last] + base)
  {
    Cache.DedupSpec([last] + base + extra + hist);
    Cache.DedupPrefix([last] + base + extra, hist);
    Cache.DedupPrefix([last] + base, extra);
    if last != "" {
      LastFirst(last, base + extra + hist);
    }
    assert [last] + base + extra + hist == [last] + (base + extra + hist);
  }

  /** A non-empty value in front stays in front. */
  lemma LastFirst(last: string, rest: seq<string>)
    requires last != ""
    ensures |Cache.Dedup([last] + rest)| > 0 && Cache.Dedup([last] + rest)[0] == last
  {
    Cache.DedupPrefix([last], rest);
    assert Cache.Dedup([last]) == [last] by {
      assert [last][..0] == [];
    }
  }

  /**
   * Each list holds every non-empty value of its sources exactly once and
   * nothing else; a non-empty last-used value comes first, the base list
   * follows in its own order, then the cache in case-insensitive order.
   */
  lemma ComboListSpec(key: string, artists: seq<string>, venues: seq<string>, cities: seq<string>,
                      artistCache: set<string>, genreCache: set<string>, histories: map<string, seq<string>>,
                      lastSource: string, lastFormat: string, lastGenre: string)
    ensures var last := Cache.LastFor(key, lastSource, lastFormat, lastGenre);
            var base := BaseFor(key, artists, venues, cities);
            var extra := ExtraFor(key, artistCache, genreCache);
            var r := ComboList(key, artists, venues, cities, artistCache, genreCache, histories, lastSource, lastFormat, lastGenre);
            NoDuplicates(r) && "" !in r &&
            (forall x :: x in r <==> x != "" && (x == last || x in base || x in extra || x in HistoryFor(key, histories))) &&
            (last != "" ==> |r| > 0 && r[0] == last) &&
            |Cache.Dedup([last] + base)| <= |Cache.Dedup([last] + base + extra)| <= |r| &&
            r[..|Cache.Dedup([last] + base + extra)|] == Cache.Dedup([last] + base + extra) &&
            Cache.Dedup([last] + base + extra)[..|Cache.Dedup([last] + base)|] == Cache.Dedup([last] + base)
  {
    Layered(Cache.LastFor(key, lastSource, lastFormat, lastGenre), BaseFor(key, artists, venues, cities),
            ExtraFor(key, artistCache, genreCache), HistoryFor(key, histories));
  }

  /** The base lists the function reads are copied: the order of the asset lists decides the base order. */
  lemma BaseListOrder(key: string, artists: seq<string>, venues: seq<string>, cities: seq<string>,
                      artistCache: set<string>, genreCache: set<string>, histories: map<string, seq<string>>)
    requires key == "artist" || key == "venue" || key == "city"
    requires NoDuplicates(BaseFor(key, artists, venues, cities)) && "" !in BaseFor(key, artists, venues, cities)
    ensures var r := ComboList(key, artists, venues, cities, artistCache, genreCache, histories, "", "", "");
            var base := BaseFor(key, artists, venues, cities);
            |base| <= |r| && r[..|base|] == base
  {
    var base := BaseFor(key, artists, venues, cities);
    ComboListSpec(key, artists, venues, cities, artistCache, genreCache, histories, "", "", "");
    assert Cache.LastFor(key, "", "", "") == "";
    Cache.DedupClean(base);
    Cache.DedupSkipEmpty(base);
  }

  /** Every list assigned so far is the list built for its key. */
  ghost predicate AllBuilt(lists: map<string, seq<string>>, artists: seq<string>, venues: seq<string>, cities: seq<string>,
                           artistCache: set<string>, genreCache: set<string>, histories: map<string, seq<string>>,
                           lastSource: string, lastFormat: string, lastGenre: string)
  {
    forall k :: k in lists ==>
      lists[k] == ComboList(k, artists, venues, cities, artistCache, genreCache, histories, lastSource, lastFormat, lastGenre)
  }

  /**
   * `update_combobox_values`: for each of the seven keys the list is built
   * and assigned to that key's combobox when there is one; a key without a
   * combobox is computed and dropped.
   */
  method UpdateComboboxValues(artists: seq<string>, venues: seq<string>, cities: seq<string>,
                              artistCache: set<string>, genreCache: set<string>, histories: map<string, seq<string>>,
                              lastSource: string, lastFormat: string, lastGenre: string, boxes: set<string>)
    returns (lists: map<string, seq<string>>)
    ensures lists.Keys == boxes * Elements(Cache.FieldKeys)
    ensures forall k :: k in lists ==>
              lists[k] == ComboList(k, artists, venues, cities, artistCache, genreCache, histories, lastSource, lastFormat, lastGenre)
  {
    lists := BuildAll(Cache.FieldKeys, artists, venues, cities, artistCache, genreCache, histories, lastSource, lastFormat, lastGenre, boxes);
  }

  /** The loop of `update_combobox_values` over the keys `keys`, in order. */
  method BuildAll(keys: seq<string>, artists: seq<string>, venues: seq<string>, cities: seq<string>,
                  artistCache: set<string>, genreCache: set<string>, histories: map<string, seq<string>>,
                  lastSource: string, lastFormat: string, lastGenre: string, boxes: set<string>)
    returns (lists: map<string, seq<string>>)
    ensures lists.Keys == boxes * Elements(keys)
    ensures AllBuilt(lists, artists, venues, cities, artistCache, genreCache, histories, lastSource, lastFormat, lastGenre)
  {
    lists := map[];
    for i := 0 to |keys|
      invariant lists.Keys == boxes * Elements(keys[..i])
      invariant AllBuilt(lists, artists, venues, cities, artistCache, genreCache, histories, lastSource, lastFormat, lastGenre)
    {
      var key := keys[i];
      var finalList := BuildList(key, artists, venues, cities, artistCache, genreCache, histories, lastSource, lastFormat, lastGenre);
      if key in boxes {
        lists := lists[key := finalList];
      }
      assert keys[..i + 1] == keys[..i] + [key];
      ElementsSnoc(keys[..i], key);
    }
    assert keys[..|keys|] == keys;
  }

  /** The list for one key, built by the four appending loops. */
  method BuildList(key: string, artists: seq<string>, venues: seq<string>, cities: seq<string>,
                   artistCache: set<string>, genreCache: set<string>, histories: map<string, seq<string>>,
                   lastSource: string, lastFormat: string, lastGenre: string)
    returns (finalList: seq<string>)
    ensures finalList == ComboList(key, artists, venues, cities, artistCache, genreCache, histories, lastSource, lastFormat, lastGenre)
  {
    var base := BaseFor(key, artists, venues, cities);
    var lastUsed := Cache.LastFor(key, lastSource, lastFormat, lastGenre);
    var extra := [];
    if key == "artist" {
      extra := Sorting.SortSet(Sorting.CaseInsensitive, artistCache);
    } else if key == "genre" {
      extra := Sorting.SortSet(Sorting.CaseInsensitive, genreCache);
    }
    var hist := HistoryFor(key, histories);
    var seen;
    finalList, seen := Cache.AppendNew([], [], {}, [lastUsed]);
    finalList, seen := Cache.AppendNew([lastUsed], finalList, seen, base);
    finalList, seen := Cache.AppendNew([lastUsed] + base, finalList, seen, extra);
    finalList, seen := Cache.AppendNew([lastUsed] + base + extra, finalList, seen, hist);
  }
}
