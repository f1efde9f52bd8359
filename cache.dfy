/**
 * The dropdown histories and the artist-to-genre cache
 * (utils/cache_manager.py).
 *
 * JSON files are given by their parsed contents: missing, unreadable (where
 * `open` or `json.load` would raise), or parsed. What would be written is
 * returned as a value. The GUI the controller reads and updates is given by
 * its `last_*` attributes and, for reading the form, by the text of each of
 * its attributes.
 */
module Cache {
  import opened Text
  import Sorting
  import MetadataMerge

  /** `used_cache`: top-level keys mapped to string dictionaries ("artists" among them). */
  type UsedCache = map<string, map<string, string>>

  const ArtistsKey: string := "artists"

  /** `used_cache["artists"]`, or `{}` when it is missing. */
  function Artists(uc: UsedCache): map<string, string>
  {
    if ArtistsKey in uc then uc[ArtistsKey] else map[]
  }

  /** `update_used_cache`: remember `genre` for `artist` when both are non-empty. */
  function UpdateUsedCache(uc: UsedCache, artist: string, genre: string): UsedCache
  {
    if artist != "" && genre != "" then uc[ArtistsKey := Artists(uc)[artist := genre]] else uc
  }

  /**
   * With both values given, the artist now maps to the genre, and every other
   * artist and every other top-level key is unchanged; otherwise nothing changes.
   */
  lemma UpdateUsedCacheSpec(uc: UsedCache, artist: string, genre: string)
    ensures var r := UpdateUsedCache(uc, artist, genre);
            (artist == "" || genre == "" ==> r == uc) &&
            (artist != "" && genre != "" ==>
               ArtistsKey in r && r[ArtistsKey][artist] == genre &&
               (forall k :: k != ArtistsKey ==> (k in r <==> k in uc) && (k in r ==> r[k] == uc[k])) &&
               (forall a :: a != artist ==> (a in r[ArtistsKey] <==> a in Artists(uc)) &&
                                            (a in Artists(uc) ==> r[ArtistsKey][a] == Artists(uc)[a])))
  {
  }

  /** A JSON file the program reads. */
  datatype Loaded<T> = Missing | Unreadable | Parsed(content: T)

  /** `load_used_cache`: the parsed cache with "artists" added if missing; `{"artists": {}}` otherwise. */
  function LoadUsedCache(file: Loaded<UsedCache>): UsedCache
  {
    match file
    case Parsed(uc) => if ArtistsKey in uc then uc else uc[ArtistsKey := map[]]
    case _ => map[ArtistsKey := map[]]
  }

  /**
   * The loaded cache always has "artists"; a parsed cache keeps every other
   * key as it was and its artists if it had them; without a parsed file the
   * cache is just an empty "artists".
   */
  lemma LoadUsedCacheSpec(file: Loaded<UsedCache>)
    ensures var r := LoadUsedCache(file);
            ArtistsKey in r &&
            (file.Parsed? ==>
               (forall k :: k != ArtistsKey ==> (k in r <==> k in file.content) && (k in r ==> r[k] == file.content[k])) &&
               Artists(r) == Artists(file.content)) &&
            (!file.Parsed? ==> r == map[ArtistsKey := map[]])
  {
  }

  /** A cache that is saved after an update and loaded again remembers the artist's genre. */
  lemma UsedCacheReload(uc: UsedCache, artist: string, genre: string)
    requires artist != "" && genre != ""
    ensures Artists(LoadUsedCache(Parsed(UpdateUsedCache(uc, artist, genre))))[artist] == genre
  {
    UpdateUsedCacheSpec(uc, artist, genre);
  }

  // ---------------------------------------------------------------------
  // load_history
  // ---------------------------------------------------------------------

  type Histories = map<string, set<string>>

  /** The keys `load_history` does not take from the file. */
  const SkippedKeys: set<string> := {"artist", "city", "venue"}

  /** `set(v for v in vals if v)`. */
  function NonEmpty(vals: seq<string>): set<string>
  {
    set v | v in vals && v != ""
  }

  /** The histories after the file's keys in `done` have been read. */
  function LoadedFrom(h: Histories, data: map<string, seq<string>>, done: set<string>): Histories
    requires done <= data.Keys
  {
    h + map k | k in done - SkippedKeys :: NonEmpty(data[k])
  }

  /** `load_history`: every key but the skipped ones is replaced from the file; no file empties every key. */
  function HistoriesAfterLoad(h: Histories, file: Loaded<map<string, seq<string>>>): Histories
  {
    match file
    case Missing => map k | k in h :: {}
    case Unreadable => h
    case Parsed(data) => LoadedFrom(h, data, data.Keys)
  }

  /**
   * A key of the file other than artist, city and venue now holds exactly
   * its non-empty values; every other key is as it was; no file leaves every
   * key empty; an unreadable file changes nothing.
   */
  lemma HistoriesAfterLoadSpec(h: Histories, file: Loaded<map<string, seq<string>>>)
    ensures var r := HistoriesAfterLoad(h, file);
            (file.Parsed? ==>
               (forall k :: k in file.content && k !in SkippedKeys ==> k in r && r[k] == NonEmpty(file.content[k]) && "" !in r[k]) &&
               (forall k :: k !in file.content || k in SkippedKeys ==> (k in r <==> k in h) && (k in h ==> r[k] == h[k]))) &&
            (file.Missing? ==> r.Keys == h.Keys && forall k :: k in r ==> r[k] == {}) &&
            (file.Unreadable? ==> r == h)
  {
  }

  /** Reading one more key of the file. */
  lemma LoadedFromStep(h: Histories, data: map<string, seq<string>>, done: set<string>, key: string)
    requires done <= data.Keys && key in data.Keys
    ensures LoadedFrom(h, data, done + {key}) ==
            if key !in SkippedKeys then LoadedFrom(h, data, done)[key := NonEmpty(data[key])] else LoadedFrom(h, data, done)
  {
  }

  /** `load_history`'s loop over the file's keys. */
  method ReadHistories(h: Histories, file: Loaded<map<string, seq<string>>>) returns (r: Histories)
    ensures r == HistoriesAfterLoad(h, file)
  {
    match file {
      case Missing =>
        r := map k | k in h :: {};
      case Unreadable =>
        r := h;
      case Parsed(data) =>
        r := ReadKeys(h, data);
    }
  }

  /** The loop itself: each key of the file, in any order. */
  method ReadKeys(h: Histories, data: map<string, seq<string>>) returns (r: Histories)
    ensures r == LoadedFrom(h, data, data.Keys)
  {
    r := h;
    var todo := data.Keys;
    ghost var done: set<string> := {};
    assert LoadedFrom(h, data, done) == h;
    while todo != {}
      invariant done <= data.Keys && todo == data.Keys - done
      invariant r == LoadedFrom(h, data, done)
      decreases todo
    {
      var key :| key in todo;
      r := ReadKey(h, data, done, r, key);
      done := done + {key};
      todo := todo - {key};
    }
    assert done == data.Keys;
  }

  /** One pass of the loop: `histories[key] = set(v for v in vals if v)` unless the key is skipped. */
  method ReadKey(ghost h: Histories, data: map<string, seq<string>>, ghost done: set<string>, r: Histories, key: string)
    returns (r': Histories)
    requires done <= data.Keys && key in data && r == LoadedFrom(h, data, done)
    ensures r' == LoadedFrom(h, data, done + {key})
  {
    LoadedFromStep(h, data, done, key);
    r' := if key !in SkippedKeys then r[key := NonEmpty(data[key])] else r;
  }

  // ---------------------------------------------------------------------
  // Ordered lists without duplicates
  // ---------------------------------------------------------------------

  /** The list built by appending each value that is not empty and not yet listed. */
  function Dedup(xs: seq<string>): seq<string>
  {
    if |xs| == 0 then []
    else
      var d := Dedup(xs[..|xs| - 1]);
      var x := xs[|xs| - 1];
      if x != "" && x !in d then d + [x] else d
  }

  /** The list holds every non-empty value once, and nothing else. */
  lemma {:induction false} DedupSpec(xs: seq<string>)
    ensures NoDuplicates(Dedup(xs)) && "" !in Dedup(xs)
    ensures forall x :: x in Dedup(xs) <==> x in xs && x != ""
  {
    if |xs| > 0 {
      var front := xs[..|xs| - 1];
      DedupSpec(front);
      assert xs == front + [xs[|xs| - 1]];
    }
  }

  /** Values appended later never disturb the list built so far. */
  lemma {:induction false} DedupPrefix(a: seq<string>, b: seq<string>)
    ensures |Dedup(a)| <= |Dedup(a + b)| && Dedup(a + b)[..|Dedup(a)|] == Dedup(a)
  {
    if |b| == 0 {
      assert a + b == a;
    } else {
      var front := b[..|b| - 1];
      DedupPrefix(a, front);
      assert (a + b)[..|a + b| - 1] == a + front;
    }
  }

  /** A list already free of duplicates and empty values is kept as it is. */
  lemma {:induction false} DedupClean(xs: seq<string>)
    requires NoDuplicates(xs) && "" !in xs
    ensures Dedup(xs) == xs
  {
    if |xs| > 0 {
      var front := xs[..|xs| - 1];
      assert NoDuplicates(front);
      DedupClean(front);
      assert xs[|xs| - 1] !in front;
      assert front + [xs[|xs| - 1]] == xs;
    }
  }

  /** An empty value in front is skipped. */
  lemma {:induction false} DedupSkipEmpty(xs: seq<string>)
    ensures Dedup([""] + xs) == Dedup(xs)
  {
    if |xs| > 0 {
      var front := xs[..|xs| - 1];
      DedupSkipEmpty(front);
      assert ([""] + xs)[..|xs|] == [""] + front;
    } else {
      assert [""][..0] == [];
    }
  }

  /** One more value is appended exactly when it is non-empty and new. */
  lemma DedupSnoc(ys: seq<string>, x: string)
    ensures Dedup(ys + [x]) == if x != "" && x !in Dedup(ys) then Dedup(ys) + [x] else Dedup(ys)
  {
    assert (ys + [x])[..|ys|] == ys;
  }

  /** One pass of that loop: `val` is appended and recorded when it is non-empty and not yet seen. */
  method AddNew(ghost ys: seq<string>, list: seq<string>, seen: set<string>, val: string)
    returns (list': seq<string>, seen': set<string>)
    requires list == Dedup(ys) && seen == Elements(list)
    ensures list' == Dedup(ys + [val]) && seen' == Elements(list')
  {
    DedupSnoc(ys, val);
    list', seen' := list, seen;
    if val != "" && val !in seen {
      ElementsSnoc(list, val);
      list' := list + [val];
      seen' := seen + {val};
    }
  }

  /** The loop `for val in xs: if val and val not in seen: append and add to seen`. */
  method AppendNew(ghost before: seq<string>, list: seq<string>, seen: set<string>, xs: seq<string>)
    returns (list': seq<string>, seen': set<string>)
    requires list == Dedup(before) && seen == Elements(list)
    ensures list' == Dedup(before + xs) && seen' == Elements(list')
  {
    list', seen' := list, seen;
    var i := 0;
    assert before + xs[..0] == before;
    while i < |xs|
      invariant 0 <= i <= |xs|
      invariant list' == Dedup(before + xs[..i]) && seen' == Elements(list')
    {
      var val := xs[i];
      assert before + xs[..i + 1] == before + xs[..i] + [val];
      list', seen' := AddNew(before + xs[..i], list', seen', val);
      i := i + 1;
    }
    assert xs[..i] == xs;
  }

  // ---------------------------------------------------------------------
  // save_history (module function)
  // ---------------------------------------------------------------------

  /** `DEFAULTS` (utils/constants.py); artist, venue and city have none. */
  const DefaultGenres: seq<string> := ["Jam", "Progressive Rock", "Bluegrass", "Rock", "Blues"]
  const DefaultAdds: seq<string> := ["Remastered", "Bootleg", "5.1"]

  function DefaultsFor(key: string): seq<string>
  {
    if key == "source" then MetadataMerge.DefaultSources
    else if key == "format" then MetadataMerge.DefaultFormats
    else if key == "genre" then DefaultGenres
    else if key == "add" then DefaultAdds
    else []
  }

  /** The last-used value put first: only source, format and genre have one. */
  function LastFor(key: string, lastSource: string, lastFormat: string, lastGenre: string): string
  {
    if key == "source" then lastSource else if key == "format" then lastFormat
    else if key == "genre" then lastGenre else ""
  }

  /** The list written for one key: last used, then `DEFAULTS`, then the history sorted ignoring case. */
  ghost function SavedList(key: string, values: set<string>, lastSource: string, lastFormat: string, lastGenre: string): seq<string>
  {
    Dedup([LastFor(key, lastSource, lastFormat, lastGenre)] + DefaultsFor(key) + Sorting.SortedOf(Sorting.CaseInsensitive, values))
  }

  /**
   * Each written list holds every non-empty value once: the history's, the
   * key's defaults and its last-used value. A non-empty last-used value comes
   * first, and the defaults follow in their own order.
   */
  lemma SavedListSpec(key: string, values: set<string>, lastSource: string, lastFormat: string, lastGenre: string)
    ensures var last := LastFor(key, lastSource, lastFormat, lastGenre);
            var r := SavedList(key, values, lastSource, lastFormat, lastGenre);
            NoDuplicates(r) && "" !in r &&
            (forall x :: x in r <==> x != "" && (x in values || x in DefaultsFor(key) || x == last)) &&
            (last != "" ==> |r| > 0 && r[0] == last) &&
            |Dedup([last] + DefaultsFor(key))| <= |r| && r[..|Dedup([last] + DefaultsFor(key))|] == Dedup([last] + DefaultsFor(key))
  {
    var last := LastFor(key, lastSource, lastFormat, lastGenre);
    var sorted := Sorting.SortedOf(Sorting.CaseInsensitive, values);
    DedupSpec([last] + DefaultsFor(key) + sorted);
    DedupPrefix([last] + DefaultsFor(key), sorted);
    DedupPrefix([last], DefaultsFor(key));
    assert Dedup([last]) == if last != "" then [last] else [] by {
      assert [last][..0] == [];
    }
  }

  /** The module-level `save_history`: the lists it writes, one per history key. */
  method SaveHistoryData(h: Histories, lastSource: string, lastFormat: string, lastGenre: string)
    returns (data: map<string, seq<string>>)
    ensures data.Keys == h.Keys
    ensures forall k :: k in data ==> data[k] == SavedList(k, h[k], lastSource, lastFormat, lastGenre)
  {
    data := map[];
    var todo := h.Keys;
    while todo != {}
      invariant todo <= h.Keys && data.Keys == h.Keys - todo
      invariant forall k :: k in data ==> data[k] == SavedList(k, h[k], lastSource, lastFormat, lastGenre)
      decreases |todo|
    {
      var key :| key in todo;
      var vals := Sorting.SortSet(Sorting.CaseInsensitive, h[key]);
      var defaults := DefaultsFor(key);
      var lastUsed := LastFor(key, lastSource, lastFormat, lastGenre);
      var combined, seen := AppendNew([], [], {}, [lastUsed]);
      combined, seen := AppendNew([lastUsed], combined, seen, defaults);
      combined, seen := AppendNew([lastUsed] + defaults, combined, seen, vals);
      data := data[key := combined];
      todo := todo - {key};
    }
  }

  // ---------------------------------------------------------------------
  // CacheController
  // ---------------------------------------------------------------------

  /** The seven dropdown keys, in the order the controller visits them. */
  const FieldKeys: seq<string> := ["artist", "venue", "city", "add", "source", "format", "genre"]

  /** The GUI attribute each key is read from, as written: the key itself. */
  const WidgetAttrs: seq<(string, string)> :=
    [("artist", "artist"), ("venue", "venue"), ("city", "city"), ("add", "add"),
     ("source", "source"), ("format", "format"), ("genre", "genre")]

  /** The attributes the GUI actually has: the format is held in `fmt`. */
  const IntendedAttrs: seq<(string, string)> :=
    [("artist", "artist"), ("venue", "venue"), ("city", "city"), ("add", "add"),
     ("source", "source"), ("format", "fmt"), ("genre", "genre")]

  /** The widget is present and its text is not blank. */
  predicate Captured(widgets: map<string, string>, attr: string)
  {
    attr in widgets && Strip(widgets[attr]) != ""
  }

  /** Updating the right side of a union updates the union. */
  lemma UnionUpdate(a: map<string, string>, b: map<string, string>, k: string, v: string)
    ensures (a + b)[k := v] == a + b[k := v]
  {
  }

  /** Every key the form is read for is one of the seven. */
  lemma IntendedKeysListed()
    ensures forall i :: 0 <= i < |IntendedAttrs| ==> IntendedAttrs[i].0 in FieldKeys
  {
  }

  /** The stripped non-blank values read through `attrs`, by key. */
  function UiValues(widgets: map<string, string>, attrs: seq<(string, string)>): map<string, string>
  {
    if |attrs| == 0 then map[]
    else
      var r := UiValues(widgets, attrs[..|attrs| - 1]);
      var (key, attr) := attrs[|attrs| - 1];
      if Captured(widgets, attr) then r[key := Strip(widgets[attr])] else r
  }

  /**
   * A key is captured exactly when the attribute listed for it is present
   * and not blank, and then holds that attribute's stripped text; other
   * keys are never captured.
   */
  lemma {:induction false} UiValuesSpec(widgets: map<string, string>, attrs: seq<(string, string)>, j: nat)
    requires j < |attrs| && forall i :: 0 <= i < |attrs| && i != j ==> attrs[i].0 != attrs[j].0
    ensures var r := UiValues(widgets, attrs);
            (attrs[j].0 in r <==> Captured(widgets, attrs[j].1)) &&
            (attrs[j].0 in r ==> r[attrs[j].0] == Strip(widgets[attrs[j].1]))
  {
    var n := |attrs| - 1;
    if j < n {
      UiValuesSpec(widgets, attrs[..n], j);
    } else {
      UiValuesAbsent(widgets, attrs[..n], attrs[j].0);
    }
  }

  /** A key not listed is never captured. */
  lemma {:induction false} UiValuesAbsent(widgets: map<string, string>, attrs: seq<(string, string)>, key: string)
    requires forall i :: 0 <= i < |attrs| ==> attrs[i].0 != key
    ensures key !in UiValues(widgets, attrs)
  {
    if |attrs| > 0 {
      UiValuesAbsent(widgets, attrs[..|attrs| - 1], key);
    }
  }

  /**
   * As written, the format is read from a `format` attribute; the GUI keeps
   * it in `fmt` and has no `format`, so the format is never captured.
   */
  lemma FormatNeverCaptured(widgets: map<string, string>)
    requires "format" !in widgets
    ensures "format" !in UiValues(widgets, WidgetAttrs)
  {
    UiValuesSpec(widgets, WidgetAttrs, 5);
  }

  /** Read from `fmt`, the format is captured whenever the form holds one. */
  lemma FormatCapturedIntended(widgets: map<string, string>)
    ensures var r := UiValues(widgets, IntendedAttrs);
            ("format" in r <==> Captured(widgets, "fmt")) &&
            ("format" in r ==> r["format"] == Strip(widgets["fmt"]))
  {
    UiValuesSpec(widgets, IntendedAttrs, 5);
  }

  /** The list written for one key by the controller. */
  ghost function ControllerList(values: set<string>, last: Option<string>): seq<string>
  {
    if last.Some? && Strip(last.value) != "" && Strip(last.value) in values then
      [Strip(last.value)] + Sorting.SortedOf(Sorting.CaseInsensitive, values - {Strip(last.value)})
    else Sorting.SortedOf(Sorting.CaseInsensitive, values)
  }

  /**
   * The list holds exactly the history's values, once each; a last-used
   * value that is in the history comes first, and the rest is sorted
   * ignoring case.
   */
  lemma ControllerListSpec(values: set<string>, last: Option<string>)
    ensures var r := ControllerList(values, last);
            NoDuplicates(r) && Elements(r) == values &&
            (last.Some? && Strip(last.value) in values && Strip(last.value) != "" ==> r[0] == Strip(last.value)) &&
            Sorting.StrictlySorted(Sorting.CaseInsensitive, if |r| > 0 && last.Some? && Strip(last.value) in values && Strip(last.value) != "" then r[1..] else r)
  {
    var r := ControllerList(values, last);
    var o := Sorting.CaseInsensitive;
    if last.Some? && Strip(last.value) != "" && Strip(last.value) in values {
      var l := Strip(last.value);
      var rest := Sorting.SortedOf(o, values - {l});
      assert r[1..] == rest;
      forall i, j | 0 <= i < j < |rest| ensures rest[i] != rest[j] {
        Sorting.LessIrreflexive(o, rest[i]);
      }
      forall i, j | 0 <= i < j < |r| ensures r[i] != r[j] {
        if i == 0 {
          assert r[j] == rest[j - 1] && rest[j - 1] in rest;
        } else {
          assert r[i] == rest[i - 1] && r[j] == rest[j - 1];
        }
      }
    } else {
      forall i, j | 0 <= i < j < |r| ensures r[i] != r[j] {
        Sorting.LessIrreflexive(o, r[i]);
      }
    }
  }

  /**
   * What the controller saves, loaded again, gives back each history key the
   * loader reads (add, source, format, genre) when it holds no empty value.
   */
  lemma ControllerRoundTrip(values: set<string>, last: Option<string>)
    requires "" !in values
    ensures NonEmpty(ControllerList(values, last)) == values
  {
    ControllerListSpec(values, last);
  }

  /** The list `save_history` writes for one key: the stripped last-used value first when it is listed, the rest sorted ignoring case. */
  method OrderedHistory(values: set<string>, last: Option<string>) returns (ordered: seq<string>)
    ensures ordered == ControllerList(values, last)
  {
    if last.Some? && Strip(last.value) != "" && Strip(last.value) in values {
      var l := Strip(last.value);
      var rest := Sorting.SortSet(Sorting.CaseInsensitive, values - {l});
      ordered := [l] + rest;
    } else {
      ordered := Sorting.SortSet(Sorting.CaseInsensitive, values);
    }
  }

  class CacheController {
    var histories: Histories
    var usedCache: UsedCache
    /** Whether a GUI was given. */
    var hasGui: bool
    /** The GUI's `last_*` attributes that exist, by key. */
    var guiLast: map<string, string>

    constructor(histories: Histories, usedCache: UsedCache, hasGui: bool, guiLast: map<string, string>)
      ensures this.histories == histories && this.usedCache == usedCache
      ensures this.hasGui == hasGui && this.guiLast == guiLast
    {
      this.histories := histories;
      this.usedCache := usedCache;
      this.hasGui := hasGui;
      this.guiLast := guiLast;
    }

    /** `load_history`. */
    method LoadHistory(file: Loaded<map<string, seq<string>>>)
      modifies this
      ensures histories == HistoriesAfterLoad(old(histories), file)
      ensures usedCache == old(usedCache) && hasGui == old(hasGui) && guiLast == old(guiLast)
    {
      histories := ReadHistories(histories, file);
    }

    /** `set_last_used_value`: only the seven keys, and only with a GUI. */
    method SetLastUsedValue(key: string, value: string)
      modifies this
      ensures guiLast == if hasGui && key in FieldKeys then old(guiLast)[key := value] else old(guiLast)
      ensures histories == old(histories) && usedCache == old(usedCache) && hasGui == old(hasGui)
    {
      if hasGui && key in FieldKeys {
        guiLast := guiLast[key := value];
      }
    }

    /**
     * `get_current_ui_values`, given the text of each GUI attribute, with the
     * format read from `fmt` where the GUI keeps it (see `FormatNeverCaptured`
     * for the lookup as written).
     */
    method GetCurrentUiValues(widgets: map<string, string>) returns (ui: map<string, string>)
      modifies this
      ensures ui == if hasGui then UiValues(widgets, IntendedAttrs) else map[]
      ensures guiLast == old(guiLast) + ui
      ensures histories == old(histories) && usedCache == old(usedCache) && hasGui == old(hasGui)
    {
      ui := map[];
      if !hasGui {
        assert guiLast == guiLast + ui;
        return;
      }
      var i := 0;
      IntendedKeysListed();
      while i < |IntendedAttrs|
        invariant 0 <= i <= |IntendedAttrs|
        invariant ui == UiValues(widgets, IntendedAttrs[..i])
        invariant guiLast == old(guiLast) + ui
        invariant histories == old(histories) && usedCache == old(usedCache) && hasGui
      {
        assert IntendedAttrs[..i + 1][..i] == IntendedAttrs[..i];
        var key, attr := IntendedAttrs[i].0, IntendedAttrs[i].1;
        if attr in widgets {
          var value := Strip(widgets[attr]);
          if value != "" {
            UnionUpdate(old(guiLast), ui, key, value);
            ui := ui[key := value];
            SetLastUsedValue(key, value);
          }
        }
        i := i + 1;
      }
      assert IntendedAttrs[..i] == IntendedAttrs;
    }

    /** The `last_*` value the controller reads for a key (`None` without a GUI or attribute). */
    function LastUsed(key: string): Option<string>
      reads this
    {
      if hasGui && key in guiLast then Some(guiLast[key]) else None
    }

    /** `save_history`: the seven lists it writes. */
    method SaveHistory() returns (data: map<string, seq<string>>)
      ensures forall k :: k in data <==> k in FieldKeys
      ensures forall k :: k in data ==>
                data[k] == ControllerList(if k in histories then histories[k] else {}, LastUsed(k))
    {
      data := map[];
      var i := 0;
      while i < |FieldKeys|
        invariant 0 <= i <= |FieldKeys|
        invariant forall k :: k in data <==> k in FieldKeys[..i]
        invariant forall k :: k in data ==>
                    data[k] == ControllerList(if k in histories then histories[k] else {}, LastUsed(k))
      {
        var key := FieldKeys[i];
        var values := if key in histories then histories[key] else {};
        var ordered := OrderedHistory(values, LastUsed(key));
        data := data[key := ordered];
        assert FieldKeys[..i + 1] == FieldKeys[..i] + [key];
        i := i + 1;
      }
      assert FieldKeys[..i] == FieldKeys;
    }

    /** `load_used_cache`: the loaded cache always has "artists", so it always replaces the old one. */
    method LoadUsedCacheInto(file: Loaded<UsedCache>)
      modifies this
      ensures usedCache == LoadUsedCache(file)
      ensures histories == old(histories) && hasGui == old(hasGui) && guiLast == old(guiLast)
    {
      var loaded := LoadUsedCache(file);
      assert ArtistsKey in loaded;
      if loaded != map[] {
        usedCache := loaded;
      }
    }

    /** `update_used_cache_with_ui`: the stripped artist and genre of the form, when both widgets exist. */
    method UpdateUsedCacheWithUi(widgets: map<string, string>)
      modifies this
      ensures usedCache == if hasGui && "artist" in widgets && "genre" in widgets
                           then UpdateUsedCache(old(usedCache), Strip(widgets["artist"]), Strip(widgets["genre"]))
                           else old(usedCache)
      ensures histories == old(histories) && hasGui == old(hasGui) && guiLast == old(guiLast)
    {
      if !hasGui {
        return;
      }
      if "artist" in widgets && "genre" in widgets {
        usedCache := UpdateUsedCache(usedCache, Strip(widgets["artist"]), Strip(widgets["genre"]));
      }
    }
  }
}
