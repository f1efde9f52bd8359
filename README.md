# TagForge core in Dafny

TagForge curates a live-recording archive. It reads loosely formatted
folder names such as `1995-12-31 - Madison Square Garden - New York, NY [SBD] [FLAC16]`
and turns them into metadata. It merges that metadata with sidecar `.txt`
files and audio tags, and lets the user confirm it. It then evaluates a
pair of naming schemes (`%artist%/$year(%date%)`) to decide where each
folder goes, moves the files, rewrites their tags and prunes the folders
left empty. This project models the deterministic core of that pipeline
and proves properties of it. File contents, tag values, directory
listings, the clock and configuration reads are parameters.

One module per file:

- `Text`, `Sorting`, `Dates`: Python string operations (`strip`, `split`,
  `lower`, slicing), `sorted(..., key=str.lower)` over sets, and the
  `%Y`/`%m`/`%d`/`%b`/`%B` subset of `strptime` (English month names,
  whitespace as runs of whitespace) and `strftime("%Y-%m-%d")`.
- `FolderMatch` (utils/match_folder.py): comma normalisation, the ordered
  pattern table where the first match wins, the date fallback with its
  two-digit-year pivot, the longest-substring lookups against known
  lists, bracket-token classification and the longest-first format
  fallback. `FolderMatchVariant` models the older copy in
  utils/__pycache__/match_folder.py. `TagForge` models the original
  three-pattern parser, the genre de-duplication, `save_selected_folder`
  and the legacy destination name in TagForge.py.
- `SchemeLang` (scheme_editor/scheme_evaluator.py and its copy in
  gui/scheme_editor.py): `%token%` substitution, `$func(args)` calls with
  depth-aware argument splitting, and the fixed-point loop capped at 20
  passes. `SchemePreview` models the editor's preview path, and
  `SchemePaths` (utils/scheme_evaluator.py) the path composer used for
  real moves.
- `MetadataMerge` (utils/metadata_parser.py), `TxtParser`
  (utils/txt_parser.py) and `Rename` (utils/rename_manager.py): the
  precedence rules, the date selection that avoids a bare year,
  labelled-line extraction from sidecar files, and the tracklist import.
- `Processor`, `ProcessThread` and `DirWalk` (utils/processor.py,
  utils/process_thread.py): the batch run. It covers override precedence,
  history recording, collision renaming, fallback dates and the upward
  walk that deletes emptied folders.
- `Queue`, `Cache`, `Combobox`, `FileUtils`, `PresetStore`,
  `PresetManager`, `SchemePresets`, `GuiLogger` and `Console`: the
  in-memory bookkeeping. This is the queue with its metadata dictionary,
  the histories and the used cache, the dropdown lists, the text asset
  lists, the two preset stores, the GUI log buffer and console
  sanitisation.

Objects whose methods update fields in place (`QueueManager`,
`CacheController`, `PresetManager`, `SchemePresets`, `RenameManager`,
`GuiLogger`, `Processor`, `WalkThroughGui`) are classes. Their methods
state their whole new state. Loops in the source are methods proved
against a specification function, and the properties are lemmas about
those functions.

Where the design description of the system and the code disagree, the
model follows the code:

- `$add`, `$sub` and `$mul` compute on Python floats, and `str(float)`
  renders `$add($mul(2,3),4)` as "10.0", not "10". These results are
  `FloatResult` failures, and of `$div` only a division by zero ("0") is
  modelled. `$lt` and `$gt` return "1" or "0" and are modelled: `to_num`
  reads a numeral (digits with at most one '.') as the exact decimal it
  spells and anything else as 0.
- `%formatN%` is served by the generic list branch of the token lookup,
  so the dedicated `%formatN%` branch never runs (`SchemeLang.FormatNIsGeneric`).
- `$datetime()` raises NameError in scheme_editor/scheme_evaluator.py,
  which never imports `datetime`. Only the copy in gui/scheme_editor.py
  reads the clock, which is the `clock` parameter.

## Model

| member | source | states |
|---|---|---|
| Sorting.SortSet | utils/combobox_utils.py:76-78 | the listing is strictly increasing in the case-insensitive order, holds exactly the set's elements, and is the one such listing |
| Sorting.SortedUnique | utils/combobox_utils.py:76-78 | two strictly sorted listings of the same elements are equal, so the sorted listing of a set is determined |
| Dates.StrptimeValid | utils/processor.py:72 | every date `strptime` accepts is a real calendar date |
| Dates.MonthAlternative | utils/processor.py:72 | `%m` reads a zero-padded month back as that month |
| Dates.DayAlternative | utils/processor.py:72 | `%d` reads a zero-padded day back as that day |
| Dates.IsoRoundTrip | utils/processor.py:72-73 | parsing a date written by `strftime("%Y-%m-%d")` with `%Y-%m-%d` gives the same date back |
| Dates.IsoShape | utils/processor.py:73 | a written date is ten characters with dashes at positions 4 and 7 |
| Dates.NameFirst | utils/metadata_parser.py:121 | `%b`/`%B` first try the name the text spells at that point, ignoring case |
| Dates.AbbrFirst | utils/metadata_parser.py:121 | `%b` reads a month abbreviation, in any letter case, as that month's number |
| Dates.MonDayYearReads | utils/metadata_parser.py:121 | "%b %d, %Y" reads an abbreviation, a space, a two-digit day, ", " and a four-digit year as that date |
| FolderMatch.NormalizeCommasOnlyInsertsSpaces | utils/match_folder.py:150 | the comma rewrite only inserts spaces: with all spaces removed the name is unchanged |
| FolderMatch.NormalizeCommasSpaced | utils/match_folder.py:150 | where no two commas are adjacent, every comma of the rewritten name is followed by whitespace or ends it |
| FolderMatch.FirstMatchWins | utils/match_folder.py:156-165 | the pattern reported is an accepting one and no earlier pattern accepts |
| FolderMatch.FillSpec | utils/match_folder.py:161-163 | filling sets exactly the pattern's keys, each to its stripped capture ("" for an unmatched group); other keys keep their value |
| FolderMatch.ExpandYearPivot | utils/match_folder.py:36-37 | a two-digit year becomes a year in 1951..2050 with the same last two digits (above 50 → 19YY, else 20YY) |
| FolderMatch.ExtractDateShape | utils/match_folder.py:32-42 | `extract_date` never fails: it gives "" or a real calendar date written YYYY-MM-DD |
| FolderMatch.ExtractDateRoundTrip | utils/match_folder.py:32-42 | extracting the date from a formatted valid date gives that date back |
| FolderMatch.LongestCandidateSpec | utils/match_folder.py:78-80 | no result iff no entry occurs in the name ignoring case; otherwise the result is such an entry of maximal length, the earliest among ties |
| FolderMatch.FindBestMatchSpec | utils/match_folder.py:75-80 | `find_best_match_in_name`: None iff the name is empty or no entry occurs in it ignoring case; otherwise a contained entry of maximal length, the earliest of that length |
| FolderMatch.FirstEqualCISpec | utils/match_folder.py:69-73 | the scan returns the first entry equal to the value ignoring case, None iff there is none |
| FolderMatch.FindNormalizedValueExactSpec | utils/match_folder.py:65-73 | `find_normalized_value_exact`: None iff the value is empty or no entry equals it ignoring case; otherwise the first such entry |
| FolderMatch.RemoveAllCIShorter | utils/match_folder.py:185-188 | removing the city never lengthens the name and changes nothing unless the city occurs in it ignoring case |
| FolderMatch.BracketTokensShape | utils/match_folder.py:196 | every bracket token is non-empty and holds no ']' |
| FolderMatch.TrailingBracketShape | utils/match_folder.py:82-88 | the group `extract_id` reads is non-empty, holds no ']' and closes the name (before an optional final newline) |
| FolderMatch.FirstKnownSpec | utils/match_folder.py:198-204 | the token chosen is the first whose upper-case form is known; None iff no token is known |
| FolderMatch.FirstPrefixFormatSpec | utils/match_folder.py:209-217 | the fallback returns a format from the order that prefixes some word, None iff none does; with a longest-first order no longer format prefixes a word |
| FolderMatch.FormatFallbackLongest | utils/match_folder.py:208-217 | over any order `sorted(KNOWN_FORMATS, key=len, reverse=True)` can produce: None iff no known format prefixes a word; otherwise a known prefix with no strictly longer known prefix |
| FolderMatch.LongestFirstOrdered | utils/match_folder.py:212 | the fixed list lists every known format once by non-increasing length, so it is one order the sort can produce |
| FolderMatch.AdditionalTokensSpec | utils/match_folder.py:219-222 | a token is kept iff it is a bracket token other than the chosen format and source tokens and not a `%...%` placeholder |
| FolderMatch.ExtractCitySpec | utils/match_folder.py:44-51 | `extract_city` is "" iff `CITY_STATE_RE` finds nothing; otherwise a title-cased city, ", " and the code: `STATE_ABBR`'s entry for the title-cased state group when it has one, else the state group upper-cased |
| FolderMatch.CapitalizeWordsSpec | utils/match_folder.py:53-54 | length is kept and only the first character of each space-separated word is upper-cased |
| FolderMatch.CapitalizeWordsOnlyCase | utils/match_folder.py:53-54 | the result equals the input ignoring case |
| FolderMatch.CapitalizeCitySpec | utils/match_folder.py:56-63 | without a comma only case changes; with one the result is the capitalised stripped city part, ", " and the upper-cased stripped rest |
| FolderMatch.ApplyPatterns | utils/match_folder.py:155-165 | the pattern loop yields the fields of the first accepting pattern, all "" when none accepts |
| FolderMatch.FormatFallback | utils/match_folder.py:209-217 | the fallback loop returns the first format in the order that prefixes a word of the upper-cased name |
| FolderMatch.MatchFolder | utils/match_folder.py:145-227 | `match_folder` computes `ParseName` with the known formats tried in the order the length sort gives them, whichever order of equal lengths the set's hashing yields |
| FolderMatch.MatchFolderInOrder | utils/match_folder.py:145-227 | the step-by-step body equals `ParseName` for any fallback order |
| FolderMatch.ParseNameShape | utils/match_folder.py:152-223 | genre is always "" and `additional` == `add` == the joined, stripped bracket tokens that remain |
| FolderMatch.PatternGenreEmpty | utils/match_folder.py:92-141 | no pattern captures a genre |
| FolderMatch.PatternGroupsFromFirstMatch | utils/match_folder.py:155-165 | only the first accepting pattern contributes: each of its keys gets the stripped capture, every other key "" |
| FolderMatch.NoPatternMatch | utils/match_folder.py:152-167 | with no accepting pattern every field starts out "" |
| FolderMatch.ListHitsOverride | utils/match_folder.py:173-194 | a list hit overrides the captured artist and city; the venue is looked up in the stripped name with every case-insensitive occurrence of the city removed |
| FolderMatch.LookupFormat | utils/match_folder.py:196-200 | a captured format is kept; otherwise the first known-format bracket token; otherwise "" |
| FolderMatch.ParseNameFormat | utils/match_folder.py:208-217 | the final format is the looked-up one, with the word-prefix fallback only when it is empty |
| FolderMatch.FormatPrecedence | utils/match_folder.py:196-217 | format precedence: the capture, else the first known bracket token, else the longest-first word-prefix fallback |
| FolderMatchVariant.FallbackTooFewParts | utils/__pycache__/match_folder.py:112-116 | a name without a comma has fewer than two parts and gives ("", "") |
| FolderMatchVariant.FallbackCity | utils/__pycache__/match_folder.py:112-135 | under two parts both are ""; otherwise the city ends with the last stripped part and is "A, B" from the last two parts exactly when the last has two characters; without a leading date the venue is "" |
| FolderMatchVariant.VenueBeforeCitySplits | utils/__pycache__/match_folder.py:128-129 | the post-date text is the venue, then only commas and whitespace, then the city text |
| FolderMatchVariant.FallbackVenueSplitsAfterDate | utils/__pycache__/match_folder.py:124-131 | with a leading date and post-date text ending in the joined city parts, the venue is the head of that text and only commas and whitespace separate it from the city |
| FolderMatchVariant.MatchFolder | utils/__pycache__/match_folder.py:206-306 | the older `match_folder` is `ParseName` with the format fallback walking `KNOWN_FORMATS` in set order; genre is "" and additional == add |
| FolderMatchVariant.FallbackDependsOnSetOrder | utils/__pycache__/match_folder.py:284-292 | two valid iteration orders of the set give different formats for the word "FLAC24" ("FLAC" versus "FLAC24") |
| TagForge.SearchShapeSpec | TagForge.py:44-49 | one date pattern's search: None iff the pattern occurs nowhere from `p`; otherwise its leftmost occurrence |
| TagForge.FirstShapeHitSpec | TagForge.py:44-49 | the patterns are tried in order: "" iff none occurs; otherwise the leftmost hit of the first pattern that occurs |
| TagForge.ExtractDateSpec | TagForge.py:38-49 | `extract_date`: "" exactly when none of YYYY-MM-DD, MM-DD-YYYY, MM-DD-YY occurs; otherwise the raw leftmost hit of the first that does, unvalidated |
| TagForge.ExtractCity | TagForge.py:51-55 | `extract_city` is "" iff the place pattern finds nothing; otherwise the stripped match holds a comma and ends in an upper-case letter |
| TagForge.ExtractFormatBracket | TagForge.py:57-60 | a bracketed format code anywhere wins, and the result is the upper-case alternative it matched |
| TagForge.ExtractFormatSuffix | TagForge.py:61-63 | without a bracketed code, a dotted suffix at the end gives the upper-case alternative it matched |
| TagForge.ExtractSourceSpec | TagForge.py:66-70 | `extract_source` is one of "", "SBD", "AUD", and "" iff no [SBD]/[AUD] occurs ignoring case |
| TagForge.ExtractIdSpec | TagForge.py:72-78 | a non-empty id is the trailing bracket group, holds no ']' and is none of the ten source/format codes ignoring case; no trailing group gives "" |
| TagForge.MatchFolder | TagForge.py:80-110 | `match_folder` as a loop over the patterns equals `ParseFolder` |
| TagForge.FillFolderSpec | TagForge.py:94-96 | filling sets exactly the pattern's keys to their stripped captures, "" for an unmatched group |
| TagForge.ParseFolderSpec | TagForge.py:80-110 | genre stays ""; a captured date is the stripped group of the first matching pattern and is kept, an empty one is replaced by `extract_date` |
| TagForge.FilledFolder | TagForge.py:8-36 | every pattern captures "date" and none captures "genre" |
| TagForge.KeepFirstCIMembers | TagForge.py:128-135 | every kept genre is non-empty, comes from the list and was not seen before |
| TagForge.KeepFirstCIDistinct | TagForge.py:128-135 | no two kept genres are equal ignoring case |
| TagForge.KeepFirstCICovers | TagForge.py:128-135 | every non-empty genre of the list is represented ignoring case |
| TagForge.KeepFirstCIOrder | TagForge.py:128-135 | the kept genres are exactly the first occurrences ignoring case, in list order: a non-empty genre is kept iff no earlier non-empty genre has the same lower-cased form |
| TagForge.GenreTag | TagForge.py:128-137 | the genre loop gives "" for no genres and otherwise the first-kept case-insensitive distinct genres joined with "; " |
| TagForge.ParseIntPadded | TagForge.py:418 | `int` reads back the number that zero padding wrote |
| TagForge.ComposeDateNeedsAll | TagForge.py:412-420 | a date is composed iff year, month and day are all present integers |
| TagForge.ComposeDateRoundTrip | TagForge.py:412-420 | fields split from a formatted valid date compose that same date |
| TagForge.WalkThroughGui.constructor | TagForge.py:152-184 | the window starts with no selection, no saved folders and no metadata, and with the histories and last values the cache load gives: the cached ones, the default source and format choices when there is no cache file, and empty ones when the read fails |
| TagForge.WalkThroughGui.LoadHistoryCache | TagForge.py:557-592 | a cache file replaces every history (its lists made sets) and the last source, format and genre; without a file the source and format histories gain the default choices; a failing read changes nothing; folders, metadata and selection are untouched |
| TagForge.WalkThroughGui.AppendFolder | TagForge.py:428-430 | the folder is appended to the list and list box unless already there, so each appears once |
| TagForge.WalkThroughGui.StoreEntry | TagForge.py:432-445 | the entry is stored under the folder and its source, format and genre become the last ones |
| TagForge.WalkThroughGui.SaveSelectedFolder | TagForge.py:399-464 | refuses without a selection or when artist, date or venue is empty, changing nothing; otherwise appends the folder at most once, stores the entry, sets the last values and adds each value to its history; the selection is never changed |
| TagForge.WalkThroughGui.RemoveSelectedFolder | TagForge.py:466-477 | without a selection nothing changes; otherwise the selected folder leaves the list and the metadata, and the rest keep their order; the selection, the last values and the histories are never changed |
| TagForge.DestinationYearSpec | TagForge.py:518 | the year is the prefix of the date up to its first "-" |
| TagForge.DestinationYearOfSavedDate | TagForge.py:418 | for a date composed in the walk-through window, the year directory is its zero-padded year |
| TagForge.TagsSpec | TagForge.py:523-529 | one bracketed, non-empty tag per non-empty source, format and id |
| TagForge.DestinationNameSpec | TagForge.py:518-530 | the name starts "date - venue", with " - city" only for a non-empty city; it is that base alone without tags, else the base, a space and tags ending in "]" |
| SchemeLang.PathNameSpec | scheme_editor/scheme_evaluator.py:29 | `Path(p).name` holds no '/' and is the last component of a path ending in a name |
| SchemeLang.NewEvaluatorSpec | scheme_editor/scheme_evaluator.py:15-33 | the copy keeps every other key; currentfoldername is the folder's last component when current_folder is a non-empty string, else the existing value, else ""; only a non-empty list as folder fails |
| SchemeLang.TokenSubNoPercent | scheme_editor/scheme_evaluator.py:77 | text without '%' holds no token and passes through the token substitution unchanged |
| SchemeLang.TokenSubAt | scheme_editor/scheme_evaluator.py:77 | a token is replaced by its value in front of the rest of the substitution |
| SchemeLang.FormatNIsGeneric | scheme_editor/scheme_evaluator.py:47-69 | "%formatN%" is served by the generic branch (a list joined with ", "), so the `%formatN%` branch is unreachable |
| SchemeLang.IndexedTokenValue | scheme_editor/scheme_evaluator.py:47-64 | "%formatN<k>%" (and the additional and source forms) is the k-th list entry, a plain string counting as one entry, or "" out of range |
| SchemeLang.SplitArgsLoop | scheme_editor/scheme_evaluator.py:81-97 | the while loop of `_split_args` equals the depth-aware `SplitArgs` |
| SchemeLang.SplitArgsTrailingComma | scheme_editor/scheme_evaluator.py:95-97 | "" gives no argument, "a," gives ["a"] and "a, " gives ["a", ""] |
| SchemeLang.SplitArgsNoParens | scheme_editor/scheme_evaluator.py:81-97 | without parentheses the arguments are the stripped comma-separated parts, minus a final part with no characters |
| SchemeLang.SplitArgsSpec | scheme_editor/scheme_evaluator.py:81-97 | every argument is stripped and made only of characters of the argument text |
| SchemeLang.UnknownFunctionEmpty | scheme_editor/scheme_evaluator.py:136 | an unknown function name gives "" whatever its arguments |
| SchemeLang.LogicFunctions | scheme_editor/scheme_evaluator.py:121-126 | the logic and comparison functions give "1" or "0"; only "1" is true; `and()` of nothing is "1", `or()` of nothing "0"; `$gt(a, b)` is `$lt(b, a)` |
| SchemeLang.DigitComparisons | scheme_editor/scheme_evaluator.py:122-123 | `$lt` and `$gt` of two digit strings compare their decimal values, so "0995" is less than "2000" |
| SchemeLang.NonNumeralIsZero | scheme_editor/scheme_evaluator.py:100-123 | text that is no numeral counts as 0 in `$lt` and `$gt` |
| SchemeLang.ToNumDigits | scheme_editor/scheme_evaluator.py:100 | `to_num` of a digit string is its decimal value |
| SchemeLang.ToNumDecimal | scheme_editor/scheme_evaluator.py:100 | `to_num("i.f")` is the whole part plus the fraction f / 10^len(f), either part possibly empty |
| SchemeLang.ToNumZeroIff | scheme_editor/scheme_evaluator.py:100 | `to_num(x)` is zero exactly when x is no numeral or only zeros and a dot |
| SchemeLang.ConditionalFunctions | scheme_editor/scheme_evaluator.py:131-135 | `$if` picks its second argument iff the first is "1"; `$if2` gives the first non-empty argument before the last, else the last |
| SchemeLang.RightOfZeroIsWhole | scheme_editor/scheme_evaluator.py:109 | `$right(s, 0)` is the whole text |
| SchemeLang.LeftRight | scheme_editor/scheme_evaluator.py:108-109 | for 0 <= k <= len, `$left` is the first k characters and `$right` (k > 0) the last k |
| SchemeLang.PadSpec | scheme_editor/scheme_evaluator.py:112-114 | `$pad(s, n, ch)` has exactly n characters: s filled with ch's first character, or s cut to n; an empty fill raises |
| SchemeLang.DateFunctions | scheme_editor/scheme_evaluator.py:128-130 | `$year`, `$month` and `$day` of a formatted date give its zero-padded fields |
| SchemeLang.DivByZeroIsZero | scheme_editor/scheme_evaluator.py:118-120 | `$div(x, y)` is "0" exactly when `to_num(y)` is zero, and a float result otherwise |
| SchemeLang.CloseParenFirst | scheme_editor/scheme_evaluator.py:13 | the call's ')' is the first one after the '(' and no newline comes before it |
| SchemeLang.CallArgText | scheme_editor/scheme_evaluator.py:13 | a call's argument text holds no ')' and no newline: it ends lazily at the first ')' |
| SchemeLang.EvalLoop | scheme_editor/scheme_evaluator.py:35-41 | the 20-pass loop with early exit equals `Eval` |
| SchemeLang.PassesStop | scheme_editor/scheme_evaluator.py:35-41 | a successful result is reached after some k <= n passes and is a fixed point of one more pass unless all n were used |
| SchemeLang.EvalStops | scheme_editor/scheme_evaluator.py:35-41 | `eval` makes at most 20 passes and stops at a fixed point unless it used all 20 |
| SchemeLang.FuncSubNoDollar | scheme_editor/scheme_evaluator.py:78 | text without '$' holds no call and passes through the call substitution unchanged |
| SchemeLang.PlainTextIsFixed | scheme_editor/scheme_evaluator.py:35-79 | text with neither '%' nor '$' is its own value after one pass and after `eval` |
| SchemeLang.LiteralArguments | scheme_editor/scheme_evaluator.py:71-75 | arguments without '%' or ')' evaluate to themselves |
| SchemeLang.NoCloseIsFixed | scheme_editor/scheme_evaluator.py:35-79 | text without '%' or ')' is its own value: no call can match |
| SchemePreview.SlashPathSpec | gui/scheme_editor.py:314 | a cleaned path holds no backslash, does not end in '/', and cleaning it again changes nothing |
| SchemePreview.CleanPathFixed | gui/scheme_editor.py:314 | a path without backslashes or a trailing '/' is left as it is |
| SchemePreview.JoinPreviewSpec | gui/scheme_editor.py:321-328 | an empty or "(root)" saving result (ignoring case) gives the folder result alone, an empty folder result the saving result, otherwise the two joined by one "/" |
| SchemePreview.FolderNameToken | gui/scheme_editor.py:314-318 | the folder result injected as "foldername" is what `%foldername%` reads back in the saving scheme |
| SchemePreview.PreviewSpec | gui/scheme_editor.py:308-330 | the saving scheme sees the cleaned folder result as `%foldername%`; the preview is the folder result under a root saving result, else the two joined |
| SchemePreview.PreviewClean | gui/scheme_editor.py:308-330 | every preview path is free of backslashes and has no trailing '/' |
| SchemePaths.SyncAddSpec | utils/scheme_evaluator.py:17-22 | present values are kept; when only one of add and additional is present the other receives its value; nothing else is added |
| SchemePaths.ExtendSpec | utils/scheme_evaluator.py:24-33 | currentfoldername is the last component of a non-empty current_folder, else the existing value, else ""; other keys keep their values |
| SchemePaths.TokenPassPlain | utils/scheme_evaluator.py:68 | text without '%' is copied unchanged by the token pass |
| SchemePaths.TokenPassAt | utils/scheme_evaluator.py:37-40 | a `%name%` token is replaced by the value under the lower-cased name, "" when missing or empty |
| SchemePaths.YearPassPlain | utils/scheme_evaluator.py:69 | text without '$' is copied unchanged by the year pass |
| SchemePaths.YearPassAt | utils/scheme_evaluator.py:42-50 | `$year(arg)` with a non-empty argument free of ')' is replaced by the year of that argument |
| SchemePaths.YearValueOfKey | utils/scheme_evaluator.py:43-47 | an argument naming a key (any case, with or without '%') gives the first four characters of its value, or "" when shorter |
| SchemePaths.BracketPassShape | utils/scheme_evaluator.py:59-63 | one pass never lengthens the text and leaves it unchanged iff no whitespace-only group starts anywhere in it |
| SchemePaths.CleanBracketsSpec | utils/scheme_evaluator.py:52-64 | the fixed point holds no whitespace-only group, text holding none is unchanged, and cleaning only shortens |
| SchemePaths.CleanBrackets | utils/scheme_evaluator.py:52-64 | the `while prev_text != curr_text` loop reaches `CleanBracketsFix` and stops at a text one more pass leaves unchanged |
| SchemePaths.CollapseNoDouble | utils/scheme_evaluator.py:71 | after collapsing, no two whitespace characters are adjacent |
| SchemePaths.CollapseFixed | utils/scheme_evaluator.py:71 | text without adjacent whitespace is left as it is |
| SchemePaths.EvalSchemeShape | utils/scheme_evaluator.py:66-71 | a scheme result has no whitespace at either end and none doubled |
| SchemePaths.EvaluatePathSpec | utils/scheme_evaluator.py:66-99 | folder result is stored as "foldername" first; the path is "" iff the folder result is ""; otherwise the folder result under a root or empty saving result, else saving/folder; no backslash survives |
| SchemePaths.FinishPath | utils/scheme_evaluator.py:94-99 | joining two evaluated schemes and replacing backslashes leaves nothing for the final strip |
| SchemePaths.Evaluate | utils/scheme_evaluator.py:16-109 | `evaluate`, step by step on a local copy of the metadata, equals `EvaluatePath` |
| MetadataMerge.DateRxSearch | utils/metadata_parser.py:49-50 | the album-date pattern's leftmost match: a span of at least eight characters inside the text |
| MetadataMerge.DateRxAt | utils/metadata_parser.py:49 | a match of the whole pattern at a position ends at least eight characters later, inside the text |
| MetadataMerge.TailEnd | utils/metadata_parser.py:49 | the optional separator and two digits ending at a word boundary end after their start, inside the text |
| MetadataMerge.AlbumDateShape | utils/metadata_parser.py:50-59 | the album date is "" or a real calendar date written YYYY-MM-DD |
| MetadataMerge.AlbumDateOfIso | utils/metadata_parser.py:41-59 | an album tag that starts with a YYYY-MM-DD date followed by the end or a non-word character yields that date |
| MetadataMerge.IsoPrefixKept | utils/metadata_parser.py:41 | turning '.' into '-' keeps an ISO date prefix and the boundary after it |
| MetadataMerge.AlbumDateOfMatch | utils/metadata_parser.py:52-58 | a match that is exactly an ISO date parses back to that same date |
| MetadataMerge.IsoMatchAtStart | utils/metadata_parser.py:49-50 | the pattern finds an ISO date at the start of the text, as the span 0..10 |
| MetadataMerge.FirstContainedSpec | utils/metadata_parser.py:66-70 | the city found is contained in the album ignoring case and no earlier list entry is; none is found exactly when no entry is contained |
| MetadataMerge.FirstVenueSpec | utils/metadata_parser.py:74-79 | the venue found is contained and differs from the chosen city ignoring case, and no earlier entry passes; none is found exactly when no entry passes |
| MetadataMerge.ParseAlbumFlexible | utils/metadata_parser.py:35-92 | the scanning loops compute exactly the album specification: five "" fields for an empty album, else the date, city, venue, source and format scans |
| MetadataMerge.ScanContained | utils/metadata_parser.py:67-70 | the loop stops at the first entry contained in the album, "" when there is none |
| MetadataMerge.ScanVenues | utils/metadata_parser.py:74-79 | the loop passes over entries equal to the city and stops at the first other contained venue |
| MetadataMerge.AlbumCodes | utils/metadata_parser.py:82-90 | the album's source and format are "" or entries of `DEFAULTS` for their key |
| MetadataMerge.NormalizeDateShape | utils/metadata_parser.py:113-130 | "" normalises to nothing, and every normalised date is a real calendar date written YYYY-MM-DD |
| MetadataMerge.NormalizeDateIso | utils/metadata_parser.py:116-118 | a date already written YYYY-MM-DD is its own normal form |
| MetadataMerge.DirectiveNeeded | utils/metadata_parser.py:121-129 | a format holding a directive that matches nowhere in the text never parses it |
| MetadataMerge.SpaceAbsent | utils/metadata_parser.py:121 | whitespace in a format matches nowhere in a text without whitespace |
| MetadataMerge.BareYearParses | utils/metadata_parser.py:116-126 | a four-digit year holds only digits, so of the seven formats only "%Y" reads it |
| MetadataMerge.BareYearNoSeparator | utils/metadata_parser.py:116-124 | "%Y-%m-%d", "%m/%d/%Y" and the three month-name formats fail on a bare year: it holds no '-', '/' or whitespace |
| MetadataMerge.BareYearNotCompact | utils/metadata_parser.py:121-124 | "%Y%m%d" fails on a bare year: no month follows the year digits |
| MetadataMerge.BareYearAlone | utils/metadata_parser.py:125-126 | "%Y" reads a bare year as January 1 of that year |
| MetadataMerge.BareYearFirstParse | utils/metadata_parser.py:116-129 | of the seven formats tried in order, the first to read a bare year is "%Y" |
| MetadataMerge.LetterStartFails | utils/metadata_parser.py:116-124 | "%Y-%m-%d", "%Y%m%d", "%m/%d/%Y" and "%d %b %Y" fail on a text that starts with a letter |
| MetadataMerge.NormalizeDateMonDayYear | utils/metadata_parser.py:113-130 | a date written "%b %d, %Y" (such as "May 05, 1995", the month in any letter case) normalises to the same date written YYYY-MM-DD |
| MetadataMerge.NormalizeDateYear | utils/metadata_parser.py:113-130 | a bare four-digit year normalises to that year's January 1 |
| MetadataMerge.KeyListed | utils/metadata_parser.py:171 | the folder loop visits every one of the nine keys |
| MetadataMerge.TxtKeyListed | utils/metadata_parser.py:190 | the text-file loop visits exactly artist, venue, city, date, source and format |
| MetadataMerge.MergeKeysFresh | utils/metadata_parser.py:171-190 | no key is visited twice, and the text-file keys are the first six of the folder loop's |
| MetadataMerge.AfterFolder | utils/metadata_parser.py:171-179 | every key holds the folder rule applied to its value and the folder-name value |
| MetadataMerge.AfterTxt | utils/metadata_parser.py:190-197 | the six text keys hold the text rule's value, every other key is unchanged |
| MetadataMerge.NonEmpty | utils/metadata_parser.py:206 | the kept candidates are non-empty and drawn from the list |
| MetadataMerge.FirstWhereSpec | utils/metadata_parser.py:208-219 | the scan returns the normal form of the first candidate that passes the test, and nothing only when none passes |
| MetadataMerge.FirstPreciseSpec | utils/metadata_parser.py:209-213 | the first scan finds the first candidate normalising to a date other than January 1, and nothing exactly when there is none |
| MetadataMerge.FirstNormalSpec | utils/metadata_parser.py:214-219 | the second scan finds the first candidate that normalises, and nothing exactly when none does |
| MetadataMerge.SelectDateSpec | utils/metadata_parser.py:199-222 | a non-January-1 date wins when one exists, else the first date that normalises; nothing is chosen exactly when no candidate normalises |
| MetadataMerge.WordAt | utils/metadata_parser.py:226 | a word found at a position is one of the alternatives |
| MetadataMerge.SourceWordSearch | utils/metadata_parser.py:226 | the search reports only one of aud, sbd, fm, dsbd, mtx, matrix |
| MetadataMerge.SourceWordsUpper | utils/metadata_parser.py:226-228 | the upper-cased forms of the six source words |
| MetadataMerge.SourceFallbackSpec | utils/metadata_parser.py:225-232 | the fallback changes only the source, only when it was empty, and only to a `DEFAULTS` source other than DSBD and MATRIX |
| MetadataMerge.FolderLoop | utils/metadata_parser.py:171-179 | the loop over the nine keys yields the folder-rule dictionary |
| MetadataMerge.TxtLoop | utils/metadata_parser.py:190-197 | the loop over the six keys yields the text-rule dictionary |
| MetadataMerge.SelectDateLoop | utils/metadata_parser.py:208-219 | the two scans with their breaks compute the date selection |
| MetadataMerge.MergeMetadata | utils/metadata_parser.py:133-234 | the whole merge equals its specification: initial dictionary, folder loop, text loop, date choice, source fallback |
| MetadataMerge.MergeSpecParts | utils/metadata_parser.py:199-232 | the date choice and the fallback change only the date and an empty source; every other key keeps its merged value |
| MetadataMerge.OtherKeysKept | utils/metadata_parser.py:221-230 | setting the date and then the source leaves the other seven keys as they were |
| MetadataMerge.MergePlaces | utils/metadata_parser.py:149-197 | artist, venue and city: the text-file value if non-empty, else the tag and album value, else the folder-name value |
| MetadataMerge.MergedKey | utils/metadata_parser.py:171-197 | each key after both loops is the folder rule, then for the six text keys the text rule |
| MetadataMerge.PlaceRule | utils/metadata_parser.py:178-197 | outside source and format, the two rules amount to text value, else current, else folder value |
| MetadataMerge.MergeFolderOnly | utils/metadata_parser.py:149-179 | genre comes from the file tags, else the folder; add and additional from the folder only; the text file never touches them |
| MetadataMerge.CodeSteps | utils/metadata_parser.py:172-194 | both loops keep a source or format empty or a `DEFAULTS` entry, and a `DEFAULTS` text value wins |
| MetadataMerge.MergeCodes | utils/metadata_parser.py:149-197 | merged source and format are "" or a `DEFAULTS` entry ignoring case, and a `DEFAULTS` text-file value always wins |
| MetadataMerge.MergeDate | utils/metadata_parser.py:199-222 | the date is the selected candidate when there is one, else text date, else tag and album date, else folder date |
| TxtParser.LastIndex | utils/txt_parser.py:65-80 | the position found is a line of the file |
| TxtParser.LastIndexSpec | utils/txt_parser.py:65-80 | the position found is that of the last line with the label, and there is none exactly when no line has it |
| TxtParser.LastIndexAppend | utils/txt_parser.py:65-80 | a labelled line in a later block of lines hides every earlier one |
| TxtParser.LastValueAppend | utils/txt_parser.py:65-80 | a labelled line in a later block decides the value |
| TxtParser.LastValueSnoc | utils/txt_parser.py:65-80 | one more line sets the value exactly when it carries the label |
| TxtParser.HasLabelCarries | utils/txt_parser.py:69-80 | a label is present in the lines exactly when some line carries it |
| TxtParser.LastLabelledSpec | utils/txt_parser.py:65-80 | a field is "" when no line has its label, else the stripped remainder of the last line that has it |
| TxtParser.LastLabelledAppend | utils/txt_parser.py:65-80 | a later labelled line overrides every earlier one |
| TxtParser.LastLabelledSnoc | utils/txt_parser.py:65-80 | one more line sets the field when it carries the label and leaves it otherwise |
| TxtParser.LabelPass | utils/txt_parser.py:64-80 | the first pass leaves each of artist, venue and city at the value of its last labelled line |
| TxtParser.KnownScanSpec | utils/txt_parser.py:83-110 | the list fallback is "" exactly when no line contains a known entry, else the first contained entry of the first line holding one |
| TxtParser.KnownScanNoList | utils/txt_parser.py:83 | with no known entries the fallback finds nothing |
| TxtParser.KnownFallback | utils/txt_parser.py:84-90 | the nested loops with their breaks compute the list fallback |
| TxtParser.FirstOccurringSpec | utils/txt_parser.py:114-117 | with non-empty codes, the result is "" exactly when none occurs, else the first code in list order that occurs |
| TxtParser.GuessSource | utils/txt_parser.py:113-117 | the loop finds the first of AUD, SBD, FM, DAT, MTX in the upper-cased base name |
| TxtParser.GuessedSource | utils/txt_parser.py:113-117 | the guessed source is "" exactly when no code occurs, else the first listed code that occurs |
| TxtParser.GuessFormatSpec | utils/txt_parser.py:120-127 | the format is FLAC16, FLAC24, MP3 or ""; "" exactly when none of "flac16", "flac24", "mp3" occurs, so plain "flac" gives no format |
| TxtParser.EmitAt | utils/txt_parser.py:130-139 | one key is present exactly when its value is non-empty, and holds that value |
| TxtParser.EmitSpec | utils/txt_parser.py:129-139 | every key is present exactly when its value is non-empty, and the dictionary is empty exactly when all five values are |
| TxtParser.ReadFields | utils/txt_parser.py:57-127 | the passes over one file compute its five values |
| TxtParser.BuildMetadata | utils/txt_parser.py:129-139 | the dictionary holds exactly the non-empty values |
| TxtParser.ExtractFile | utils/txt_parser.py:57-139 | one file's dictionary is built from its computed values |
| TxtParser.BeforeTransitive | utils/txt_parser.py:37 | the order of the stable descending sort is transitive |
| TxtParser.TxtFromSpec | utils/txt_parser.py:29 | the filter keeps exactly the names ending in ".txt" ignoring case, in listing order |
| TxtParser.InsertSpec | utils/txt_parser.py:37 | inserting a position into a sorted order keeps it sorted and adds exactly that position |
| TxtParser.SortedCons | utils/txt_parser.py:37 | a position ahead of every element of a sorted order can go in front of it |
| TxtParser.SortByLinesSpec | utils/txt_parser.py:37 | the sort is a permutation of the ".txt" positions, ordered by more lines first and listing order on ties |
| TxtParser.Parse | utils/txt_parser.py:10-148 | the loop over the sorted files returns the first non-empty dictionary, {} when listing fails, no ".txt" file exists or none yields |
| TxtParser.FirstYieldSpec | utils/txt_parser.py:39-148 | the result is {} exactly when no file in the order yields, else what the first yielding file gives |
| TxtParser.ParseChoice | utils/txt_parser.py:29-148 | the parse is {} exactly when no ".txt" file yields; else it is what a yielding ".txt" file gives that has at least as many lines as every other yielding one and comes first among equals |
| TxtParser.TxtOrder | utils/txt_parser.py:29-37 | the sorted order holds exactly the ".txt" positions, sorted |
| TxtParser.ChoiceInOrder | utils/txt_parser.py:39-148 | over any sorted order of exactly the ".txt" positions the first yield is the chosen file |
| TxtParser.ChosenFirst | utils/txt_parser.py:37-145 | a yielding file ahead of which nothing yields comes before every other yielding ".txt" file |
| TxtParser.NoneYields | utils/txt_parser.py:144-148 | when no file of the order yields, no entry yields at all |
| TxtParser.AllEmpty | utils/txt_parser.py:144-148 | when no entry yields, every file of the order gives {} |
| Processor.Pieces | utils/processor.py:66 | the split always yields at least one piece |
| Processor.PiecesSpec | utils/processor.py:66 | the pieces hold no ';' or ',', there is one more piece than separators, and together they spell the text without its separators |
| Processor.PiecesPrefix | utils/processor.py:66 | a leading run without separators stays at the front of the first piece |
| Processor.SplitGenresSpec | utils/processor.py:63-66 | every genre is stripped, non-empty and free of separators, and the genres are exactly the non-blank pieces, stripped |
| Processor.StripSubset | utils/processor.py:66 | stripping only removes characters |
| Processor.StripLeadingSpace | utils/processor.py:66 | a leading space makes no difference to stripping |
| Processor.CleanLinesHead | utils/processor.py:66 | pieces with the same stripped form clean the same way |
| Processor.SplitJoined | utils/processor.py:66 | clean, separator-free genres joined with "; " split back into the same list |
| Processor.GenresRoundTrip | utils/processor.py:63-66 | `_split_genres` undoes a "; " join of clean genres |
| Processor.NormalizeDateBlank | utils/processor.py:68-75 | the normalised date is "" exactly when the input is blank |
| Processor.NormalizeDateKeepsDay | utils/processor.py:68-75 | a date that parses as "%Y-%m-%d" still parses to the same day after normalising |
| Processor.NormalizeDateIso | utils/processor.py:71-73 | a date written YYYY-MM-DD is returned unchanged |
| Processor.PrecedenceSpec | utils/processor.py:122-131 | a non-empty GUI value wins and an empty one leaves the parsed value; "add" falls back to the parsed additional then add; the date is the preferred raw date, normalised |
| Processor.FieldPrecedence | utils/processor.py:125-131 | each field is the GUI value when non-empty, else the parsed value |
| Processor.AddHistorySpec | utils/processor.py:135-136 | one step touches only its key, and only by adding a non-empty value |
| Processor.RecordHistoriesSpec | utils/processor.py:133-136 | the histories gain exactly the non-empty source, format, genre and add values, and lose nothing |
| Processor.RecordHistoryAt | utils/processor.py:133-136 | the four steps written out record each key's value |
| Processor.AddAllEntries | utils/processor.py:134 | the loop over the four entries is the four steps in order |
| Processor.UpdateAssetSpec | utils/processor.py:77-102 | a blank value leaves the file alone; otherwise the stripped value is listed afterwards ignoring case, and a changed file is the value on top of the old lines |
| Processor.RecordSpec | utils/processor.py:138-152 | the caches grow by exactly the non-empty artist and the split genres; the last-used values are overwritten, even with "" |
| Processor.LastDot | utils/processor.py:196 | the index found holds the last '.', and no later character is one |
| Processor.AllDotsSpec | utils/processor.py:196 | the test holds exactly when every character in the range is '.' |
| Processor.SplitExtShape | utils/processor.py:196 | the base and extension make up the name, and a non-empty extension is a '.' followed by no '.' or '/' |
| Processor.SplitExtWhen | utils/processor.py:196 | there is an extension exactly when the last path component has a '.' preceded by a non-dot of that component |
| Processor.SplitExtHasDot | utils/processor.py:196 | a last dot after a non-dot of the last component means an extension |
| Processor.NotAllDots | utils/processor.py:196 | a range that is not all dots holds a non-dot |
| Processor.AllDotsAt | utils/processor.py:196 | every position of an all-dots range holds '.' |
| Processor.SplitExtCond | utils/processor.py:196 | the extension is split off exactly when the last dot lies in the last component after one of its non-dots |
| Processor.SplitExtNoDot | utils/processor.py:196 | otherwise there is no inner dot |
| Processor.CandidateInjective | utils/processor.py:199 | different counters give different names |
| Processor.TriedFresh | utils/processor.py:197-203 | a later counter gives a name not tried yet |
| Processor.TriedGrows | utils/processor.py:197-203 | trying a name the folder holds leaves fewer of its names untried, so the loop ends |
| Processor.AllTakenStep | utils/processor.py:198-203 | every name tried so far is taken |
| Processor.FreeName | utils/processor.py:195-203 | the destination is the file's own name or the first `base(n)ext` with n from 1 that the folder does not hold, and every earlier candidate is taken |
| Processor.MovesOkStep | utils/processor.py:189-214 | one more move keeps every move placed in the folder as the earlier moves left it |
| Processor.AfterChainStep | utils/processor.py:189-214 | the folder after one more move continues the chain of folder states |
| Processor.MoveOne | utils/processor.py:191-214 | one file gets the first free name in the folder as the earlier moves left it |
| Processor.MoveFiles | utils/processor.py:188-214 | every file is placed at the first free name and the run succeeds exactly when no move fails |
| Processor.FolderGrows | utils/processor.py:189-214 | the folder only grows, and a moved file stays there for the later moves |
| Processor.MovesDistinct | utils/processor.py:189-214 | no moved file lands on a name the folder held before, and no two successful moves share a destination |
| Processor.GenreTag | utils/processor.py:253 | the tag joins with "; " the distinct stripped non-empty genres in sorted order |
| Processor.GenreTagReadBack | utils/processor.py:210-253 | a genre tag built from split genres reads back as the sorted distinct genres |
| Processor.PutSpec | utils/processor.py:242-257 | one assignment changes only its own tag, and only when it has a value |
| Processor.Overlay1Spec | utils/processor.py:242-249 | the first four assignments (artist, album, date, venue) set exactly their non-empty values and leave every other tag as it was |
| Processor.Overlay2Spec | utils/processor.py:250-257 | the last four assignments (location, genre, source, comment) set exactly their non-empty values and leave every other tag as it was |
| Processor.OverlaySpec | utils/processor.py:242-257 | every written tag holds its value and every other tag is as it was |
| Processor.ApplyTags | utils/processor.py:242-257 | the tags after the assignments, with the genre tag built from the sorted distinct genres, and whether the tag format accepted every key written |
| Processor.Retag | utils/processor.py:228-262 | nothing is written to a file that is neither ".flac" nor ".mp3"; for one that is, the tags are overlaid and "Tagged" is logged exactly when every written key is accepted (EasyID3 refuses venue, location, source and comment) and the save succeeds; otherwise the file keeps its old tags |
| Processor.Metas | utils/processor.py:108-131 | one set of values per folder, each GUI-over-parsed |
| Processor.ProcessedSpec | utils/processor.py:104-226 | a folder is listed exactly when one of its runs evaluates and moves without failure, and there are never more entries than runs |
| Processor.SomeRunOfSnoc | utils/processor.py:220-222 | a successful run is in the list or in the last run |
| Processor.RecordHistories | utils/processor.py:133-136 | the history loop yields the four steps applied in order |
| Processor.AddGenres | utils/processor.py:141-143 | the genre cache gains exactly the split genres |
| Processor.RecordBooks | utils/processor.py:133-157 | the bookkeeping updates for one folder equal the recording function |
| Processor.RecordAllStep | utils/processor.py:108-157 | recording one more folder extends the record of the earlier ones |
| Processor.ProcessedStep | utils/processor.py:220-222 | the list grows by one folder exactly when its run succeeds |
| Processor.MoveFolder | utils/processor.py:188-214 | the run succeeds exactly when none of its moves fails |
| Processor.Processor.constructor | utils/processor.py:14-50 | the processor starts with the given caches, histories, last-used values and asset files |
| Processor.Processor.RecordFolder | utils/processor.py:133-157 | the fields become the recorded bookkeeping for one folder |
| Processor.Processor.SetState | utils/processor.py:133-157 | every field takes the given value |
| Processor.Processor.ProcessFolders | utils/processor.py:104-226 | every folder's values are recorded, evaluated or not, and the result lists in order the folders that evaluate and move without failure |
| ProcessThread.FallbackValueSpec | utils/process_thread.py:102-109 | the value is the stripped metadata value when that is not blank, else the stripped form value when that is not blank, else the stripped last-used value, else "" |
| ProcessThread.Zeros | utils/process_thread.py:95-96 | the padding is exactly `k` zeros |
| ProcessThread.ZerosValue | utils/process_thread.py:95-96 | leading zeros keep a digit string a digit string of the same value |
| ProcessThread.ZFillDigits | utils/process_thread.py:95-96 | zfill of a digit string gives a digit string of at least the width with the same value, and keeps one already that wide |
| ProcessThread.ZFillNat | utils/process_thread.py:95-96 | zfill of a number's decimal form is the number padded with zeros |
| ProcessThread.FallbackDateSpec | utils/process_thread.py:92-100 | a non-blank metadata date is kept unstripped; otherwise the date is "" exactly when the year field is empty or not all digits, and else it is the year, '-', and the two-digit month and day |
| ProcessThread.TwoDigitsNat | utils/process_thread.py:95-96 | a month or day typed as a number becomes its two-digit form |
| ProcessThread.FourDigitYear | utils/process_thread.py:97-98 | a four-digit year is written as typed |
| ProcessThread.FallbackDateIso | utils/process_thread.py:92-100 | year, month and day typed as numbers give the ISO 8601 calendar date, which the processor's date normalisation keeps unchanged |
| ProcessThread.FolderFallbacksFields | utils/process_thread.py:111-122 | each text field is the fallback of its metadata value ("additional" or else "add" for add), form value and last-used value |
| ProcessThread.FolderFallbacksSpec | utils/process_thread.py:111-122 | every text field is stripped and follows metadata, then form, then last-used; venue and city have no last-used value; the folder name holds no '/' |
| ProcessThread.ValuesForSnoc | utils/process_thread.py:127-130 | one more entry adds its stripped value to its own key only |
| ProcessThread.UnknownSnoc | utils/process_thread.py:127-130 | one more entry raises `KeyError` exactly when its value is not blank and its key is missing |
| ProcessThread.AddAllStrippedSpec | utils/process_thread.py:126-130 | the loop fails exactly when a non-blank value has a key the histories lack; otherwise every key gains exactly the stripped non-blank values given for it, and no key is added |
| ProcessThread.AddedAllStep | utils/process_thread.py:127-130 | one more visit keeps the loop's specification |
| ProcessThread.AddAllAppend | utils/process_thread.py:127-130 | visiting one list and then another is visiting them joined |
| ProcessThread.NoneStays | utils/process_thread.py:127-130 | after a `KeyError` the rest of the loop does not run |
| ProcessThread.AddEach | utils/process_thread.py:127-130 | the loop of `histories[key].add` calls, `None` when one raises `KeyError` |
| ProcessThread.ValuesForUnique | utils/process_thread.py:127-130 | a key listed once contributes exactly its own stripped value |
| ProcessThread.ValuesForAbsent | utils/process_thread.py:127-130 | a key not listed contributes nothing |
| ProcessThread.KeyOfInjective | utils/process_thread.py:74-82 | different fields have different history keys |
| ProcessThread.FormEntriesLayout | utils/process_thread.py:74-82 | the form loop lists each field once, under its own key |
| ProcessThread.FallbackEntriesLayout | utils/process_thread.py:127 | the fallback loop lists each field once, under its own key |
| ProcessThread.AddOnePerField | utils/process_thread.py:127-130 | one entry per field never fails when every key exists, and each key gains the stripped value of its entry |
| ProcessThread.CaptureForm | utils/process_thread.py:73-87 | with every key present the form capture cannot fail, and each key gains its stripped form value ("format" read from `fmt`) when non-blank |
| ProcessThread.CaptureFallbacks | utils/process_thread.py:126-130 | with every key present the fallback capture cannot fail, and each key gains the field's value when non-empty |
| Queue.NormalizePathSpec | utils/queue_manager.py:161-169 | normalising keeps the length and every character but the backslashes, leaves none of them, is "" only for "", and is idempotent |
| Queue.WithoutSpec | utils/queue_manager.py:59-63 | removal keeps the elements outside the removed values, each as often as before, in order |
| Queue.RemoveFirstNoDuplicates | utils/queue_manager.py:62 | on a queue without duplicates, `list.remove` of the first occurrence removes the value entirely |
| Queue.WithoutNone | utils/queue_manager.py:74 | removing values that are not queued changes nothing |
| Queue.WithoutWithout | utils/queue_manager.py:59-63 | removing one set of values and then another removes both |
| Queue.AddedSpec | utils/queue_manager.py:39-49 | adding keeps the queue consistent; a new non-empty path goes last with its metadata; a queued or empty path changes nothing |
| Queue.RemovedFolderSpec | utils/queue_manager.py:73-78 | removing a folder drops it from the list and the metadata and keeps everything else |
| Queue.RemovedSelectedSpec | utils/queue_manager.py:55-64 | removing the selection drops exactly the selected ids from both, keeps the others in order, and keeps the queue consistent |
| Queue.RemovedTwice | utils/queue_manager.py:59-63 | two removals in a row are one removal of both |
| Queue.RemovedProcessedSpec | utils/process_thread.py:148-152 | the clean-up removes exactly the processed folders from both and keeps every other folder and its metadata, as a removal of the selection would |
| Queue.LookupSpec | utils/queue_manager.py:158-159 | a path is looked up under its normalised form, so both spellings agree; a newly added path yields the metadata given |
| Queue.QueueManager.constructor | utils/queue_manager.py:15-16 | the queue starts empty and consistent |
| Queue.QueueManager.Add | utils/queue_manager.py:39-49 | the new state is the addition specification, and consistency is kept |
| Queue.QueueManager.RemoveSelected | utils/queue_manager.py:55-64 | the loop over the selection yields the removal specification, and consistency is kept |
| Queue.QueueManager.RemoveFolder | utils/queue_manager.py:73-78 | the new state is the folder-removal specification, and consistency is kept |
| Queue.QueueManager.Clear | utils/queue_manager.py:84-85 | both the list and the metadata are emptied |
| Queue.QueueManager.GetMetadata | utils/queue_manager.py:158-159 | non-empty metadata is only found for a queued path |
| Queue.QueueManager.GetAllQueued | utils/queue_manager.py:146 | each queued folder once, in queue order, exactly those with metadata |
| Queue.QueueManager.RemoveProcessed | utils/process_thread.py:148-152 | the loop yields the processed-removal specification, and consistency is kept |
| Cache.UpdateUsedCacheSpec | utils/cache_manager.py:36-44 | with both values non-empty the artist now maps to the genre and every other artist and top-level key is unchanged; otherwise nothing changes |
| Cache.LoadUsedCacheSpec | utils/cache_manager.py:8-21 | the loaded cache always has "artists"; a parsed cache keeps its other keys and its artists; a missing or unreadable file gives just an empty "artists" |
| Cache.UsedCacheReload | utils/cache_manager.py:24-44 | a cache saved after an update and loaded again remembers the artist's genre |
| Cache.HistoriesAfterLoadSpec | utils/cache_manager.py:47-70 | each file key other than artist, city and venue holds exactly its non-empty values; every other key is as it was; a missing file empties every key; an unreadable one changes nothing |
| Cache.LoadedFromStep | utils/cache_manager.py:52-60 | reading one more key replaces it by its non-empty values unless it is skipped |
| Cache.ReadHistories | utils/cache_manager.py:47-70 | the histories after loading equal the load specification for a missing, unreadable or parsed file |
| Cache.ReadKeys | utils/cache_manager.py:52-60 | the loop over the file's keys, in any order, reads every key |
| Cache.ReadKey | utils/cache_manager.py:53-60 | one pass reads one more key |
| Cache.DedupSpec | utils/cache_manager.py:85-100 | the list holds every non-empty value once and nothing else |
| Cache.DedupPrefix | utils/cache_manager.py:85-100 | values appended later never disturb the list built so far |
| Cache.DedupClean | utils/cache_manager.py:85-100 | a list already free of duplicates and empty values is kept as it is |
| Cache.DedupSkipEmpty | utils/cache_manager.py:88 | an empty value in front is skipped |
| Cache.DedupSnoc | utils/cache_manager.py:97-100 | one more value is appended exactly when it is non-empty and not yet listed |
| Cache.AddNew | utils/cache_manager.py:97-100 | one pass appends and records the value when it is non-empty and unseen |
| Cache.AppendNew | utils/cache_manager.py:92-100 | the loop extends the deduplicated list by the new values and keeps the seen set equal to the list's elements |
| Cache.SavedListSpec | utils/cache_manager.py:73-102 | each written list holds every non-empty history value, default and last-used value once; a non-empty last-used value comes first and the defaults follow in their own order |
| Cache.SaveHistoryData | utils/cache_manager.py:73-102 | one list per history key, each the last-used, defaults, sorted-history list |
| Cache.UnionUpdate | utils/cache_manager.py:201-203 | recording a value in the result also records it as last used |
| Cache.UiValuesSpec | utils/cache_manager.py:197-201 | a key is captured exactly when its listed attribute exists and is not blank, and then holds the stripped text |
| Cache.UiValuesAbsent | utils/cache_manager.py:186-205 | a key not listed is never captured |
| Cache.FormatNeverCaptured | utils/cache_manager.py:193 | as written, a form without a `format` attribute never yields a format |
| Cache.FormatCapturedIntended | utils/cache_manager.py:187-201 | read from `fmt`, the format is captured exactly when the form holds a non-blank one |
| Cache.ControllerListSpec | utils/cache_manager.py:223-237 | each list holds exactly the history's values once each; a last-used value in the history comes first and the rest is sorted ignoring case |
| Cache.ControllerRoundTrip | utils/cache_manager.py:47-60 | the controller's saved list, loaded again, gives back a history holding no empty value |
| Cache.OrderedHistory | utils/cache_manager.py:224-237 | the list written for one key is the controller list: the stripped last-used value first when the history holds it, then the other values sorted ignoring case, each once |
| Cache.CacheController.constructor | utils/cache_manager.py:116-126 | the controller holds the given histories, used cache and GUI |
| Cache.CacheController.LoadHistory | utils/cache_manager.py:136-157 | the histories become the load specification; nothing else changes |
| Cache.CacheController.SetLastUsedValue | utils/cache_manager.py:159-177 | only with a GUI and only for the seven keys is the last-used value set |
| Cache.CacheController.GetCurrentUiValues | utils/cache_manager.py:179-205 | the result is {} without a GUI, else each of the seven keys whose widget (the format read from `fmt`) holds non-blank text, stripped; each captured value also becomes last used and nothing else changes |
| Cache.CacheController.SaveHistory | utils/cache_manager.py:207-237 | the seven lists written, each the controller list of its history and last-used value |
| Cache.CacheController.LoadUsedCacheInto | utils/cache_manager.py:248-253 | the used cache becomes the loaded cache, which always replaces the old one |
| Cache.CacheController.UpdateUsedCacheWithUi | utils/cache_manager.py:258-271 | with a GUI and both widgets, the stripped artist and genre update the used cache; otherwise nothing changes |
| Combobox.Layered | utils/combobox_utils.py:64-91 | the four appending loops give a list without repeats or empties holding exactly the non-empty values of their parts, each part's list extending the one before |
| Combobox.LastFirst | utils/combobox_utils.py:64-66 | a non-empty last-used value stays in front |
| Combobox.ComboListSpec | utils/combobox_utils.py:42-91 | each list holds every non-empty value of last used, base list, cache and history exactly once and nothing else; a non-empty last-used value comes first, then the base list in its own order, then the cache |
| Combobox.BaseListOrder | utils/combobox_utils.py:48-53 | with no last-used value, a clean asset list is the front of its combobox list, in its own order |
| Combobox.UpdateComboboxValues | utils/combobox_utils.py:3-95 | exactly the keys with a combobox get a list, and each gets its key's specified list |
| Combobox.BuildAll | utils/combobox_utils.py:41-95 | the loop over the keys assigns a list to exactly the keys that have a combobox, each its key's specified list |
| Combobox.BuildList | utils/combobox_utils.py:44-91 | the loops for one key build its specified list |
| PresetStore.InitialSpec | scheme_editor/preset_manager.py:14-25 | the file written when none exists is well formed and holds one preset, "Default", with the default saving and folder schemes |
| PresetStore.PutSpec | scheme_editor/preset_manager.py:42-54 | after an assignment the name is present and yields exactly the stripped pair; the section order changes only by a new name going last |
| PresetStore.PutOthers | scheme_editor/preset_manager.py:46-49 | every other name stays present or absent as before and keeps its schemes, unless `DEFAULT` was the one rewritten |
| PresetStore.AppendSectionValid | scheme_editor/preset_manager.py:46-52 | a new section appended keeps the names unique and the store well formed |
| PresetStore.PutDefaultKeepsFull | scheme_editor/preset_manager.py:46-49 | rewriting `DEFAULT` leaves every section that sets both schemes itself as it was |
| PresetStore.RemoveSpec | scheme_editor/preset_manager.py:56-64 | removing a named section takes it out of the order and the store and leaves everything else; an unknown name changes nothing |
| PresetStore.RemoveDefaultSection | scheme_editor/preset_manager.py:60-61 | `DEFAULT` is always present and removing it changes nothing |
| PresetStore.FirstMatchFromSpec | scheme_editor/preset_manager.py:69-73 | the search from a position finds the first later section holding both schemes, and nothing exactly when there is none |
| PresetStore.FirstMatchSpec | scheme_editor/preset_manager.py:66-73 | the first preset in file order holding both schemes, `None` exactly when none does |
| PresetStore.FindMatching | scheme_editor/preset_manager.py:69-73 | the loop over the sections computes the first match |
| PresetManager.PresetManager.constructor | scheme_editor/preset_manager.py:5-25 | a missing file is created holding the default preset; an existing one is read as it is |
| PresetManager.PresetManager.LoadPresets | scheme_editor/preset_manager.py:27-30 | the preset names in file order, each once, exactly the present names other than `DEFAULT` |
| PresetManager.PresetManager.GetPreset | scheme_editor/preset_manager.py:32-40 | both schemes ("" for a missing option) exactly for a present name, `None` otherwise |
| PresetManager.PresetManager.AddPreset | scheme_editor/preset_manager.py:42-54 | the file becomes the assignment of the stripped schemes to the name, and stays well formed |
| PresetManager.PresetManager.RemovePreset | scheme_editor/preset_manager.py:56-64 | the file becomes the removal of the name, and stays well formed |
| PresetManager.PresetManager.FindMatchingPreset | scheme_editor/preset_manager.py:66-73 | the first preset in file order holding both schemes |
| SchemePresets.SchemePresets.constructor | gui/scheme_presets.py:5-19 | a missing file is created holding the default preset; an existing one is read as it is |
| SchemePresets.SchemePresets.LoadPresets | gui/scheme_presets.py:21-24 | the preset names in file order, each once, without `DEFAULT` |
| SchemePresets.SchemePresets.GetPreset | gui/scheme_presets.py:26-31 | both schemes of a present name, ("", "") for an unknown one |
| SchemePresets.SchemePresets.AddPreset | gui/scheme_presets.py:33-44 | an existing name is refused unless `overwrite` is set; a write happens exactly when the result is true |
| SchemePresets.SchemePresets.RemovePreset | gui/scheme_presets.py:46-54 | reports whether the name was present, and the file becomes its removal |
| SchemePresets.SchemePresets.FindMatchingPreset | gui/scheme_presets.py:56-63 | the first preset in file order holding both schemes |
| Rename.TrackLine | utils/rename_manager.py:178-194 | a matching line yields its track code (characters 4 to 8) and the name after " - " |
| Rename.TotalDiscs | utils/rename_manager.py:198 | the disc count is at least 1, and the header count when that is positive |
| Rename.StepNumbered | utils/rename_manager.py:180-196 | reading one line keeps the tracks numbered from 1 within each disc |
| Rename.HeaderNumbered | utils/rename_manager.py:185-188 | a header opens a new disc with no tracks yet |
| Rename.TrackNumbered | utils/rename_manager.py:191-196 | a track line adds the next track of the current disc |
| Rename.ScanNumbered | utils/rename_manager.py:175-196 | the tracks read from any lines are numbered from 1 within each disc, discs never decreasing |
| Rename.ScanContents | utils/rename_manager.py:175-196 | the tracks are exactly the track lines in order, each on the disc counted by the headers before it, and the disc counter ends at the number of headers |
| Rename.Renamed | utils/rename_manager.py:134-145 | renaming keeps the number of rows |
| Rename.RenamedStep | utils/rename_manager.py:135-145 | visiting one more row relabels and retitles it exactly when its title differs |
| Rename.SaveSpec | utils/rename_manager.py:125-167 | the save does nothing exactly when the counts differ; it completes exactly when every entry has a row; a completed save shows every entry's title; at most one tag write per entry |
| Rename.RenamedSpec | utils/rename_manager.py:134-145 | every visited row shows its entry's title; a row that already matched is untouched; a changed row is labelled disc.track from the tracklist, else 1.(i+1); unvisited rows are unchanged |
| Rename.RenamedIdempotent | utils/rename_manager.py:134-165 | saving the same entries again changes no row and attempts no tag write |
| Rename.NoAttempts | utils/rename_manager.py:137 | rows whose titles already match draw no tag writes |
| Rename.Changed | utils/rename_manager.py:137 | the number of the first rows whose title differs is at most their count |
| Rename.AttemptsCount | utils/rename_manager.py:137-165 | one tag write is attempted per renamed row |
| Rename.SaveRows | utils/rename_manager.py:134-165 | the loop's rows, tag writes and outcome are those of the save specification |
| Rename.SaveOne | utils/rename_manager.py:135-165 | one pass keeps the rows and tag writes equal to the specification one row further |
| Rename.Overwritten | utils/rename_manager.py:212-219 | the entries keep their number, entry i showing tracklist name i wherever both exist |
| Rename.ImportThenSave | utils/rename_manager.py:106-167 | after an import and a save, every covered row shows the tracklist's name, and a changed row is labelled with the tracklist's disc and track |
| Rename.Titles | utils/rename_manager.py:59-73 | one entry per row, holding its title |
| Rename.RenameManager.constructor | utils/rename_manager.py:8-19 | no window, no entries, no tracklist, one disc |
| Rename.RenameManager.OpenRenameWindow | utils/rename_manager.py:21-73 | an open window is kept as it is; otherwise the window opens with one entry per row holding its title |
| Rename.RenameManager.LoadTxtTracklist | utils/rename_manager.py:169-203 | the loop reads the specified tracks and disc count; an unreadable file gives no tracks and one disc |
| Rename.RenameManager.SaveChanges | utils/rename_manager.py:125-167 | the rows and tag writes are the save specification, and only a completed save closes the window |
| Rename.RenameManager.UpdateRenameWindow | utils/rename_manager.py:205-223 | with an open window and entries, entry i shows tracklist name i; otherwise nothing changes |
| Console.SkipNonAscii | utils/logger.py:91 | the leading non-ASCII run is dropped: the text never grows, and shrinks when it starts with a non-ASCII character |
| Console.SanitizeMessageForConsole | utils/logger.py:65-91 | the loop over the table and the final substitution compute the sanitised message |
| Console.CollapseAscii | utils/logger.py:91 | every character of the substituted text is ASCII |
| Console.CollapseKeepsAscii | utils/logger.py:91 | ASCII text is left as it is |
| Console.SkipAppend | utils/logger.py:91 | a run stops inside text that ends in an ASCII character |
| Console.CollapseAppend | utils/logger.py:91 | text ending in an ASCII character is substituted independently of what follows |
| Console.SkipRun | utils/logger.py:91 | a non-ASCII run followed by an ASCII character or the end is skipped whole |
| Console.RunBecomesOneMark | utils/logger.py:91 | each maximal non-ASCII run between ASCII neighbours becomes exactly one '?' and the text around it is substituted independently |
| Console.CollapseRun | utils/logger.py:91 | a leading non-ASCII run becomes one '?' |
| Console.ReplaceConcat | utils/logger.py:88 | replacing in joined text is replacing in each part |
| Console.ReplaceAbsent | utils/logger.py:88 | replacing an absent character changes nothing |
| Console.ReplaceSelf | utils/logger.py:83-84 | a character replaced by itself changes nothing |
| Console.LookupSnoc | utils/logger.py:87-88 | one more table entry applied to a spelling gives its spelling under the longer table |
| Console.MapCharsSnoc | utils/logger.py:87-88 | one more entry applied to the mapped text maps it under the longer table |
| Console.ApplyAllIsMap | utils/logger.py:87-88 | applying an independent table entry by entry is the same as spelling each character from the table |
| Console.MapCharsEmpty | utils/logger.py:87-88 | an empty table changes nothing |
| Console.ReplacementsIndependent | utils/logger.py:69-85 | the table's keys differ and no spelling holds another key, so the order of the replacements does not matter |
| Console.LookupAscii | utils/logger.py:69-85 | the table spells every ASCII character as itself |
| Console.LookupSkip | utils/logger.py:69-85 | entries for other characters are passed over |
| Console.MapCharsAscii | utils/logger.py:87-88 | ASCII text is unchanged by the table |
| Console.SanitizedSpec | utils/logger.py:65-91 | the message is each character's table spelling put through the run substitution, and the result is all ASCII |
| Console.SanitizedAscii | utils/logger.py:65-91 | an all-ASCII message comes back unchanged |
| GuiLogger.TagFor | utils/gui_logger.py:26 | a non-empty tag is used, and the level when the tag is empty or missing |
| GuiLogger.RenderedAppend | utils/gui_logger.py:36-51 | flushing two pending lists one after the other shows what flushing them together shows |
| GuiLogger.RenderedNoDebug | utils/gui_logger.py:36-51 | a list without debug messages shows one line per entry, in the same order, each the message plus a newline under its tag |
| GuiLogger.RenderedNoDebugLines | utils/gui_logger.py:36-51 | every line shown comes from a non-debug entry |
| GuiLogger.GuiLogger.constructor | utils/gui_logger.py:9-11 | no widget, nothing pending, nothing sent |
| GuiLogger.GuiLogger.Attach | utils/gui_logger.py:13-15 | attaching a widget writes out everything pending and clears the list; attaching none keeps it |
| GuiLogger.GuiLogger.Log | utils/gui_logger.py:17-34 | every message goes to the backend; a debug message goes no further; otherwise it is written at once with a widget and held back without one |
| GuiLogger.GuiLogger.FlushPending | utils/gui_logger.py:36-51 | with a widget the pending non-debug messages are written in order and the list is cleared; without one nothing changes |
| GuiLogger.GuiLogger.Buffer | utils/gui_logger.py:53-55 | a non-debug message is held back even with a widget; nothing is sent |
| GuiLogger.GuiLogger.Flush | utils/gui_logger.py:57-58 | the same as flushing the pending list |
| GuiLogger.LogThenAttach | utils/gui_logger.py:13-51 | messages logged before a widget exists end up in it as their non-debug lines in order, and all reach the backend |
| GuiLogger.AttachThenLog | utils/gui_logger.py:13-34 | the same messages logged after attaching give the same widget content and backend record |
| FileUtils.CleanLinesSpec | utils/file_utils.py:10 | the loaded lines are stripped and non-empty, each comes from a line of the file, and every non-blank line of the file is loaded |
| FileUtils.CleanLinesOfClean | utils/file_utils.py:10 | lines that are already stripped and non-empty load unchanged |
| FileUtils.NormalizeIdempotent | utils/file_utils.py:12-14 | normalising twice gives what normalising once does |
| FileUtils.LowerKeepsSpace | utils/file_utils.py:14 | lower-casing keeps whitespace where it is, so stripping and lower-casing commute |
| FileUtils.UpdatedLinesSpec | utils/file_utils.py:16-36 | nothing is written exactly when the stripped value is blank or already listed ignoring case; otherwise the value goes on top of the file's clean lines and is then listed |
| FileUtils.UpdatedLinesReload | utils/file_utils.py:25-36 | loading what was written gives back the same lines |
| FileUtils.UpdateTwiceNoop | utils/file_utils.py:16-36 | adding the same value a second time writes nothing |
| DirWalk.WalkStep | utils/processor.py:273-295 | as written: an empty folder other than the stop folder is removed and the walk goes on from its parent |
| DirWalk.CruftBlocksWalk | utils/processor.py:280-293 | as written: a folder holding only ignored names ends the walk with nothing removed, because `os.rmdir` refuses it |
| DirWalk.CruftExample | utils/processor.py:280-293 | a show folder holding only ".DS_Store": the walk as written removes nothing, the intended walk removes the show folder |
| DirWalk.CleanupWalk | utils/processor.py:264-295 | the loop computes the intended walk: the removed folders in order and the tree after it |
| DirWalk.WalkShape | utils/processor.py:273-295 | the removed folders form a chain from the start folder up through its parents; each was a directory, none is the stop folder, and exactly they are gone |
| DirWalk.IntendedRemovesCruftOnly | utils/processor.py:280-289 | a folder that is empty or holds only ignored names, other than the stop folder, is removed first |
| DirWalk.WalksAgree | utils/processor.py:273-295 | where no folder holds an ignored name, the walk as written and the intended walk agree |
| DirWalk.RemoveKeepsCruftFree | utils/processor.py:288 | removing a folder adds no ignored name anywhere |

## Left out

- I/O is not modelled: file reads and writes, JSON and configparser parsing, `os.listdir`, `os.walk`, `os.makedirs`, `shutil.move` and mutagen tag reads and writes. Their contents and outcomes are parameters, and what would be written is returned as a value.
- Tk widgets are not modelled: view state, `config`/`see`, Treeview value conversion, widget truthiness and `TclError` paths. A widget is its text, a selection is a parameter, and GUI refreshes after an operation are not modelled.
- Python's regular-expression engine is not modelled. The pattern tables are abstract ordered matchers, and each small fixed expression is written out by hand.
- Unicode case mapping is left out. `upper`, `lower`, `title`, `\w`, `\d` and `isdigit` are ASCII only, and `re.IGNORECASE` is ASCII case folding.
- Ties in `sorted(..., key=str.lower)` between strings with the same lower-cased form are broken by code point. Python keeps set iteration order there, and that order depends on string hashing.
- Sets that the source iterates in hash order (the history sets read by `update_combobox_values`, `KNOWN_FORMATS` in the older parser, and the order of equal-length formats in `sorted(KNOWN_FORMATS, key=len, reverse=True)`) are parameters holding that order.
- Floating-point arithmetic is left out. `$add`, `$sub`, `$mul` and a `$div` by a non-zero number give the `FloatResult` failure, because their results are `str(float)` renderings.
- SchemeLang.ToNum: reads a numeral as its exact decimal value, where `float()` rounds to the nearest double. `$lt` and `$gt` of numerals with more than about 15 significant digits can therefore differ from the source, which may see two different numerals as equal.
- `$datetime()` is not modelled as a clock read: the clock reading is the `clock` parameter.
- Nesting of `eval` inside argument evaluation is bounded by a `fuel` parameter that stands for Python's recursion limit. Running out of fuel gives `RecursionLimit`.
- `TOKENS` and `SAMPLE_METADATA` (scheme_editor/scheme_evaluator.py:138-158) are menu and preview data: the preview takes its metadata as a parameter.
- `try_parse_date` (utils/metadata_parser.py:10-32) is not called by the merge.
- `%b` and `%B` are modelled with the English month names of the C locale. The program never calls `setlocale`, so that is the locale `strptime` uses unless the environment sets another.
- Dates.IsoFormat: pads a year below 1000 to four digits ("0995"). `strftime("%Y")` on glibc writes such a year without padding ("995"), so for those years the written date differs, and the lemmas about written dates hold for the padded form only.
- `Processor.update_schemes` (utils/processor.py:52-61) is not modelled: it builds a new evaluator and logs, and the evaluator is the `evaluate` parameter of the batch run.
- `_update_txt_file` failures to read or write the file are not modelled: the file is given by its lines and the new lines are returned.
- JSON files of shapes other than the modelled maps are not modelled. Neither is a partial update when `load_history` raises part way through its loop; an unreadable file is modelled as a whole.
- Three details of the configparser file syntax are not modelled: section names holding `]` or line breaks, values spanning several lines, and the case of `DEFAULT`. The store is an ordered map of sections.
- pathlib and `os.path` normalisation (`abspath`, `normcase`, duplicate slashes) is left out. Paths are joined as saving + "/" + folder.
- The `process_thread` function (utils/process_thread.py:31-176) is modelled in its parts only: the fallback values and dates, the history updates, the queue clean-up and the folder walk. Two of its lines would raise: line 37 calls `Processor()` without the arguments its constructor requires when the GUI has no processor yet, and line 157 reads `processor.last_add`, which `Processor` never sets. The `root.after` hand-off back to the GUI thread is not modelled either.
- Only the attempts of `save_changes` tag writes are recorded: whether mutagen succeeds and the basename column of the rename window are not modelled.
- The log callbacks and the backend logger are left out. Messages handed to the backend are kept only as a record in `GuiLogger`.
- Exceptions raised by a widget insert and swallowed by `GuiLogger` are not modelled.
- TagForge.WalkThroughGui.LoadHistoryCache: a read that fails after some histories were already replaced (a later key holding a value `set()` cannot take) is modelled as a read that changes nothing.
- The `tag=` keyword that utils/scheme_evaluator.py:106 passes to a logger that does not accept it is left out. Only the returned path is modelled.

## Findings

| source | as written | input that shows it | evidently intended | confidence | as-written member | corrected member |
|---|---|---|---|---|---|---|
| utils/processor.py:280-293 | the loop drops .DS_Store, Thumbs.db and desktop.ini from the listing and then calls `os.rmdir`, which refuses a folder that still holds them; the exception ends the walk | a show folder holding only ".DS_Store" below the stop folder | a folder holding only those names is deleted together with them, and the walk climbs on | not executed | DirWalk.CruftExample | DirWalk.IntendedRemovesCruftOnly |
| utils/cache_manager.py:193 | `get_current_ui_values` reads the format from a `format` attribute of the GUI, which keeps the format in `fmt` | any form with a non-blank format | the format is read from `fmt` and captured like the other six fields | not executed | Cache.FormatNeverCaptured | Cache.FormatCapturedIntended |
