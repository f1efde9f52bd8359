/**
 * The scheme-preset file as the two preset classes see it: a
 * `configparser` store read with interpolation off.
 *
 * A store has the special `DEFAULT` section, whose options every section
 * falls back to, and the named sections in file order. `name in config`
 * holds for `DEFAULT` as well, while `sections()` leaves it out. Each
 * operation re-reads the file it wrote, and reading strips the whitespace
 * around every value.
 */
module PresetStore {
  import opened Text
  import Queue

  const DefaultSection: string := "DEFAULT"
  const SavingKey: string := "saving_scheme"
  const FolderKey: string := "folder_scheme"

  /** The schemes of the preset written when no preset file exists. */
  const DefaultName: string := "Default"
  const DefaultSaving: string := "%artist%/$year(%date%)"
  const DefaultFolder: string := "%date% - %venue% - %city% [%format%] [%additional%]"

  datatype Store = Store(defaults: map<string, string>, sections: seq<string>, options: map<string, map<string, string>>)

  /** Section names are unique, each has its options, and `DEFAULT` is not among them. */
  predicate Valid(st: Store)
  {
    NoDuplicates(st.sections) && Elements(st.sections) == st.options.Keys && DefaultSection !in st.options
  }

  /** The store written when the file is missing: one "Default" preset. */
  function Initial(): Store
  {
    Store(map[], [DefaultName], map[DefaultName := map[SavingKey := DefaultSaving, FolderKey := DefaultFolder]])
  }

  /** `name in config`. */
  predicate Has(st: Store, name: string)
  {
    name == DefaultSection || name in st.options
  }

  /** `config[name].get(key, "")`: the section's own option, else the `DEFAULT` one, else "". */
  function OptionValue(st: Store, name: string, key: string): string
  {
    if name in st.options && key in st.options[name] then st.options[name][key]
    else if key in st.defaults then st.defaults[key]
    else ""
  }

  /** The (saving, folder) schemes a section yields. */
  function Schemes(st: Store, name: string): (string, string)
  {
    (OptionValue(st, name, SavingKey), OptionValue(st, name, FolderKey))
  }

  /** The two options written for a preset, as they read back. */
  function Entry(saving: string, folder: string): map<string, string>
  {
    map[SavingKey := Strip(saving), FolderKey := Strip(folder)]
  }

  /**
   * `config[name] = {...}` followed by a write and a re-read: `DEFAULT` has
   * its options replaced, an existing section is cleared and refilled in
   * place, a new section goes last.
   */
  function Put(st: Store, name: string, saving: string, folder: string): Store
  {
    if name == DefaultSection then st.(defaults := Entry(saving, folder))
    else if name in st.options then st.(options := st.options[name := Entry(saving, folder)])
    else st.(sections := st.sections + [name], options := st.options[name := Entry(saving, folder)])
  }

  /** `remove_section(name)`: only a named section goes; `DEFAULT` is never removed. */
  function Remove(st: Store, name: string): Store
  {
    if name in st.options then st.(sections := Queue.Without(st.sections, {name}), options := st.options - {name})
    else st
  }

  /** The loop of `find_matching_preset` from position `i` on: the first section whose two schemes are the given ones. */
  function FirstMatchFrom(st: Store, saving: string, folder: string, i: nat): (r: Option<string>)
    requires i <= |st.sections|
    decreases |st.sections| - i
  {
    if i == |st.sections| then None
    else if Schemes(st, st.sections[i]) == (saving, folder) then Some(st.sections[i])
    else FirstMatchFrom(st, saving, folder, i + 1)
  }

  function FirstMatch(st: Store, saving: string, folder: string): Option<string>
  {
    FirstMatchFrom(st, saving, folder, 0)
  }

  /** The store written for a missing file is well formed and its one preset holds the default schemes. */
  lemma InitialSpec()
    ensures Valid(Initial()) && Initial().sections == [DefaultName]
    ensures Has(Initial(), DefaultName) && Schemes(Initial(), DefaultName) == (DefaultSaving, DefaultFolder)
  {
  }

  /**
   * After `Put` the name is present and yields exactly the stripped pair,
   * and the section order changes only by a new name going last.
   */
  lemma PutSpec(st: Store, name: string, saving: string, folder: string)
    requires Valid(st)
    ensures var r := Put(st, name, saving, folder);
            Valid(r) && Has(r, name) && Schemes(r, name) == (Strip(saving), Strip(folder)) &&
            r.sections == (if Has(st, name) then st.sections else st.sections + [name])
  {
    if name != DefaultSection && name !in st.options {
      AppendSectionValid(st, name, Entry(saving, folder));
    }
  }

  /**
   * Every other name stays present or absent as before, and every other
   * section keeps its schemes unless `DEFAULT` was the one rewritten.
   */
  lemma PutOthers(st: Store, name: string, saving: string, folder: string, n: string)
    requires n != name
    ensures var r := Put(st, name, saving, folder);
            (Has(r, n) <==> Has(st, n)) &&
            (name != DefaultSection ==> Schemes(r, n) == Schemes(st, n))
  {
  }

  /** A new section appended to a well-formed store keeps it well formed. */
  lemma AppendSectionValid(st: Store, name: string, entry: map<string, string>)
    requires Valid(st) && name != DefaultSection && name !in st.options
    ensures Valid(st.(sections := st.sections + [name], options := st.options[name := entry]))
  {
    var names := st.sections + [name];
    ElementsSnoc(st.sections, name);
    assert name !in st.sections;
    forall i, j | 0 <= i < j < |names| ensures names[i] != names[j] {
      if j == |st.sections| {
        assert names[i] == st.sections[i] && st.sections[i] in st.sections;
      } else {
        assert names[i] == st.sections[i] && names[j] == st.sections[j];
      }
    }
  }

  /** Rewriting `DEFAULT` leaves every section that sets both schemes itself as it was. */
  lemma PutDefaultKeepsFull(st: Store, saving: string, folder: string, n: string)
    requires n in st.options && SavingKey in st.options[n] && FolderKey in st.options[n]
    ensures Schemes(Put(st, DefaultSection, saving, folder), n) == Schemes(st, n)
  {
  }

  /**
   * `Remove` of a named section takes it out of the order and the store and
   * leaves everything else as it was; any other name changes nothing.
   */
  lemma RemoveSpec(st: Store, name: string)
    requires Valid(st)
    ensures var r := Remove(st, name);
            Valid(r) &&
            (name != DefaultSection ==> !Has(r, name)) &&
            r.sections == Queue.Without(st.sections, {name}) &&
            (forall n :: n != name ==> (Has(r, n) <==> Has(st, n)) && Schemes(r, n) == Schemes(st, n)) &&
            (name !in st.options ==> r == st)
  {
    Queue.WithoutSpec(st.sections, {name});
    if name !in st.options {
      Queue.WithoutNone(st.sections, {name});
    }
  }

  /** `DEFAULT` is always present and no removal takes it away. */
  lemma RemoveDefaultSection(st: Store)
    requires Valid(st)
    ensures Has(st, DefaultSection) && Remove(st, DefaultSection) == st
  {
  }

  /**
   * The search from `i` finds the first section at or after `i` whose
   * schemes are the given pair, and finds nothing when there is none.
   */
  lemma {:induction false} FirstMatchFromSpec(st: Store, saving: string, folder: string, i: nat)
    requires i <= |st.sections|
    ensures var r := FirstMatchFrom(st, saving, folder, i);
            (r.None? <==> forall j :: i <= j < |st.sections| ==> Schemes(st, st.sections[j]) != (saving, folder)) &&
            (r.Some? ==> exists j :: i <= j < |st.sections| && st.sections[j] == r.value &&
                                    Schemes(st, r.value) == (saving, folder) &&
                                    forall k :: i <= k < j ==> Schemes(st, st.sections[k]) != (saving, folder))
    decreases |st.sections| - i
  {
    if i < |st.sections| && Schemes(st, st.sections[i]) != (saving, folder) {
      FirstMatchFromSpec(st, saving, folder, i + 1);
    }
  }

  /** `find_matching_preset` returns the first preset in file order holding both schemes, `None` when none does. */
  lemma FirstMatchSpec(st: Store, saving: string, folder: string)
    ensures var r := FirstMatch(st, saving, folder);
            (r.None? <==> forall n :: n in st.sections ==> Schemes(st, n) != (saving, folder)) &&
            (r.Some? ==> exists j :: 0 <= j < |st.sections| && st.sections[j] == r.value &&
                                    Schemes(st, r.value) == (saving, folder) &&
                                    forall k :: 0 <= k < j ==> Schemes(st, st.sections[k]) != (saving, folder))
  {
    FirstMatchFromSpec(st, saving, folder, 0);
  }

  /** The loop of `find_matching_preset`, visiting the sections in order. */
  method FindMatching(st: Store, saving: string, folder: string) returns (r: Option<string>)
    ensures r == FirstMatch(st, saving, folder)
  {
    var i := 0;
    while i < |st.sections|
      invariant 0 <= i <= |st.sections|
      invariant FirstMatch(st, saving, folder) == FirstMatchFrom(st, saving, folder, i)
    {
      var name := st.sections[i];
      if OptionValue(st, name, SavingKey) == saving && OptionValue(st, name, FolderKey) == folder {
        return Some(name);
      }
      i := i + 1;
    }
    return None;
  }
}
