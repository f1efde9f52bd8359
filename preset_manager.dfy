/**
 * The scheme-editor preset store (scheme_editor/preset_manager.py). The
 * object's state is the content of its preset file; each method reads it,
 * and the ones that change it write it back. The log callback is left out.
 */
module PresetManager {
  import opened Text
  import opened PresetStore

  class PresetManager {
    /** The preset file as last written. */
    var store: Store

    predicate Valid()
      reads this
    {
      PresetStore.Valid(store)
    }

    /** `__init__`: a missing file (`None`) is created holding the default preset; an existing one is read. */
    constructor(file: Option<Store>)
      requires file.Some? ==> PresetStore.Valid(file.value)
      ensures store == (if file.Some? then file.value else Initial()) && Valid()
    {
      if file.Some? {
        store := file.value;
      } else {
        store := Initial();
        InitialSpec();
      }
    }

    /** `load_presets`: the preset names in file order, each once, without `DEFAULT`. */
    method LoadPresets() returns (names: seq<string>)
      requires Valid()
      ensures names == store.sections
      ensures NoDuplicates(names) && DefaultSection !in names
      ensures forall n :: n in names <==> Has(store, n) && n != DefaultSection
    {
      names := store.sections;
    }

    /** `get_preset`: both schemes ("" for a missing option) of a known name, `None` for an unknown one. */
    method GetPreset(name: string) returns (r: Option<(string, string)>)
      ensures r.Some? <==> Has(store, name)
      ensures r.Some? ==> r.value == Schemes(store, name)
    {
      if name == DefaultSection || name in store.options {
        r := Some((OptionValue(store, name, SavingKey), OptionValue(store, name, FolderKey)));
      } else {
        r := None;
      }
    }

    /** `add_preset`: inserts or overwrites the name. */
    method AddPreset(name: string, saving: string, folder: string)
      requires Valid()
      modifies this
      ensures store == Put(old(store), name, saving, folder) && Valid()
    {
      PutSpec(store, name, saving, folder);
      store := Put(store, name, saving, folder);
    }

    /** `remove_preset`: an unknown name changes nothing. */
    method RemovePreset(name: string)
      requires Valid()
      modifies this
      ensures store == Remove(old(store), name) && Valid()
    {
      RemoveSpec(store, name);
      if Has(store, name) {
        store := Remove(store, name);
      }
    }

    /** `find_matching_preset`. */
    method FindMatchingPreset(saving: string, folder: string) returns (r: Option<string>)
      ensures r == FirstMatch(store, saving, folder)
    {
      r := FindMatching(store, saving, folder);
    }
  }
}
