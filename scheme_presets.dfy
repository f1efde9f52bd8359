/**
 * The GUI's scheme-preset store (gui/scheme_presets.py): the same file as
 * the scheme editor's, with results that report what happened.
 */
module SchemePresets {
  import opened Text
  import opened PresetStore

  class SchemePresets {
    /** The preset file as last written. */
    var store: Store

    predicate Valid()
      reads this
    {
      PresetStore.Valid(store)
    }

    /** `__init__`: a missing file (`None`) is created holding the default preset; an existing one is read. */
    constructor(file: Option<Store>)
      requires file.Some? ==> PresetStore.Valid(file.value)
      ensures store == (if file.Some? then file.value else Initial()) && Valid()
    {
      if file.Some? {
        store := file.value;
      } else {
        store := Initial();
        InitialSpec();
      }
    }

    /** `load_presets`: the preset names in file order. */
    method LoadPresets() returns (names: seq<string>)
      requires Valid()
      ensures names == store.sections
      ensures NoDuplicates(names) && DefaultSection !in names
    {
      names := store.sections;
    }

    /** `get_preset`: both schemes of a known name, `("", "")` for an unknown one. */
    method GetPreset(name: string) returns (saving: string, folder: string)
      ensures Has(store, name) ==> (saving, folder) == Schemes(store, name)
      ensures !Has(store, name) ==> saving == "" && folder == ""
    {
      if name == DefaultSection || name in store.options {
        saving, folder := OptionValue(store, name, SavingKey), OptionValue(store, name, FolderKey);
      } else {
        saving, folder := "", "";
      }
    }

    /** `add_preset`: refuses an existing name unless `overwrite` is set. */
    method AddPreset(name: string, saving: string, folder: string, overwrite: bool) returns (ok: bool)
      requires Valid()
      modifies this
      ensures ok <==> !Has(old(store), name) || overwrite
      ensures store == (if ok then Put(old(store), name, saving, folder) else old(store)) && Valid()
    {
      if Has(store, name) && !overwrite {
        return false;
      }
      PutSpec(store, name, saving, folder);
      store := Put(store, name, saving, folder);
      return true;
    }

    /** `remove_preset`: reports whether the name was in the store. */
    method RemovePreset(name: string) returns (existed: bool)
      requires Valid()
      modifies this
      ensures existed <==> Has(old(store), name)
      ensures store == Remove(old(store), name) && Valid()
    {
      RemoveSpec(store, name);
      if Has(store, name) {
        store := Remove(store, name);
        return true;
      }
      return false;
    }

    /** `find_matching_preset`. */
    method FindMatchingPreset(saving: string, folder: string) returns (r: Option<string>)
      ensures r == FirstMatch(store, saving, folder)
    {
      r := FindMatching(store, saving, folder);
    }
  }
}
