/** The user-preferences node of the application (java.util.prefs.Preferences), as a key/value store. */
module Prefs {
  import opened Wrappers
  import opened JavaText

  /** How `putBoolean` writes a flag. */
  function BooleanText(b: bool): string {
    if b then "true" else "false"
  }

  /** How `getBoolean` reads a flag: "true" or "false" in any case; anything else, or no entry, gives `def`. */
  function BooleanEntry(entries: map<string, string>, key: string, def: bool): (r: bool)
    ensures key in entries && EqualsIgnoreCase(entries[key], "true") ==> r
    ensures key in entries && EqualsIgnoreCase(entries[key], "false") ==> !r
    ensures key !in entries ==> r == def
    ensures (key in entries && !EqualsIgnoreCase(entries[key], "true") &&
             !EqualsIgnoreCase(entries[key], "false")) ==> r == def
  {
    if key !in entries then def
    else if EqualsIgnoreCase(entries[key], "true") then true
    else if EqualsIgnoreCase(entries[key], "false") then false
    else def
  }

  /** A flag written as `BooleanText(b)` reads back as `b`, whatever the default. */
  lemma BooleanTextReadsBack(entries: map<string, string>, key: string, b: bool, def: bool)
    requires key in entries && entries[key] == BooleanText(b)
    ensures BooleanEntry(entries, key, def) == b
  {
    assert EqualsIgnoreCase("false", "false");
    assert EqualsIgnoreCase("true", "true");
    assert !EqualsIgnoreCase("false", "true");
  }

  class Preferences {
    var entries: map<string, string>

    constructor ()
      ensures entries == map[]
    {
      entries := map[];
    }

    /** `get(key, def)` */
    function Get(key: string, def: Option<string>): (r: Option<string>)
      reads this
      ensures key in entries ==> r == Some(entries[key])
      ensures key !in entries ==> r == def
    {
      if key in entries then Some(entries[key]) else def
    }

    /** `getBoolean(key, def)` */
    function GetBoolean(key: string, def: bool): (r: bool)
      reads this
      ensures r == BooleanEntry(entries, key, def)
    {
      BooleanEntry(entries, key, def)
    }

    method Put(key: string, value: string)
      modifies this
      ensures entries == old(entries)[key := value]
    {
      entries := entries[key := value];
    }

    /** A flag written with `putBoolean` reads back the same whatever default is asked for. */
    method PutBoolean(key: string, value: bool)
      modifies this
      ensures entries == old(entries)[key := BooleanText(value)]
      ensures forall def :: GetBoolean(key, def) == value
    {
      entries := entries[key := BooleanText(value)];
      forall def: bool
        ensures GetBoolean(key, def) == value
      {
        BooleanTextReadsBack(entries, key, value, def);
      }
    }

    method Remove(key: string)
      modifies this
      ensures entries == old(entries) - {key}
    {
      entries := entries - {key};
    }
  }
}
