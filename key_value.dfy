/**
 * The device's persistent key-value store (AsyncStorage), as the planner
 * sees it: every key holds a text, and the plans key holds the JSON text of
 * the whole plans dictionary. JSON encoding is taken to be lossless, so the
 * plans text is kept as the dictionary it encodes.
 */
module KeyValue {
  import opened Types

  datatype Stored =
    | Absent                  // getItem resolves to null
    | Corrupt                 // a text that JSON.parse rejects
    | PlansBlob(plans: Plans) // the JSON text of a plans dictionary
    | Text(s: string)         // a raw text (user name, gender)

  /** `getItem(key)` on the store's contents; a missing key reads as null. */
  function Lookup(items: map<string, Stored>, key: string): (v: Stored)
    ensures key !in items ==> v == Absent
  {
    if key in items then items[key] else Absent
  }

  /** `getItem` after `setItem` reads the written value back, and every other key as before. */
  lemma ReadAfterWrite(items: map<string, Stored>, key: string, value: Stored, other: string)
    ensures Lookup(items[key := value], key) == value
    ensures other != key ==> Lookup(items[key := value], other) == Lookup(items, other)
  {
  }

  class Store {
    var items: map<string, Stored>

    constructor (initial: map<string, Stored>)
      ensures items == initial
    {
      items := initial;
    }

    /** `getItem(key)` on the current contents. */
    function Get(key: string): (v: Stored)
      reads this
      ensures key !in items ==> v == Absent
    {
      Lookup(items, key)
    }

    /** `setItem(key, value)`; a failing write rejects and leaves the store as it was. */
    method SetItem(key: string, value: Stored, fails: bool) returns (ok: bool)
      modifies this
      ensures ok == !fails
      ensures items == if fails then old(items) else old(items)[key := value]
    {
      ok := !fails;
      if ok {
        items := items[key := value];
      }
    }

    /** `clear()`: every key is removed, unless the call fails. */
    method Clear(fails: bool) returns (ok: bool)
      modifies this
      ensures ok == !fails
      ensures items == if fails then old(items) else map[]
    {
      ok := !fails;
      if ok {
        items := map[];
      }
    }
  }
}
