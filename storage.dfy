/**
 * AuthDataStorage, the in-memory key-value backend: a dictionary of strings
 * that the session manager reads and writes key by key.
 */
module Storage {
  import opened Wrappers
  import opened Json

  /** The contents of a store. */
  type Store = map<string, string>

  /** `getItem` on a store's contents: the stored string, or undefined. */
  function Item(d: Store, id: string): Option<string> {
    if id in d then Some(d[id]) else None
  }

  class AuthDataStorage {
    var data: Store

    constructor ()
      ensures data == map[]
    {
      data := map[];
    }

    /** Stores `String(val)` under id, replacing what was there. */
    method SetItem(id: string, val: Option<Json>)
      modifies this
      ensures data == old(data)[id := JsString(val)]
      ensures Item(data, id) == Some(JsString(val))
    {
      data := data[id := JsString(val)];
    }

    method GetItem(id: string) returns (v: Option<string>)
      ensures v.Some? <==> id in data
      ensures v.Some? ==> v.value == data[id]
    {
      v := if id in data then Some(data[id]) else None;
    }

    /** `delete` on an own property reports true whether or not the key was there. */
    method RemoveItem(id: string) returns (deleted: bool)
      modifies this
      ensures deleted
      ensures data == old(data) - {id}
      ensures Item(data, id) == None
      ensures forall k :: k != id ==> Item(data, k) == Item(old(data), k)
    {
      data := data - {id};
      deleted := true;
    }

    method Clear()
      modifies this
      ensures data == map[]
      ensures forall k :: Item(data, k) == None
    {
      data := map[];
    }
  }
}
