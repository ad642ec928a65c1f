/**
 The key-value table behind the server: a string-to-string mapping with
 insert-if-absent `Set`, `Get` and idempotent `Delete`. The functions on
 `map` values say what each operation does to the table; the class `Store`
 holds the table in a field and its methods update it in place.
 */
module KeyValue {

  /** The table after `LoadOrStore(k, v)`: k gets v only when k is absent;
      an existing entry, and every other entry, is left as it was. */
  function Inserted(m: map<string, string>, k: string, v: string): (r: map<string, string>)
    ensures r.Keys == m.Keys + {k}
    ensures k in m ==> r == m
    ensures k !in m ==> r[k] == v
    ensures forall j :: j in m ==> r[j] == m[j]
  {
    if k in m then m else m[k := v]
  }

  /** The table after deleting k: k is gone, every other entry is kept. */
  function Removed(m: map<string, string>, k: string): (r: map<string, string>)
    ensures r.Keys == m.Keys - {k}
    ensures k !in m ==> r == m
    ensures forall j :: j in r ==> r[j] == m[j]
  {
    m - {k}
  }

  /** What a lookup reports: the stored value and true on a hit,
      the empty string and false on a miss. */
  function Lookup(m: map<string, string>, k: string): (r: (string, bool))
    ensures r.1 <==> k in m
    ensures r.1 ==> r.0 == m[k]
    ensures !r.1 ==> r.0 == ""
  {
    if k in m then (m[k], true) else ("", false)
  }

  /** A fresh table finds nothing. */
  lemma EmptyMisses(k: string)
    ensures Lookup(map[], k) == ("", false)
  {
  }

  /** Setting an absent key makes it readable with that value. */
  lemma GetAfterSet(m: map<string, string>, k: string, v: string)
    requires k !in m
    ensures Lookup(Inserted(m, k, v), k) == (v, true)
  {
  }

  /** A second Set on the same key is ignored: the first value stays. */
  lemma SetKeepsFirst(m: map<string, string>, k: string, v1: string, v2: string)
    ensures Inserted(Inserted(m, k, v1), k, v2) == Inserted(m, k, v1)
    ensures Lookup(Inserted(Inserted(m, k, v1), k, v2), k) == Lookup(Inserted(m, k, v1), k)
  {
  }

  /** Sets on distinct keys do not interfere: either order gives the same table. */
  lemma SetsOnDistinctKeysCommute(m: map<string, string>, k1: string, v1: string, k2: string, v2: string)
    requires k1 != k2
    ensures Inserted(Inserted(m, k1, v1), k2, v2) == Inserted(Inserted(m, k2, v2), k1, v1)
  {
  }

  /** After a delete the key is not found, whatever the table held. */
  lemma GetAfterDelete(m: map<string, string>, k: string)
    ensures Lookup(Removed(m, k), k) == ("", false)
  {
  }

  /** Deleting twice is the same as deleting once. */
  lemma DeleteIdempotent(m: map<string, string>, k: string)
    ensures Removed(Removed(m, k), k) == Removed(m, k)
  {
  }

  /** The shared table. Its one field is the mapping; each method is one
      atomic step on it (the concurrent map's per-call atomicity). */
  class Store {
    var m: map<string, string>

    constructor ()
      ensures m == map[]
    {
      m := map[];
    }

    /** Insert-if-absent: never overwrites, never reports an error. */
    method Set(key: string, value: string)
      modifies this
      ensures m == Inserted(old(m), key, value)
    {
      if key !in m {
        m := m[key := value];
      }
    }

    /** Reads the table without changing it. */
    method Get(key: string) returns (value: string, found: bool)
      ensures (value, found) == Lookup(m, key)
    {
      if key !in m {
        return "", false;
      }
      return m[key], true;
    }

    /** Removes key if present; a no-op otherwise. */
    method Delete(key: string)
      modifies this
      ensures m == Removed(old(m), key)
    {
      m := m - {key};
    }

    /** Despite its name, a second copy of Delete. */
    method SetupRoute(key: string)
      modifies this
      ensures m == Removed(old(m), key)
    {
      m := m - {key};
    }
  }
}
