/**
 * A PostScript dictionary: a finite map from names to values.
 */
module PSDicts {
  import opened Errors

  datatype PSDict<V> = PSDict(entries: map<string, V>)

  /** A freshly constructed dictionary. */
  function Empty<V>(): (d: PSDict<V>)
    ensures forall k :: !Contains(d, k)
  {
    PSDict(map[])
  }

  predicate Contains<V>(d: PSDict<V>, key: string) {
    key in d.entries
  }

  /** Indexing: the bound value, or a `KeyError` for an unbound key. */
  function Get<V>(d: PSDict<V>, key: string): (r: Result<V>)
    ensures r.Ok? <==> Contains(d, key)
    ensures r.Err? ==> r.error == KeyError(key)
  {
    if key in d.entries then Ok(d.entries[key]) else Err(KeyError(key))
  }

  /** Binding `key` to `value`, replacing any earlier binding of `key`. */
  function Set<V>(d: PSDict<V>, key: string, value: V): (r: PSDict<V>)
    ensures Contains(r, key) && Get(r, key) == Ok(value)
    ensures forall k :: k != key ==> Contains(r, k) == Contains(d, k)
    ensures forall k :: k != key ==> Get(r, k) == Get(d, k)
  {
    PSDict(d.entries[key := value])
  }

  /** Setting a key twice keeps only the latest binding. */
  lemma SetOverwrites<V>(d: PSDict<V>, key: string, v1: V, v2: V)
    ensures Set(Set(d, key, v1), key, v2) == Set(d, key, v2)
    ensures Get(Set(Set(d, key, v1), key, v2), key) == Ok(v2)
  {
  }
}
