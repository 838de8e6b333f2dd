/** Shared vocabulary: optional values, results with an error, two-column CSV
    files, insertion-ordered dictionaries and Python's prefix slice. */
module Common {

  datatype Option<T> = None | Some(value: T)

  datatype Result<T, E> = Ok(value: T) | Err(error: E)

  /** A CSV file with two columns as the pipeline writes and reads it: an
      optional header row (empty when the file holds no header) followed by
      data rows, each a pair of cells. */
  datatype CsvFile = CsvFile(header: seq<string>, rows: seq<(string, string)>)

  /** A Python `dict` seen with its iteration order: `keys` lists the keys in
      insertion order; assigning to a key that is already present keeps its
      position. */
  datatype Dict<K, V> = Dict(keys: seq<K>, values: map<K, V>) {

    ghost predicate Valid() {
      && Distinct(keys)
      && (forall k | k in values :: k in keys)
      && (forall i | 0 <= i < |keys| :: keys[i] in values)
    }

    /** `d[k] = v` */
    function Put(k: K, v: V): (d: Dict<K, V>)
      ensures d.values == values[k := v]
      ensures k in values ==> d.keys == keys
      ensures k !in values ==> d.keys == keys + [k]
    {
      if k in values then Dict(keys, values[k := v])
      else Dict(keys + [k], values[k := v])
    }

    /** Putting a key keeps the dictionary well formed: a new key is
        appended once. */
    lemma PutValid(k: K, v: V)
      requires Valid()
      ensures Put(k, v).Valid()
    {
      if k !in values {
        var ks := keys + [k];
        forall i, j | 0 <= i < j < |ks| ensures ks[i] != ks[j] {
          if j == |keys| {
            assert ks[i] == keys[i];
          }
        }
      }
    }
  }

  function EmptyDict<K, V>(): (d: Dict<K, V>)
    ensures d.Valid() && d.keys == [] && d.values == map[]
  {
    Dict([], map[])
  }

  /** Python's `s[:n]`: a negative `n` counts from the end. */
  function PyPrefix<T>(s: seq<T>, n: int): (r: seq<T>)
    ensures 0 <= n ==> |r| == if n < |s| then n else |s|
    ensures n < 0 ==> |r| == if -n < |s| then |s| + n else 0
    ensures r == s[..|r|]
  {
    if 0 <= n then (if n < |s| then s[..n] else s)
    else if -n < |s| then s[..|s| + n] else []
  }

  /** The elements of `s` are pairwise distinct. */
  ghost predicate Distinct<T>(s: seq<T>) {
    forall i, j | 0 <= i < j < |s| :: s[i] != s[j]
  }
}
