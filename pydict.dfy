/** Python's insertion-ordered `dict` as a value: the keys in the order they were first inserted, and a value per key. */
module PyDict {

  datatype Dict<K, V> = Dict(keys: seq<K>, vals: map<K, V>)

  predicate Distinct<K(==)>(s: seq<K>)
  {
    forall i, j :: 0 <= i < j < |s| ==> s[i] != s[j]
  }

  /** The key sequence lists each key of the map exactly once. */
  predicate Valid<K(==), V>(d: Dict<K, V>)
  {
    Distinct(d.keys) && (forall k :: k in d.vals ==> k in d.keys) && (forall k :: k in d.keys ==> k in d.vals)
  }

  /** `{}` */
  function Empty<K(==), V>(): (d: Dict<K, V>)
    ensures Valid(d) && d.keys == [] && d.vals == map[]
  {
    Dict([], map[])
  }

  /** `d[k] = v`: a new key is appended at the end; an existing key keeps its place and gets the new value. */
  function Put<K, V>(d: Dict<K, V>, k: K, v: V): (r: Dict<K, V>)
    ensures r.vals == d.vals[k := v]
    ensures k in d.keys ==> r.keys == d.keys
    ensures k !in d.keys ==> r.keys == d.keys + [k]
  {
    if k in d.keys then Dict(d.keys, d.vals[k := v]) else Dict(d.keys + [k], d.vals[k := v])
  }

  /** A write keeps the key sequence listing each key exactly once. */
  lemma PutValid<K, V>(d: Dict<K, V>, k: K, v: V)
    requires Valid(d)
    ensures Valid(Put(d, k, v))
  {
  }

  /** A write adds its key to the keys the dict holds, and keeps each key listed once. */
  lemma PutMembers<K, V>(d: Dict<K, V>, k: K, v: V, ids: seq<K>)
    requires Valid(d) && forall x :: x in d.vals <==> x in ids
    ensures Valid(Put(d, k, v))
    ensures forall x :: x in Put(d, k, v).vals <==> x in ids + [k]
  {
    PutValid(d, k, v);
  }

  /** Writing a key twice is the same as writing only the second value. */
  lemma PutPut<K, V>(d: Dict<K, V>, k: K, v1: V, v2: V)
    ensures Put(Put(d, k, v1), k, v2) == Put(d, k, v2)
  {
    assert d.vals[k := v1][k := v2] == d.vals[k := v2];
  }
}
