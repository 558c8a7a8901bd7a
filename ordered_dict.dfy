/** Python dictionaries keep the order in which keys were first inserted, and
    several results of the reader (the order in which objects are visited, the
    order of findings) depend on it. A dictionary is modelled as a sequence of
    key/value pairs: `Put` overwrites in place or appends, `Remove` deletes. */
module OrderedDict {
  import opened Common

  type Dict<K, V> = seq<(K, V)>

  /** `d.get(k)`: the value stored under `k`, if any. */
  function Get<K(==), V>(d: Dict<K, V>, k: K): Option<V>
  {
    if d == [] then None
    else if d[0].0 == k then Some(d[0].1)
    else Get(d[1..], k)
  }

  /** `d.get(k, default)`. */
  function GetOr<K(==), V>(d: Dict<K, V>, k: K, default: V): V
  {
    match Get(d, k)
    case Some(v) => v
    case None => default
  }

  /** `k in d`. */
  predicate Has<K(==), V>(d: Dict<K, V>, k: K)
  {
    Get(d, k).Some?
  }

  /** The keys in iteration order: `list(d.keys())`. */
  function Keys<K, V>(d: Dict<K, V>): (r: seq<K>)
    ensures |r| == |d|
    ensures forall i :: 0 <= i < |d| ==> r[i] == d[i].0
  {
    if d == [] then [] else [d[0].0] + Keys(d[1..])
  }

  /** `d[k] = v`: an existing key keeps its place, a new key goes last. */
  function Put<K(==,!new), V>(d: Dict<K, V>, k: K, v: V): (r: Dict<K, V>)
    ensures Get(r, k) == Some(v)
    ensures forall j :: j != k ==> Get(r, j) == Get(d, j)
    ensures Has(d, k) ==> Keys(r) == Keys(d)
    ensures !Has(d, k) ==> Keys(r) == Keys(d) + [k]
  {
    if d == [] then [(k, v)]
    else if d[0].0 == k then [(k, v)] + d[1..]
    else [d[0]] + Put(d[1..], k, v)
  }

  /** No key is listed twice, as in every dictionary `Put` builds. */
  predicate UniqueKeys<K(==), V>(d: Dict<K, V>)
  {
    forall i, j :: 0 <= i < j < |d| ==> d[i].0 != d[j].0
  }

  /** `del d[k]` once `k in d` is known: every entry under `k` goes, and the
      other entries keep their order. */
  function Remove<K(==,!new), V>(d: Dict<K, V>, k: K): (r: Dict<K, V>)
    ensures Get(r, k) == None
    ensures forall j :: j != k ==> Get(r, j) == Get(d, j)
    ensures |r| <= |d|
    ensures !Has(d, k) ==> r == d
    ensures UniqueKeys(d) ==> forall i :: 0 <= i < |d| && d[i].0 == k ==> r == d[..i] + d[i + 1..]
  {
    if d == [] then []
    else if d[0].0 == k then HasIffInKeys(d[1..], k); Remove(d[1..], k)
    else [d[0]] + Remove(d[1..], k)
  }

  /** `d[k] = v` keeps the keys unique. */
  lemma {:induction false} PutKeepsUnique<K(!new), V>(d: Dict<K, V>, k: K, v: V)
    requires UniqueKeys(d)
    ensures UniqueKeys(Put(d, k, v))
  {
    var r := Put(d, k, v);
    HasIffInKeys(d, k);
    forall i, j | 0 <= i < j < |r|
      ensures r[i].0 != r[j].0
    {
      assert Keys(r)[i] == r[i].0 && Keys(r)[j] == r[j].0;
      if j >= |d| {
        assert !Has(d, k) && Keys(r)[j] == k;
        assert Keys(d)[i] == Keys(r)[i];
      } else {
        assert Keys(r)[i] == Keys(d)[i] && Keys(r)[j] == Keys(d)[j];
      }
    }
  }

  /** A key is found exactly when it is one of the listed keys. */
  lemma {:induction false} HasIffInKeys<K, V>(d: Dict<K, V>, k: K)
    ensures Has(d, k) <==> k in Keys(d)
  {
    if d != [] {
      HasIffInKeys(d[1..], k);
      assert Keys(d) == [d[0].0] + Keys(d[1..]);
    }
  }
}
