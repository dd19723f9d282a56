/** A Python `dict` as the ordered list of its entries. Python dicts remember
    insertion order: iteration yields keys in the order they were first set,
    and assigning to an existing key keeps its position. */
module PyDict {
  import opened Basics

  datatype Dict<K, V> = Dict(entries: seq<(K, V)>)

  /** `{}` */
  function Empty<K, V>(): Dict<K, V> {
    Dict([])
  }

  /** The keys in iteration order. */
  function KeySeq<K, V>(d: Dict<K, V>): seq<K> {
    seq(|d.entries|, i requires 0 <= i < |d.entries| => d.entries[i].0)
  }

  function Keys<K, V>(d: Dict<K, V>): set<K> {
    Elements(KeySeq(d))
  }

  /** The representation invariant: an entry list never repeats a key. */
  predicate WellFormed<K(==), V>(d: Dict<K, V>) {
    Distinct(KeySeq(d))
  }

  /** Position of the first entry for `k`, if any. */
  function Find<K(==), V>(entries: seq<(K, V)>, k: K): (r: Option<nat>)
    ensures r.Some? ==> r.value < |entries| && entries[r.value].0 == k
    ensures r.Some? ==> forall j :: 0 <= j < r.value ==> entries[j].0 != k
    ensures r.None? <==> forall j :: 0 <= j < |entries| ==> entries[j].0 != k
  {
    if |entries| == 0 then None
    else if entries[0].0 == k then Some(0)
    else match Find(entries[1..], k)
      case None => None
      case Some(i) => Some(i + 1)
  }

  /** `d.get(k)` */
  function Get<K(==), V>(d: Dict<K, V>, k: K): (r: Option<V>)
    ensures r.None? <==> k !in Keys(d)
    ensures WellFormed(d) ==>
      forall i :: 0 <= i < |d.entries| && d.entries[i].0 == k ==> r == Some(d.entries[i].1)
  {
    match Find(d.entries, k)
    case None =>
      assert k !in KeySeq(d) by {
        forall j | 0 <= j < |d.entries| ensures KeySeq(d)[j] != k {}
      }
      None
    case Some(i) =>
      assert KeySeq(d)[i] == k;
      assert WellFormed(d) ==> forall j :: 0 <= j < |d.entries| && d.entries[j].0 == k ==> j == i by {
        if WellFormed(d) {
          forall j | 0 <= j < |d.entries| && d.entries[j].0 == k ensures j == i {
            assert KeySeq(d)[j] == KeySeq(d)[i];
          }
        }
      }
      Some(d.entries[i].1)
  }

  /** `d[k] = v`: an existing key keeps its position, a new key goes last. */
  function Set<K(==,!new), V>(d: Dict<K, V>, k: K, v: V): (r: Dict<K, V>)
    ensures Keys(r) == Keys(d) + {k}
    ensures k !in Keys(d) ==> r.entries == d.entries + [(k, v)]
    ensures k in Keys(d) ==> KeySeq(r) == KeySeq(d)
    ensures WellFormed(d) ==> WellFormed(r)
    ensures WellFormed(d) ==> Get(r, k) == Some(v)
    ensures WellFormed(d) ==> forall k' :: k' != k ==> Get(r, k') == Get(d, k')
  {
    match Find(d.entries, k)
    case None =>
      assert k !in KeySeq(d) by {
        forall j | 0 <= j < |d.entries| ensures KeySeq(d)[j] != k {}
      }
      var r := Dict(d.entries + [(k, v)]);
      assert KeySeq(r) == KeySeq(d) + [k];
      r
    case Some(i) =>
      assert KeySeq(d)[i] == k;
      var r := Dict(d.entries[i := (k, v)]);
      assert KeySeq(r) == KeySeq(d);
      r
  }

  /** `len(d)`: the number of keys. */
  function Len<K(==), V>(d: Dict<K, V>): (n: nat)
    requires WellFormed(d)
    ensures n == |Keys(d)|
  {
    DistinctCardinality(KeySeq(d));
    |d.entries|
  }
}
