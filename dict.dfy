/** Python's `dict`: entries in insertion order, at most one per key.
    Assigning to an existing key replaces its value in place; a new key
    goes to the end. */
module Dict {
  import opened Wrappers

  type Dict<K, V> = seq<(K, V)>

  function Keys<K, V>(d: Dict<K, V>): (ks: seq<K>)
    ensures |ks| == |d| && forall i :: 0 <= i < |d| ==> ks[i] == d[i].0
  {
    seq(|d|, i requires 0 <= i < |d| => d[i].0)
  }

  predicate UniqueKeys<K(==), V>(d: Dict<K, V>) {
    forall i, j :: 0 <= i < j < |d| ==> d[i].0 != d[j].0
  }

  /** `d.get(k)` */
  function Get<K(==), V>(d: Dict<K, V>, k: K): (r: Option<V>)
    ensures r.None? <==> k !in Keys(d)
  {
    if |d| == 0 then None
    else if d[0].0 == k then Some(d[0].1)
    else
      assert Keys(d) == [d[0].0] + Keys(d[1..]);
      Get(d[1..], k)
  }

  lemma KeysCons<K, V>(e: (K, V), d: Dict<K, V>)
    ensures Keys([e] + d) == [e.0] + Keys(d)
  {
  }

  /** `d[k] = v` */
  function Put<K(==), V>(d: Dict<K, V>, k: K, v: V): (r: Dict<K, V>)
    ensures Keys(r) == if k in Keys(d) then Keys(d) else Keys(d) + [k]
  {
    if |d| == 0 then [(k, v)]
    else
      KeysCons(d[0], d[1..]);
      assert [d[0]] + d[1..] == d;
      if d[0].0 == k then
        KeysCons((k, v), d[1..]);
        [(k, v)] + d[1..]
      else
        var t := Put(d[1..], k, v);
        KeysCons(d[0], t);
        [d[0]] + t
  }

  /** After `d[k] = v`, `k` maps to `v` and every other key keeps its value. */
  lemma {:induction false} GetPut<K, V>(d: Dict<K, V>, k: K, v: V, k': K)
    ensures Get(Put(d, k, v), k') == if k' == k then Some(v) else Get(d, k')
  {
    if |d| > 0 && d[0].0 != k {
      GetPut(d[1..], k, v, k');
    }
  }

  lemma PutUnique<K, V>(d: Dict<K, V>, k: K, v: V)
    requires UniqueKeys(d)
    ensures UniqueKeys(Put(d, k, v))
  {
    var r := Put(d, k, v);
    assert forall i :: 0 <= i < |r| ==> r[i].0 == Keys(r)[i];
  }

  /** In a dictionary with unique keys the value of an entry is what `Get` returns for its key. */
  lemma {:induction false} GetEntry<K, V>(d: Dict<K, V>, i: nat)
    requires UniqueKeys(d) && i < |d|
    ensures Get(d, d[i].0) == Some(d[i].1)
  {
    if i > 0 {
      GetEntry(d[1..], i - 1);
    }
  }

  /** What `Get` returns is the value of an entry. */
  lemma {:induction false} GetIsEntry<K, V>(d: Dict<K, V>, k: K)
    requires Get(d, k).Some?
    ensures (k, Get(d, k).value) in d
  {
    if d[0].0 != k {
      GetIsEntry(d[1..], k);
    }
  }
  /** Every entry after `d[k] = v` is an entry of `d` or the new one. */
  lemma {:induction false} PutEntries<K, V>(d: Dict<K, V>, k: K, v: V)
    ensures forall e :: e in Put(d, k, v) ==> e in d || e == (k, v)
  {
    if |d| > 0 && d[0].0 != k {
      PutEntries(d[1..], k, v);
      assert Put(d, k, v) == [d[0]] + Put(d[1..], k, v);
    }
  }
}
