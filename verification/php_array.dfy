/**
 * PHP's ordered array, reduced to what the helpers in Utils.php rely on:
 * entries keep the position of their first assignment, assigning to an
 * existing key overwrites its value in place, and `foreach`/`array_flip`
 * visit the entries in that order.
 */
module PhpArray {
  import opened Wrappers

  datatype Entry<K, V> = Entry(key: K, value: V)

  /** An array in iteration order. Arrays built by Put have distinct keys. */
  type Arr<K, V> = seq<Entry<K, V>>

  predicate DistinctKeys<K(==), V>(a: Arr<K, V>) {
    forall i, j :: 0 <= i < j < |a| ==> a[i].key != a[j].key
  }

  function Keys<K, V>(a: Arr<K, V>): set<K> {
    set i | 0 <= i < |a| :: a[i].key
  }

  /** Position of the first entry with key `k`. */
  function Find<K(==), V>(a: Arr<K, V>, k: K): (r: Option<nat>)
    ensures r.Some? ==> r.value < |a| && a[r.value].key == k
    ensures r.Some? ==> forall j :: 0 <= j < r.value ==> a[j].key != k
    ensures r.None? ==> forall j :: 0 <= j < |a| ==> a[j].key != k
  {
    if |a| == 0 then None
    else if a[0].key == k then Some(0)
    else match Find(a[1..], k)
      case None => None
      case Some(i) => Some(i + 1)
  }

  /** `$a[$k]`, or None when `isset($a[$k])` would fail. */
  function Get<K(==), V>(a: Arr<K, V>, k: K): (r: Option<V>)
    ensures r.Some? <==> k in Keys(a)
    ensures r.Some? ==> exists i :: 0 <= i < |a| && a[i].key == k && a[i].value == r.value
  {
    match Find(a, k)
    case None => None
    case Some(i) => Some(a[i].value)
  }

  /** Find returns exactly the first position holding `k`. */
  lemma FindFirst<K, V>(a: Arr<K, V>, k: K, i: nat)
    requires i < |a| && a[i].key == k
    requires forall j :: 0 <= j < i ==> a[j].key != k
    ensures Find(a, k) == Some(i)
  {
    var r := Find(a, k);
    if r.Some? {
      assert r.value <= i;
    }
  }

  /** Two arrays whose keys agree position by position find every key at the same place. */
  lemma FindSameKeys<K, V>(a: Arr<K, V>, b: Arr<K, V>, k: K)
    requires |a| == |b|
    requires forall i :: 0 <= i < |a| ==> a[i].key == b[i].key
    ensures Find(a, k) == Find(b, k)
  {
    var r := Find(a, k);
    if r.Some? {
      FindFirst(b, k, r.value);
    } else if Find(b, k).Some? {
      FindFirst(a, k, Find(b, k).value);
    }
  }

  /** In an array with distinct keys, every entry is what Get returns for its key. */
  lemma GetAt<K, V>(a: Arr<K, V>, i: nat)
    requires DistinctKeys(a)
    requires i < |a|
    ensures Get(a, a[i].key) == Some(a[i].value)
  {
    match Find(a, a[i].key)
    case None =>
    case Some(j) =>
  }

  /** `$a[$k] = $v`: overwrite in place, or append a new entry at the end. */
  function Put<K(==,!new), V>(a: Arr<K, V>, k: K, v: V): (r: Arr<K, V>)
    ensures Get(r, k) == Some(v)
    ensures forall k' :: k' != k ==> Get(r, k') == Get(a, k')
    ensures Keys(r) == Keys(a) + {k}
    ensures DistinctKeys(a) ==> DistinctKeys(r)
    ensures |a| <= |r| <= |a| + 1
    ensures forall i :: 0 <= i < |a| ==> r[i].key == a[i].key
  {
    match Find(a, k)
    case Some(i) =>
      var r := a[i := Entry(k, v)];
      assert forall k' :: Find(r, k') == Find(a, k') by {
        forall k' { FindSameKeys(r, a, k'); }
      }
      assert Keys(r) == Keys(a) by {
        forall x | x in Keys(a) ensures x in Keys(r) {
          var j :| 0 <= j < |a| && a[j].key == x;
          assert r[j].key == x;
        }
      }
      r
    case None =>
      var r := a + [Entry(k, v)];
      FindFirst(r, k, |a|);
      assert Keys(r) == Keys(a) + {k} by {
        forall x | x in Keys(r) ensures x in Keys(a) + {k} {
          var j :| 0 <= j < |r| && r[j].key == x;
          if j < |a| { assert a[j].key == x; }
        }
        forall x | x in Keys(a) ensures x in Keys(r) {
          var j :| 0 <= j < |a| && a[j].key == x;
          assert r[j].key == x;
        }
      }
      assert forall k' :: k' != k ==> Find(r, k') == Find(a, k') by {
        forall k' | k' != k { FindAppend(a, Entry(k, v), k'); }
      }
      r
  }

  lemma FindAppend<K, V>(a: Arr<K, V>, e: Entry<K, V>, k: K)
    requires e.key != k
    ensures Find(a + [e], k) == Find(a, k)
  {
    var r := Find(a, k);
    if r.Some? {
      FindFirst(a + [e], k, r.value);
    }
  }

  /** The value of the last pair in `ps` whose key is `k`. */
  function LastWith<K(==), V>(ps: seq<Entry<K, V>>, k: K): (r: Option<V>)
    ensures r.Some? <==> exists i :: 0 <= i < |ps| && ps[i].key == k
    ensures r.Some? ==> exists i :: 0 <= i < |ps| && ps[i].key == k && ps[i].value == r.value
                                     && forall j :: i < j < |ps| ==> ps[j].key != k
  {
    if |ps| == 0 then None
    else if ps[|ps| - 1].key == k then Some(ps[|ps| - 1].value)
    else
      var r := LastWith(ps[..|ps| - 1], k);
      assert forall i :: 0 <= i < |ps| - 1 ==> ps[..|ps| - 1][i] == ps[i];
      r
  }

  /** The array left by assigning every pair of `ps`, in order, into an empty array. */
  function FromPairs<K(==,!new), V>(ps: seq<Entry<K, V>>): (r: Arr<K, V>)
    ensures DistinctKeys(r)
    ensures forall k :: Get(r, k) == LastWith(ps, k)
  {
    if |ps| == 0 then []
    else
      var n := |ps| - 1;
      Put(FromPairs(ps[..n]), ps[n].key, ps[n].value)
  }

  /** The entries of `a` with key and value exchanged, in the same order. */
  function Swapped<K, V>(a: Arr<K, V>): (r: seq<Entry<V, K>>)
    ensures |r| == |a|
    ensures forall i :: 0 <= i < |a| ==> r[i] == Entry(a[i].value, a[i].key)
  {
    seq(|a|, i requires 0 <= i < |a| => Entry(a[i].value, a[i].key))
  }

  /**
   * `array_flip($a)`: every value becomes a key whose value is the key of
   * the last entry holding it.
   */
  function Flip<K, V(==,!new)>(a: Arr<K, V>): (r: Arr<V, K>)
    ensures DistinctKeys(r)
    ensures forall v :: v in Keys(r) <==> exists i :: 0 <= i < |a| && a[i].value == v
    ensures forall v :: v in Keys(r) ==>
      exists i :: 0 <= i < |a| && a[i].value == v && a[i].key == Get(r, v).value
                  && forall j :: i < j < |a| ==> a[j].value != v
  {
    var sw := Swapped(a);
    var r := FromPairs(sw);
    assert forall v :: v in Keys(r) <==> exists i :: 0 <= i < |a| && a[i].value == v by {
      forall v ensures v in Keys(r) <==> exists i :: 0 <= i < |a| && a[i].value == v {
        assert Get(r, v) == LastWith(sw, v);
        if v in Keys(r) {
          var i :| 0 <= i < |sw| && sw[i].key == v;
          assert a[i].value == v;
        }
        if exists i :: 0 <= i < |a| && a[i].value == v {
          var i :| 0 <= i < |a| && a[i].value == v;
          assert sw[i].key == v;
        }
      }
    }
    r
  }

  /** Flipping sends every value back to a key that the original array maps to that value. */
  lemma FlipRoundTrip<K, V(!new)>(a: Arr<K, V>, v: V)
    requires DistinctKeys(a)
    requires v in Keys(Flip(a))
    ensures Get(a, Get(Flip(a), v).value) == Some(v)
  {
    var i :| 0 <= i < |a| && a[i].value == v && a[i].key == Get(Flip(a), v).value;
    GetAt(a, i);
  }
}
