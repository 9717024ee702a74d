/**
 Python's insertion-ordered `dict`, and the time-stamped first-in-first-out
 cache that both caches of the program build on it.
 */
module OrderedDict {
  import opened Options

  datatype Entry<K, V> = Entry(key: K, value: V)

  /** Oldest insertion first. */
  type Dict<K, V> = seq<Entry<K, V>>

  predicate Distinct<K(==), V>(d: Dict<K, V>) {
    forall i, j :: 0 <= i < j < |d| ==> d[i].key != d[j].key
  }

  /** The index of `k`, or `|d|`. */
  function Find<K(==), V>(d: Dict<K, V>, k: K): (i: nat)
    ensures i <= |d|
    ensures i < |d| ==> d[i].key == k
    ensures forall j :: 0 <= j < i ==> d[j].key != k
  {
    if d == [] || d[0].key == k then 0 else 1 + Find(d[1..], k)
  }

  predicate Has<K(==), V>(d: Dict<K, V>, k: K) {
    Find(d, k) < |d|
  }

  function Get<K(==), V>(d: Dict<K, V>, k: K): Option<V> {
    if Has(d, k) then Some(d[Find(d, k)].value) else None
  }

  /** `d[k] = v`: an existing key keeps its place. */
  function Put<K(==), V>(d: Dict<K, V>, k: K, v: V): (r: Dict<K, V>)
    ensures |r| == if Has(d, k) then |d| else |d| + 1
  {
    if Has(d, k) then d[Find(d, k) := Entry(k, v)] else d + [Entry(k, v)]
  }

  /** `d.pop(k, None)` */
  function Remove<K(==), V>(d: Dict<K, V>, k: K): (r: Dict<K, V>)
    ensures |r| == if Has(d, k) then |d| - 1 else |d|
  {
    if Has(d, k) then d[..Find(d, k)] + d[Find(d, k) + 1..] else d
  }

  lemma GetPut<K, V>(d: Dict<K, V>, k: K, v: V, other: K)
    requires Distinct(d)
    ensures Distinct(Put(d, k, v))
    ensures Get(Put(d, k, v), other) == if other == k then Some(v) else Get(d, other)
  {
    var r := Put(d, k, v);
    SameGet(d, other);
    SameGet(r, other);
    if Has(d, other) && other != k {
      assert r[Find(d, other)] == d[Find(d, other)];
    }
    if Has(r, other) && other != k {
      assert d[Find(r, other)] == r[Find(r, other)];
    }
    assert r[if Has(d, k) then Find(d, k) else |d|] == Entry(k, v);
  }

  lemma GetRemove<K, V>(d: Dict<K, V>, k: K, other: K)
    requires Distinct(d)
    ensures Distinct(Remove(d, k))
    ensures Get(Remove(d, k), other) == if other == k then None else Get(d, other)
  {
    var r, n := Remove(d, k), Find(d, k);
    SameGet(d, other);
    SameGet(r, other);
    if Has(d, k) {
      if Has(d, other) && other != k {
        var i := Find(d, other);
        assert r[if i < n then i else i - 1] == d[i];
      }
      if Has(r, other) {
        var i := Find(r, other);
        assert d[if i < n then i else i + 1] == r[i];
      }
    }
  }

  lemma GetDropOldest<K, V>(d: Dict<K, V>, other: K)
    requires Distinct(d) && d != []
    ensures Distinct(d[1..])
    ensures Get(d[1..], other) == if other == d[0].key then None else Get(d, other)
  {
    SameGet(d, other);
    SameGet(d[1..], other);
    if Has(d[1..], other) {
      assert d[Find(d[1..], other) + 1].key == other;
    }
    if Has(d, other) && other != d[0].key {
      assert d[1..][Find(d, other) - 1].key == other;
    }
  }

  /** With distinct keys, any entry for `k` is the one `Get` finds. */
  lemma SameGet<K, V>(d: Dict<K, V>, k: K)
    requires Distinct(d)
    ensures forall i :: 0 <= i < |d| && d[i].key == k ==> Get(d, k) == Some(d[i].value)
  {
  }

  // ----- the order of the keys

  function Keys<K, V>(d: Dict<K, V>): (ks: seq<K>)
    ensures |ks| == |d| && forall i :: 0 <= i < |d| ==> ks[i] == d[i].key
  {
    seq(|d|, i requires 0 <= i < |d| => d[i].key)
  }

  lemma HasExactly<K, V>(d: Dict<K, V>, k: K)
    ensures Has(d, k) <==> k in Keys(d)
  {
    if k in Keys(d) {
      var i :| 0 <= i < |d| && Keys(d)[i] == k;
    }
    if Has(d, k) {
      assert Keys(d)[Find(d, k)] == k;
    }
  }

  /** A new key goes to the end; a key already present keeps its place. */
  lemma PutOrder<K, V>(d: Dict<K, V>, k: K, v: V)
    ensures Keys(Put(d, k, v)) == if k in Keys(d) then Keys(d) else Keys(d) + [k]
  {
    HasExactly(d, k);
  }

  // ----- the cache operations

  datatype Stamped<+V> = Stamped(at: real, value: V)

  /** Whether an entry of this age still counts; the two caches differ at the limit. */
  predicate Live(age: real, ttl: real, limitCounts: bool) {
    age < ttl || (limitCounts && age == ttl)
  }

  /** The read: an entry that is too old is removed and not returned. */
  function Lookup<K(==), V>(d: Dict<K, Stamped<V>>, k: K, now: real, ttl: real, limitCounts: bool)
    : (Dict<K, Stamped<V>>, Option<V>)
  {
    match Get(d, k)
    case None => (d, None)
    case Some(e) => if Live(now - e.at, ttl, limitCounts) then (d, Some(e.value)) else (Remove(d, k), None)
  }

  /** The write: at capacity the oldest entry makes room, even for a key already present. */
  function Store<K(==), V>(d: Dict<K, Stamped<V>>, k: K, v: V, now: real, capacity: int)
    : Option<Dict<K, Stamped<V>>>
  {
    if |d| >= capacity then
      // `next(iter(d))` raises on an empty dict
      if d == [] then None else Some(Put(d[1..], k, Stamped(now, v)))
    else Some(Put(d, k, Stamped(now, v)))
  }

  /** What a read leaves behind and what it returns, key by key. */
  lemma LookupExactly<K, V>(d: Dict<K, Stamped<V>>, k: K, now: real, ttl: real, limitCounts: bool, other: K)
    requires Distinct(d)
    ensures var (rest, found) := Lookup(d, k, now, ttl, limitCounts);
            && Distinct(rest) && |rest| <= |d|
            && (found.Some? <==> Get(d, k).Some? && Live(now - Get(d, k).value.at, ttl, limitCounts))
            && (found.Some? ==> rest == d && found.value == Get(d, k).value.value)
            && (found.None? ==> Get(rest, k) == None)
            && (other != k ==> Get(rest, other) == Get(d, other))
  {
    GetRemove(d, k, other);
    GetRemove(d, k, k);
  }

  /** A write never outgrows the capacity; besides the new entry only the oldest may change. */
  lemma StoreExactly<K, V>(d: Dict<K, Stamped<V>>, k: K, v: V, now: real, capacity: int, other: K)
    requires Distinct(d)
    ensures var r := Store(d, k, v, now, capacity);
            && (r.None? <==> d == [] && capacity <= 0)
            && (r.Some? ==>
                  && Distinct(r.value)
                  && |r.value| <= (if |d| < capacity then |d| + 1 else |d|)
                  && Get(r.value, k) == Some(Stamped(now, v))
                  && (other != k ==>
                        Get(r.value, other) == if |d| >= capacity && other == d[0].key then None else Get(d, other)))
  {
    if |d| >= capacity {
      if d != [] {
        GetDropOldest(d, other);
        GetPut(d[1..], k, Stamped(now, v), other);
        GetPut(d[1..], k, Stamped(now, v), k);
      }
    } else {
      GetPut(d, k, Stamped(now, v), other);
      GetPut(d, k, Stamped(now, v), k);
    }
  }

  /**
   First in, first out: at capacity a write drops the key that was put in
   first, then its own key keeps its place or goes to the end.
   */
  lemma StoreOrder<K, V>(d: Dict<K, Stamped<V>>, k: K, v: V, now: real, capacity: int)
    requires d != [] || capacity > 0
    ensures var kept := if |d| >= capacity then Keys(d)[1..] else Keys(d);
            && Store(d, k, v, now, capacity).Some?
            && Keys(Store(d, k, v, now, capacity).value) == if k in kept then kept else kept + [k]
  {
    var rest := if |d| >= capacity then d[1..] else d;
    assert Keys(rest) == if |d| >= capacity then Keys(d)[1..] else Keys(d);
    PutOrder(rest, k, Stamped(now, v));
  }

  /** A read invents no entry. */
  lemma NothingLookedUp<K, V>(d: Dict<K, Stamped<V>>, k: K, now: real, ttl: real, limitCounts: bool)
    ensures forall e :: e in Lookup(d, k, now, ttl, limitCounts).0 ==> e in d
  {
  }

  /** A write adds no entry but its own. */
  lemma OnlyStored<K, V>(d: Dict<K, Stamped<V>>, k: K, v: V, now: real, capacity: int)
    ensures var r := Store(d, k, v, now, capacity);
            r.Some? ==> forall e :: e in r.value ==> e in d || e == Entry(k, Stamped(now, v))
  {
  }
}
