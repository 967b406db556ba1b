/** The bounded least-recently-used map behind both caches, most recently used key first. */
module Lru {
  import opened Wrappers

  datatype LruCache<K(!new, ==), V> = LruCache(capacity: nat, order: seq<K>, entries: map<K, V>) {

    ghost predicate Valid() {
      && 0 < capacity
      && |order| <= capacity
      && (forall k :: k in order <==> k in entries)
      && (forall i, j :: 0 <= i < j < |order| ==> order[i] != order[j])
    }

    /** A hit becomes the most recently used entry. */
    function Get(key: K): (r: (LruCache<K, V>, Option<V>))
      requires Valid()
      ensures r.0.Valid() && r.0.entries == entries && r.0.capacity == capacity
      ensures r.1 == if key in entries then Some(entries[key]) else None
      ensures if key in entries then r.0.order == [key] + Without(order, key) else r.0 == this
    {
      if key in entries then
        WithoutFacts(order, key);
        (this.(order := [key] + Without(order, key)), Some(entries[key]))
      else (this, None)
    }

    /** Insert or replace; a new key in a full cache evicts exactly the least recently used one. */
    function Put(key: K, value: V): (r: LruCache<K, V>)
      requires Valid()
      ensures r.Valid() && r.capacity == capacity && key in r.entries
      ensures r.order == [key] + if key in entries || |order| < capacity then Without(order, key) else order[..|order| - 1]
      ensures r.entries == if key in entries || |order| < capacity then entries[key := value]
                           else (entries - {order[|order| - 1]})[key := value]
    {
      WithoutFacts(order, key);
      if key in entries || |order| < capacity then
        LruCache(capacity, [key] + Without(order, key), entries[key := value])
      else
        var last := order[|order| - 1];
        assert forall k :: k in order[..|order| - 1] <==> k in order && k != last;
        LruCache(capacity, [key] + order[..|order| - 1], (entries - {last})[key := value])
    }

    function Pop(key: K): (r: LruCache<K, V>)
      requires Valid()
      ensures r.Valid() && r.capacity == capacity && r.entries == entries - {key} && r.order == Without(order, key)
    {
      WithoutFacts(order, key);
      LruCache(capacity, Without(order, key), entries - {key})
    }
  }

  function Empty<K(!new), V>(capacity: nat): (r: LruCache<K, V>)
    requires 0 < capacity
    ensures r.Valid() && r.entries == map[]
  {
    LruCache(capacity, [], map[])
  }

  function Without<K(==)>(order: seq<K>, key: K): seq<K> {
    if order == [] then []
    else (if order[0] == key then [] else [order[0]]) + Without(order[1..], key)
  }

  lemma {:induction false} WithoutFacts<K>(order: seq<K>, key: K)
    requires forall i, j :: 0 <= i < j < |order| ==> order[i] != order[j]
    ensures var rest := Without(order, key);
            && |rest| <= |order|
            && (key in order ==> |rest| < |order|)
            && (forall k :: k in rest <==> k in order && k != key)
            && (forall i, j :: 0 <= i < j < |rest| ==> rest[i] != rest[j])
  {
    if order != [] {
      WithoutFacts(order[1..], key);
      assert forall k :: k in order <==> k == order[0] || k in order[1..];
      assert order[0] !in order[1..];
      assert order[0] !in Without(order[1..], key);
    }
  }

  /** Taking a key out leaves the others in their order. */
  lemma {:induction false} WithoutSplit<K>(before: seq<K>, key: K, after: seq<K>)
    requires key !in before && key !in after
    ensures Without(before + [key] + after, key) == before + after
  {
    var order := before + [key] + after;
    if before == [] {
      WithoutNone(after, key);
      assert order[1..] == after;
    } else {
      WithoutSplit(before[1..], key, after);
      assert order[1..] == before[1..] + [key] + after;
    }
  }

  lemma {:induction false} WithoutNone<K>(order: seq<K>, key: K)
    requires key !in order
    ensures Without(order, key) == order
  {
    if order != [] { WithoutNone(order[1..], key); }
  }
}
