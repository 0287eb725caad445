/** The bounded least-recently-used key/value store that backs the tile cache
    (class `LRUCache` of wsi_viewer.py). The dictionary `cache` holds the entries,
    the list `order` holds the keys from least to most recently used. */
module Lru {
  import opened Wrappers
  import opened Seqs

  /** `order` lists keys by increasing time of last use: every listed key has a time
      stamp in `lastUse`, earlier than the current `clock`, and the stamps strictly
      increase along the list. */
  ghost predicate Stamped<K>(order: seq<K>, lastUse: map<K, nat>, clock: nat) {
    && (forall i :: 0 <= i < |order| ==> order[i] in lastUse && lastUse[order[i]] < clock)
    && (forall i, j :: 0 <= i < j < |order| ==> lastUse[order[i]] < lastUse[order[j]])
  }

  /** A list ordered by strictly increasing stamps names no key twice. */
  lemma StampedDistinct<K>(order: seq<K>, lastUse: map<K, nat>, clock: nat)
    requires Stamped(order, lastUse, clock)
    ensures Distinct(order)
  {
    forall i, j | 0 <= i < j < |order| ensures order[i] != order[j] {
      assert lastUse[order[i]] < lastUse[order[j]];
    }
  }

  /** The head of a stamped list is the listed key whose last use is the oldest. */
  lemma HeadIsLeastRecent<K>(order: seq<K>, lastUse: map<K, nat>, clock: nat)
    requires Stamped(order, lastUse, clock) && order != []
    ensures forall k :: k in order ==> k in lastUse && lastUse[order[0]] <= lastUse[k]
  {
    forall k | k in order ensures k in lastUse && lastUse[order[0]] <= lastUse[k] {
      var j :| 0 <= j < |order| && order[j] == k;
      if j > 0 {
        assert lastUse[order[0]] < lastUse[order[j]];
      }
    }
  }

  /** Taking one key out keeps the others stamped in order. */
  lemma StampedAfterRemove<K>(order: seq<K>, lastUse: map<K, nat>, clock: nat, p: nat)
    requires Stamped(order, lastUse, clock) && p < |order|
    ensures Stamped(order[..p] + order[p + 1..], lastUse, clock)
  {
    var r := order[..p] + order[p + 1..];
    forall a | 0 <= a < |r| ensures r[a] in lastUse && lastUse[r[a]] < clock {
      ShiftedIndex(order, p, a);
    }
    forall a, b | 0 <= a < b < |r| ensures lastUse[r[a]] < lastUse[r[b]] {
      ShiftedIndex(order, p, a);
      ShiftedIndex(order, p, b);
    }
  }

  /** Using a key that is not listed, stamping it with the current clock and appending
      it keeps the list stamped in order, one tick later. */
  lemma StampedAfterAppend<K>(order: seq<K>, lastUse: map<K, nat>, clock: nat, key: K)
    requires Stamped(order, lastUse, clock) && key !in order
    ensures Stamped(order + [key], lastUse[key := clock], clock + 1)
  {
    var o := order + [key];
    var u := lastUse[key := clock];
    forall a | 0 <= a < |order| ensures o[a] == order[a] && o[a] != key && u[o[a]] == lastUse[order[a]] {
      assert order[a] in order;
    }
  }

  /** The cache invariant on plain values: `order` lists exactly the keys of `cache`,
      least recently used first, and holds no more than `capacity` of them. */
  ghost predicate Invariant<K(!new), V>(cache: map<K, V>, order: seq<K>, lastUse: map<K, nat>, clock: nat, capacity: int) {
    && (forall k :: k in cache <==> k in order)
    && (|order| <= capacity || order == [])
    && Stamped(order, lastUse, clock)
  }

  /** Re-using a present key (a read hit or an overwrite) keeps the invariant. */
  lemma InvariantAfterTouch<K(!new), V>(cache: map<K, V>, order: seq<K>, lastUse: map<K, nat>, clock: nat, capacity: int, key: K,
                                        cache': map<K, V>, order': seq<K>, lastUse': map<K, nat>, clock': nat)
    requires Invariant(cache, order, lastUse, clock, capacity) && key in cache
    requires (forall k :: k in cache' <==> k in cache) && order' == RemoveFirst(order, key) + [key]
    requires lastUse' == lastUse[key := clock] && clock' == clock + 1
    ensures Invariant(cache', order', lastUse', clock', capacity)
  {
    var r := RemoveFirst(order, key);
    StampedDistinct(order, lastUse, clock);
    RemoveFirstDistinct(order, key);
    StampedAfterRemove(order, lastUse, clock, IndexOf(order, key));
    StampedAfterAppend(r, lastUse, clock, key);
    assert |r| == |order| - 1;
    forall k ensures k in cache' <==> k in order' {
      assert k in cache' <==> k in cache;
    }
  }

  /** Adding a fresh key while there is room keeps the invariant. */
  lemma InvariantAfterInsert<K(!new), V>(cache: map<K, V>, order: seq<K>, lastUse: map<K, nat>, clock: nat, capacity: int, key: K, value: V,
                                         cache': map<K, V>, order': seq<K>, lastUse': map<K, nat>, clock': nat)
    requires Invariant(cache, order, lastUse, clock, capacity) && key !in cache && |cache| < capacity
    requires cache' == cache[key := value] && order' == order + [key]
    requires lastUse' == lastUse[key := clock] && clock' == clock + 1
    ensures Invariant(cache', order', lastUse', clock', capacity)
    ensures |cache'| <= capacity
  {
    StampedDistinct(order, lastUse, clock);
    MapSizeFromDistinctList(cache, order);
    StampedAfterAppend(order, lastUse, clock, key);
  }

  /** Removing a present key keeps the invariant. */
  lemma InvariantAfterRemove<K(!new), V>(cache: map<K, V>, order: seq<K>, lastUse: map<K, nat>, clock: nat, capacity: int, key: K,
                                         cache': map<K, V>, order': seq<K>)
    requires Invariant(cache, order, lastUse, clock, capacity) && key in cache
    requires cache' == cache - {key} && order' == RemoveFirst(order, key)
    ensures Invariant(cache', order', lastUse, clock, capacity)
  {
    StampedDistinct(order, lastUse, clock);
    RemoveFirstDistinct(order, key);
    StampedAfterRemove(order, lastUse, clock, IndexOf(order, key));
  }

  /** Evicting the head and adding a fresh key keeps the invariant and the size. */
  lemma InvariantAfterEvict<K(!new), V>(cache: map<K, V>, order: seq<K>, lastUse: map<K, nat>, clock: nat, capacity: int, key: K, value: V,
                                        cache': map<K, V>, order': seq<K>, lastUse': map<K, nat>, clock': nat)
    requires Invariant(cache, order, lastUse, clock, capacity) && key !in cache && order != []
    requires cache' == (cache - {order[0]})[key := value] && order' == order[1..] + [key]
    requires lastUse' == lastUse[key := clock] && clock' == clock + 1
    ensures Invariant(cache', order', lastUse', clock', capacity)
    ensures |cache'| == |cache|
  {
    StampedDistinct(order, lastUse, clock);
    MapSizeFromDistinctList(cache, order);
    assert RemoveFirst(order, order[0]) == order[1..];
    InvariantAfterRemove(cache, order, lastUse, clock, capacity, order[0], cache - {order[0]}, order[1..]);
    StampedDistinct(order[1..], lastUse, clock);
    MapSizeFromDistinctList(cache - {order[0]}, order[1..]);
    InvariantAfterInsert(cache - {order[0]}, order[1..], lastUse, clock, capacity, key, value, cache', order', lastUse', clock');
  }

  class LruCache<K(==, !new), V> {
    const capacity: int
    var cache: map<K, V>
    var order: seq<K>
    /** The number of accesses so far: successful reads and writes. */
    ghost var clock: nat
    /** For each key, the access number of its last read or write: the meaning of
        "recently used". */
    ghost var lastUse: map<K, nat>

    /** The object invariant: see `Invariant`. */
    ghost predicate Valid()
      reads this
    {
      Invariant(cache, order, lastUse, clock, capacity)
    }

    constructor (capacity: int)
      ensures Valid() && this.capacity == capacity
      ensures cache == map[] && order == [] && clock == 0
    {
      this.capacity := capacity;
      cache := map[];
      order := [];
      clock := 0;
      lastUse := map[];
    }

    /** `cache[key]`: a hit returns the value and makes `key` the most recently used;
        a miss (`KeyError`) gives `None` and changes nothing. */
    method Get(key: K) returns (r: Option<V>)
      requires Valid()
      modifies this
      ensures Valid()
      ensures cache == old(cache)
      ensures key in old(cache) ==>
        && r == Some(old(cache)[key])
        && order == RemoveFirst(old(order), key) + [key]
        && lastUse == old(lastUse)[key := old(clock)] && clock == old(clock) + 1
      ensures key !in old(cache) ==>
        r == None && order == old(order) && lastUse == old(lastUse) && clock == old(clock)
    {
      if key in cache {
        order := RemoveFirst(order, key) + [key];
        lastUse := lastUse[key := clock];
        clock := clock + 1;
        InvariantAfterTouch(old(cache), old(order), old(lastUse), old(clock), capacity, key, cache, order, lastUse, clock);
        r := Some(cache[key]);
      } else {
        r := None;
      }
    }

    /** `cache[key] = value`. An existing key is replaced and moved to the back; a new key
        when full first evicts `order[0]`, the least recently used key, and nothing else.
        With no room at all (`capacity < 1`) the eviction pops from an empty list, which
        raises `IndexError`: `ok` is false and nothing changes. */
    method Set(key: K, value: V) returns (ok: bool)
      requires Valid()
      modifies this
      ensures Valid()
      ensures ok <==> key in old(cache) || capacity >= 1
      ensures ok ==> key in cache && cache[key] == value
      ensures ok ==> lastUse == old(lastUse)[key := old(clock)] && clock == old(clock) + 1
      ensures ok ==> |cache| <= capacity
      ensures key in old(cache) ==>
        cache == old(cache)[key := value] && order == RemoveFirst(old(order), key) + [key]
      ensures key !in old(cache) && |old(cache)| < capacity ==>
        cache == old(cache)[key := value] && order == old(order) + [key]
      ensures key !in old(cache) && |old(cache)| >= capacity && ok ==>
        && old(order) != []
        && cache == (old(cache) - {old(order)[0]})[key := value]
        && order == old(order)[1..] + [key]
        && forall k :: k in old(cache) ==> old(lastUse)[old(order)[0]] <= old(lastUse)[k]
      ensures !ok ==> cache == old(cache) && order == old(order) && lastUse == old(lastUse) && clock == old(clock)
    {
      StampedDistinct(order, lastUse, clock);
      MapSizeFromDistinctList(cache, order);
      if key !in cache && |cache| >= capacity && order == [] {
        return false;
      }
      if key in cache {
        cache := cache[key := value];
        order := RemoveFirst(order, key) + [key];
        lastUse := lastUse[key := clock];
        clock := clock + 1;
        InvariantAfterTouch(old(cache), old(order), old(lastUse), old(clock), capacity, key, cache, order, lastUse, clock);
      } else if |cache| < capacity {
        cache := cache[key := value];
        order := order + [key];
        lastUse := lastUse[key := clock];
        clock := clock + 1;
        InvariantAfterInsert(old(cache), old(order), old(lastUse), old(clock), capacity, key, value, cache, order, lastUse, clock);
      } else {
        HeadIsLeastRecent(order, lastUse, clock);
        cache := (cache - {order[0]})[key := value];
        order := order[1..] + [key];
        lastUse := lastUse[key := clock];
        clock := clock + 1;
        InvariantAfterEvict(old(cache), old(order), old(lastUse), old(clock), capacity, key, value, cache, order, lastUse, clock);
      }
      ok := true;
    }

    /** `key in cache`: membership agrees with the recency list. */
    function Contains(key: K): (b: bool)
      reads this
      requires Valid()
      ensures b <==> key in order
    {
      key in cache
    }

    /** `len(cache)`: the number of entries, which never exceeds the capacity. */
    function Len(): (n: nat)
      reads this
      requires Valid()
      ensures n == |order|
      ensures n <= capacity || n == 0
    {
      StampedDistinct(order, lastUse, clock);
      MapSizeFromDistinctList(cache, order);
      |cache|
    }

    /** `cache.items()`: the stored entries, whose keys are the listed keys. */
    function Items(): (m: map<K, V>)
      reads this
      requires Valid()
      ensures forall k :: k in m <==> k in order
      ensures forall k :: k in m ==> m[k] == cache[k]
    {
      cache
    }

    /** `clear()`: empties both the dictionary and the recency list. */
    method Clear()
      requires Valid()
      modifies this
      ensures Valid()
      ensures cache == map[] && order == [] && lastUse == old(lastUse) && clock == old(clock)
    {
      cache := map[];
      order := [];
    }

    /** `pop(key, default)`: removes a present key and returns its value; an absent key
        returns `default` and changes nothing. Neither counts as a use. */
    method Pop(key: K, default: V) returns (r: V)
      requires Valid()
      modifies this
      ensures Valid()
      ensures lastUse == old(lastUse) && clock == old(clock)
      ensures key in old(cache) ==>
        r == old(cache)[key] && cache == old(cache) - {key} && order == RemoveFirst(old(order), key)
      ensures key !in old(cache) ==> r == default && cache == old(cache) && order == old(order)
    {
      if key in cache {
        r := cache[key];
        cache := cache - {key};
        order := RemoveFirst(order, key);
        InvariantAfterRemove(old(cache), old(order), lastUse, clock, capacity, key, cache, order);
      } else {
        r := default;
      }
    }
  }

  /** The cache holds one entry per listed key. */
  lemma InvariantSize<K(!new), V>(cache: map<K, V>, order: seq<K>, lastUse: map<K, nat>, clock: nat, capacity: int)
    requires Invariant(cache, order, lastUse, clock, capacity)
    ensures |cache| == |order|
  {
    StampedDistinct(order, lastUse, clock);
    MapSizeFromDistinctList(cache, order);
  }

  /** Writing a key the cache does not hold while there is room appends it. */
  method AddNew(c: LruCache<char, int>, key: char, value: int)
    requires c.Valid() && key !in c.order && |c.order| < c.capacity
    modifies c
    ensures c.Valid() && c.order == old(c.order) + [key]
  {
    InvariantSize(c.cache, c.order, c.lastUse, c.clock, c.capacity);
    var ok := c.Set(key, value);
  }

  /** A cache of capacity 3 after inserting A, B and C. */
  method FilledCache() returns (c: LruCache<char, int>)
    ensures fresh(c) && c.Valid() && c.capacity == 3 && c.order == ['A', 'B', 'C']
  {
    c := new LruCache<char, int>(3);
    AddNew(c, 'A', 1);
    AddNew(c, 'B', 2);
    AddNew(c, 'C', 3);
  }

  /** Reading A from the filled cache is a hit and makes A the most recently used. */
  method ReadA(c: LruCache<char, int>)
    requires c.Valid() && c.capacity == 3 && c.order == ['A', 'B', 'C']
    modifies c
    ensures c.Valid() && c.capacity == 3 && c.order == ['B', 'C', 'A']
  {
    assert IndexOf(c.order, 'A') == 0;
    assert RemoveFirst(c.order, 'A') == ['B', 'C'];
    var hit := c.Get('A');
  }

  /** Writing D to the full cache after the read evicts B, the least recently used. */
  method WriteD(c: LruCache<char, int>)
    requires c.Valid() && c.capacity == 3 && c.order == ['B', 'C', 'A']
    modifies c
    ensures c.Valid() && c.order == ['C', 'A', 'D']
  {
    InvariantSize(c.cache, c.order, c.lastUse, c.clock, c.capacity);
    var ok := c.Set('D', 4);
    assert ['B', 'C', 'A'][1..] + ['D'] == ['C', 'A', 'D'];
  }

  /** Capacity 3; insert A, B, C; read A; insert D: B is gone and A, C, D remain. */
  method EvictionScenario() {
    var c := FilledCache();
    ReadA(c);
    WriteD(c);
    var hasB := c.Contains('B');
    var hasA := c.Contains('A');
    assert !hasB && hasA;
  }
}
