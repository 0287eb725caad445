/** Sequence helpers shared by the cache and the metadata grouping: the
    Python list operations `x in s`, `s.index(x)` and `s.remove(x)`. */
module Seqs {

  /** No element occurs twice. */
  ghost predicate Distinct<T>(s: seq<T>) {
    forall i, j :: 0 <= i < j < |s| ==> s[i] != s[j]
  }

  /** Position of the first occurrence of `x` (Python `s.index(x)`). */
  function IndexOf<T(==)>(s: seq<T>, x: T): (i: nat)
    requires x in s
    ensures i < |s| && s[i] == x
    ensures forall j :: 0 <= j < i ==> s[j] != x
  {
    if s[0] == x then 0 else 1 + IndexOf(s[1..], x)
  }

  /** Python `s.remove(x)`: drops the first occurrence of `x`. */
  function RemoveFirst<T(==)>(s: seq<T>, x: T): (r: seq<T>)
    requires x in s
    ensures |r| == |s| - 1
    ensures multiset(r) + multiset{x} == multiset(s)
  {
    var i := IndexOf(s, x);
    assert s == s[..i] + [x] + s[i + 1..];
    s[..i] + s[i + 1..]
  }

  /** In a sequence without repetitions, removing `x` leaves exactly the other elements,
      still without repetitions. */
  lemma RemoveFirstDistinct<T>(s: seq<T>, x: T)
    requires x in s && Distinct(s)
    ensures Distinct(RemoveFirst(s, x))
    ensures forall y :: y in RemoveFirst(s, x) <==> y in s && y != x
  {
    var i := IndexOf(s, x);
    var r := s[..i] + s[i + 1..];
    assert r == RemoveFirst(s, x);
    forall a, b | 0 <= a < b < |r| ensures r[a] != r[b] {
      ShiftedIndex(s, i, a);
      ShiftedIndex(s, i, b);
    }
    forall y ensures y in r <==> y in s && y != x {
      RemovedMember(s, i, y);
    }
  }

  /** Cutting out position `i` of a sequence without repetitions removes `s[i]` and
      keeps every other element. */
  lemma RemovedMember<T>(s: seq<T>, i: nat, y: T)
    requires i < |s| && Distinct(s)
    ensures y in s[..i] + s[i + 1..] <==> y in s && y != s[i]
  {
    var r := s[..i] + s[i + 1..];
    if y in r {
      var k :| 0 <= k < |r| && r[k] == y;
      ShiftedIndex(s, i, k);
    }
    if y in s && y != s[i] {
      var k :| 0 <= k < |s| && s[k] == y;
      var k' := if k < i then k else k - 1;
      ShiftedIndex(s, i, k');
    }
  }

  /** Position `k` of `s` with position `i` cut out is position `k` or `k + 1` of `s`. */
  lemma ShiftedIndex<T>(s: seq<T>, i: nat, k: nat)
    requires i < |s| && k < |s| - 1
    ensures (s[..i] + s[i + 1..])[k] == s[if k < i then k else k + 1]
  {
  }

  /** The elements of a sequence as a set. */
  ghost function Elements<T>(s: seq<T>): set<T> {
    set x | x in s
  }

  /** A sequence without repetitions has as many distinct elements as positions. */
  lemma {:induction false} DistinctCardinality<T>(s: seq<T>)
    requires Distinct(s)
    ensures |Elements(s)| == |s|
  {
    if s != [] {
      var t := s[1..];
      assert Distinct(t);
      DistinctCardinality(t);
      assert s[0] !in t;
      assert Elements(s) == {s[0]} + Elements(t);
    }
  }

  /** A key set listed without repetitions by `s` has `|s|` keys. */
  lemma MapSizeFromDistinctList<K, V>(m: map<K, V>, s: seq<K>)
    requires Distinct(s)
    requires forall k :: k in m <==> k in s
    ensures |m| == |s|
  {
    DistinctCardinality(s);
    assert m.Keys == Elements(s);
  }

  /** Each element of a sequence without repetitions occurs once in its multiset. */
  lemma {:induction false} DistinctMultiplicity<T>(s: seq<T>, x: T)
    requires Distinct(s)
    ensures multiset(s)[x] <= 1
  {
    if s != [] {
      assert Distinct(s[1..]);
      DistinctMultiplicity(s[1..], x);
      assert s == [s[0]] + s[1..];
      assert s[0] !in s[1..];
    }
  }

  /** A rearrangement of a sequence without repetitions has none either. */
  lemma DistinctPermutation<T>(s: seq<T>, t: seq<T>)
    requires Distinct(s) && multiset(s) == multiset(t)
    ensures Distinct(t)
  {
    forall i, j | 0 <= i < j < |t| ensures t[i] != t[j] {
      DistinctMultiplicity(s, t[i]);
      assert t == t[..i] + [t[i]] + t[i + 1..j] + [t[j]] + t[j + 1..];
      assert multiset(t)[t[i]] >= multiset([t[i]] + t[i + 1..j] + [t[j]])[t[i]];
    }
  }
}
