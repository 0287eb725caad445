/** Python's `sorted()` on the values the metadata export sorts: an insertion sort
    under a total order, and the lexicographic order of Python `str` and of pairs. */
module Sorting {

  /** `le` relates every two values one way or the other. */
  ghost predicate Total<T(!new)>(le: (T, T) -> bool) {
    forall a, b :: le(a, b) || le(b, a)
  }

  /** Two values each at most the other are equal. */
  ghost predicate Antisymmetric<T(!new)>(le: (T, T) -> bool) {
    forall a, b :: le(a, b) && le(b, a) ==> a == b
  }

  ghost predicate Transitive<T(!new)>(le: (T, T) -> bool) {
    forall a, b, c :: le(a, b) && le(b, c) ==> le(a, c)
  }

  /** Neighbours are in order. */
  ghost predicate Sorted<T>(s: seq<T>, le: (T, T) -> bool) {
    forall i :: 0 <= i < |s| - 1 ==> le(s[i], s[i + 1])
  }

  /** Puts `x` in front of the first element it does not exceed. */
  function Insert<T(!new)>(x: T, s: seq<T>, le: (T, T) -> bool): (r: seq<T>)
    requires Total(le) && Sorted(s, le)
    ensures Sorted(r, le)
    ensures multiset(r) == multiset(s) + multiset{x}
    ensures |r| == |s| + 1 && (r[0] == x || (s != [] && r[0] == s[0]))
  {
    if s == [] || le(x, s[0]) then [x] + s
    else
      assert s == [s[0]] + s[1..];
      [s[0]] + Insert(x, s[1..], le)
  }

  /** `sorted(s)`: an ordered permutation of `s`. */
  function Sort<T(!new)>(s: seq<T>, le: (T, T) -> bool): (r: seq<T>)
    requires Total(le)
    ensures Sorted(r, le)
    ensures multiset(r) == multiset(s)
  {
    if s == [] then []
    else
      assert s == [s[0]] + s[1..];
      Insert(s[0], Sort(s[1..], le), le)
  }

  /** The head of a list sorted under a total, transitive order is at most every element. */
  lemma {:induction false} SortedHeadLeast<T(!new)>(s: seq<T>, le: (T, T) -> bool)
    requires Total(le) && Transitive(le) && Sorted(s, le) && s != []
    ensures forall x :: x in s ==> le(s[0], x)
  {
    forall x | x in s ensures le(s[0], x) {
      if x == s[0] {
        assert le(x, x) || le(x, x);
      } else {
        assert x in s[1..];
        assert Sorted(s[1..], le);
        SortedHeadLeast(s[1..], le);
        assert le(s[0], s[1]) && le(s[1], x);
      }
    }
  }

  /** Under a total order that is also antisymmetric and transitive there is only one
      sorted arrangement of a list, so `Sort` returns what any correct sort returns. */
  lemma {:induction false} SortedPermutationUnique<T(!new)>(s: seq<T>, t: seq<T>, le: (T, T) -> bool)
    requires Total(le) && Antisymmetric(le) && Transitive(le)
    requires Sorted(s, le) && Sorted(t, le) && multiset(s) == multiset(t)
    ensures s == t
  {
    if s == [] {
      assert |t| == |multiset(t)| == 0;
    } else {
      assert |t| == |multiset(t)| == |s|;
      SameHead(s, t, le);
      SameTail(s, t);
      assert Sorted(s[1..], le) && Sorted(t[1..], le);
      SortedPermutationUnique(s[1..], t[1..], le);
      assert s == [s[0]] + s[1..] && t == [t[0]] + t[1..];
    }
  }

  /** Two non-empty sorted permutations of each other start with the same element. */
  lemma SameHead<T(!new)>(s: seq<T>, t: seq<T>, le: (T, T) -> bool)
    requires Total(le) && Antisymmetric(le) && Transitive(le)
    requires Sorted(s, le) && Sorted(t, le) && multiset(s) == multiset(t) && s != [] && t != []
    ensures s[0] == t[0]
  {
    assert s[0] in multiset(t) && t[0] in multiset(s);
    SortedHeadLeast(s, le);
    SortedHeadLeast(t, le);
    assert le(s[0], t[0]) && le(t[0], s[0]);
  }

  /** Permutations of each other with the same head have permuted tails. */
  lemma SameTail<T>(s: seq<T>, t: seq<T>)
    requires s != [] && t != [] && s[0] == t[0] && multiset(s) == multiset(t)
    ensures multiset(s[1..]) == multiset(t[1..])
  {
    assert s == [s[0]] + s[1..] && t == [t[0]] + t[1..];
    var ms, mt := multiset(s[1..]), multiset(t[1..]);
    assert multiset(s) == multiset{s[0]} + ms;
    assert multiset(t) == multiset{t[0]} + mt;
    forall x ensures ms[x] == mt[x] {
      assert multiset(s)[x] == multiset{s[0]}[x] + ms[x];
      assert multiset(t)[x] == multiset{t[0]}[x] + mt[x];
    }
    assert ms == mt;
  }

  /** Python `a <= b` on `str`: code point by code point, a proper prefix first. */
  predicate StrLe(a: string, b: string) {
    if a == [] then true
    else if b == [] then false
    else if a[0] != b[0] then a[0] < b[0]
    else StrLe(a[1..], b[1..])
  }

  lemma {:induction false} StrLeTotal(a: string, b: string)
    ensures StrLe(a, b) || StrLe(b, a)
  {
    if a != [] && b != [] && a[0] == b[0] {
      StrLeTotal(a[1..], b[1..]);
    }
  }

  lemma {:induction false} StrLeAntisymmetric(a: string, b: string)
    requires StrLe(a, b) && StrLe(b, a)
    ensures a == b
  {
    if a != [] && b != [] {
      StrLeAntisymmetric(a[1..], b[1..]);
      assert a == [a[0]] + a[1..] && b == [b[0]] + b[1..];
    }
  }

  lemma {:induction false} StrLeTransitive(a: string, b: string, c: string)
    requires StrLe(a, b) && StrLe(b, c)
    ensures StrLe(a, c)
  {
    if a != [] && b != [] && c != [] && a[0] == b[0] && b[0] == c[0] {
      StrLeTransitive(a[1..], b[1..], c[1..]);
    }
  }

  /** Python `<=` on a `(key, value)` tuple: by key, then by value. */
  predicate PairLe(p: (string, string), q: (string, string)) {
    if p.0 != q.0 then StrLe(p.0, q.0) else StrLe(p.1, q.1)
  }

  lemma StrLeIsTotal()
    ensures Total(StrLe)
  {
    forall a, b ensures StrLe(a, b) || StrLe(b, a) {
      StrLeTotal(a, b);
    }
  }

  /** `StrLe` is a total order: total, antisymmetric and transitive. */
  lemma StrLeIsOrder()
    ensures Total(StrLe) && Antisymmetric(StrLe) && Transitive(StrLe)
  {
    StrLeIsTotal();
    forall a, b | StrLe(a, b) && StrLe(b, a) ensures a == b {
      StrLeAntisymmetric(a, b);
    }
    forall a, b, c | StrLe(a, b) && StrLe(b, c) ensures StrLe(a, c) {
      StrLeTransitive(a, b, c);
    }
  }

  /** The tuple order is a total order as well. */
  lemma PairLeIsOrder()
    ensures Total(PairLe) && Antisymmetric(PairLe) && Transitive(PairLe)
  {
    PairLeIsTotal();
    forall p: (string, string), q: (string, string) | PairLe(p, q) && PairLe(q, p) ensures p == q {
      if p.0 != q.0 {
        StrLeAntisymmetric(p.0, q.0);
      } else {
        StrLeAntisymmetric(p.1, q.1);
      }
    }
    forall p: (string, string), q: (string, string), r: (string, string) | PairLe(p, q) && PairLe(q, r)
      ensures PairLe(p, r)
    {
      if p.0 != q.0 && q.0 != r.0 {
        StrLeTransitive(p.0, q.0, r.0);
        if p.0 == r.0 {
          StrLeAntisymmetric(p.0, q.0);
        }
      } else if p.0 == q.0 && q.0 == r.0 {
        StrLeTransitive(p.1, q.1, r.1);
      }
    }
  }

  /** Any sorted permutation of `s` is `Sort(s, le)`: for the string and tuple orders
      (`StrLeIsOrder`, `PairLeIsOrder`) the insertion sort returns what `sorted()` returns. */
  lemma SortIsTheSortedPermutation<T(!new)>(s: seq<T>, t: seq<T>, le: (T, T) -> bool)
    requires Total(le) && Antisymmetric(le) && Transitive(le)
    requires Sorted(t, le) && multiset(t) == multiset(s)
    ensures t == Sort(s, le)
  {
    SortedPermutationUnique(t, Sort(s, le), le);
  }

  lemma PairLeIsTotal()
    ensures Total(PairLe)
  {
    forall p: (string, string), q: (string, string) ensures PairLe(p, q) || PairLe(q, p) {
      StrLeTotal(p.0, q.0);
      StrLeTotal(p.1, q.1);
    }
  }
}
