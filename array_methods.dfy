/**
 * The JavaScript array methods the core relies on.
 *
 * `Array.prototype.sort` with the numeric comparator `(a, b) => key(a) - key(b)`
 * is stable (ECMAScript 2019 and later), so for such a comparator its result is
 * fully determined: ascending by key, elements with equal keys in their
 * original order. SortBy is that result, computed by insertion sort; a sort
 * with comparator `key(b) - key(a)` is SortBy with the key negated.
 * `reduce` with addition is SumBy, and `splice` replacing one element is
 * Splice.
 */
module ArrayMethods {

  ghost predicate SortedBy<T>(s: seq<T>, key: T -> real) {
    forall i, j :: 0 <= i < j < |s| ==> key(s[i]) <= key(s[j])
  }

  /** Sorted by `key`, and among equal keys sorted by `key2`. */
  ghost predicate SortedThenBy<T>(s: seq<T>, key: T -> real, key2: T -> real) {
    forall i, j :: 0 <= i < j < |s| ==>
      key(s[i]) < key(s[j]) || (key(s[i]) == key(s[j]) && key2(s[i]) <= key2(s[j]))
  }

  /** Puts `x` in front of the first element whose key is not smaller. */
  function Insert<T>(x: T, t: seq<T>, key: T -> real): (r: seq<T>)
    ensures |r| == |t| + 1
  {
    if t == [] || key(x) <= key(t[0]) then [x] + t
    else [t[0]] + Insert(x, t[1..], key)
  }

  /** The stable ascending sort of `s` by `key`. */
  function SortBy<T>(s: seq<T>, key: T -> real): (r: seq<T>)
    ensures |r| == |s|
  {
    if s == [] then [] else Insert(s[0], SortBy(s[1..], key), key)
  }

  lemma {:induction false} InsertMultiset<T>(x: T, t: seq<T>, key: T -> real)
    ensures multiset(Insert(x, t, key)) == multiset(t) + multiset{x}
  {
    if !(t == [] || key(x) <= key(t[0])) {
      assert t == [t[0]] + t[1..];
      InsertMultiset(x, t[1..], key);
    }
  }

  /** The sort is a permutation of its input. */
  lemma {:induction false} SortByMultiset<T>(s: seq<T>, key: T -> real)
    ensures multiset(SortBy(s, key)) == multiset(s)
  {
    if s != [] {
      assert s == [s[0]] + s[1..];
      SortByMultiset(s[1..], key);
      InsertMultiset(s[0], SortBy(s[1..], key), key);
    }
  }

  /** `s.splice(i, 1, ...items)`: the element at `i` replaced by `items`. */
  function Splice<T>(s: seq<T>, i: nat, items: seq<T>): (r: seq<T>)
    requires i < |s|
    ensures |r| == |s| - 1 + |items|
  {
    s[..i] + items + s[i + 1..]
  }

  /** The elements of `s` whose key is `k`, in their order in `s`. */
  function KeyClass<T>(s: seq<T>, key: T -> real, k: real): (r: seq<T>)
    ensures |r| <= |s|
    ensures forall i :: 0 <= i < |r| ==> key(r[i]) == k
  {
    if s == [] then []
    else (if key(s[0]) == k then [s[0]] else []) + KeyClass(s[1..], key, k)
  }

  /** How many elements `x` of `s` have `f(x) == u`. */
  function CountBy<T, U(==)>(s: seq<T>, f: T -> U, u: U): (r: nat)
    ensures r <= |s|
  {
    if s == [] then 0 else (if f(s[0]) == u then 1 else 0) + CountBy(s[1..], f, u)
  }

  function SumBy<T>(s: seq<T>, f: T -> real): real {
    if s == [] then 0.0 else f(s[0]) + SumBy(s[1..], f)
  }

  lemma {:induction false} InsertSorted<T>(x: T, t: seq<T>, key: T -> real)
    requires SortedBy(t, key)
    ensures SortedBy(Insert(x, t, key), key)
  {
    if t == [] || key(x) <= key(t[0]) {
      forall y | y in t ensures key(x) <= key(y) {
        var m :| 0 <= m < |t| && t[m] == y;
      }
      SortedByPrepend(x, t, key);
    } else {
      var rest := Insert(x, t[1..], key);
      InsertSorted(x, t[1..], key);
      InsertMultiset(x, t[1..], key);
      forall y | y in rest ensures key(t[0]) <= key(y) {
        assert y in multiset(rest);
        if y != x {
          assert y in multiset(t[1..]);
          var m :| 0 <= m < |t[1..]| && t[1..][m] == y;
          assert t[m + 1] == y;
        }
      }
      SortedByPrepend(t[0], rest, key);
    }
  }

  /** An element no larger than everything in a sorted list may go in front. */
  lemma SortedByPrepend<T>(x: T, t: seq<T>, key: T -> real)
    requires SortedBy(t, key)
    requires forall y :: y in t ==> key(x) <= key(y)
    ensures SortedBy([x] + t, key)
  {
    var r := [x] + t;
    forall i, j | 0 <= i < j < |r| ensures key(r[i]) <= key(r[j]) {
      assert r[j] == t[j - 1];
      if i > 0 {
        assert r[i] == t[i - 1];
      } else {
        assert t[j - 1] in t;
      }
    }
  }

  /** The sort puts its result in ascending key order. */
  lemma {:induction false} SortBySorted<T>(s: seq<T>, key: T -> real)
    ensures SortedBy(SortBy(s, key), key)
  {
    if s != [] {
      SortBySorted(s[1..], key);
      InsertSorted(s[0], SortBy(s[1..], key), key);
    }
  }

  lemma {:induction false} InsertKeyClass<T>(x: T, t: seq<T>, key: T -> real, k: real)
    ensures KeyClass(Insert(x, t, key), key, k)
         == (if key(x) == k then [x] else []) + KeyClass(t, key, k)
  {
    if t == [] || key(x) <= key(t[0]) {
      var r := [x] + t;
      assert r[0] == x && r[1..] == t;
    } else {
      var rest := Insert(x, t[1..], key);
      var r := [t[0]] + rest;
      assert r[0] == t[0] && r[1..] == rest;
      InsertKeyClass(x, t[1..], key, k);
    }
  }

  /** Stability: for every key value, the elements with that key keep their
      relative order. */
  lemma {:induction false} SortByStable<T>(s: seq<T>, key: T -> real, k: real)
    ensures KeyClass(SortBy(s, key), key, k) == KeyClass(s, key, k)
  {
    if s != [] {
      SortByStable(s[1..], key, k);
      InsertKeyClass(s[0], SortBy(s[1..], key), key, k);
    }
  }

  lemma {:induction false} InsertThenBy<T>(x: T, t: seq<T>, key: T -> real, key2: T -> real)
    requires SortedThenBy(t, key, key2)
    requires forall y :: y in t ==> key2(x) <= key2(y)
    ensures SortedThenBy(Insert(x, t, key), key, key2)
  {
    if t == [] || key(x) <= key(t[0]) {
      PrependThenBy(x, t, key, key2);
    } else {
      var rest := Insert(x, t[1..], key);
      InsertMultiset(x, t[1..], key);
      assert forall y :: y in t[1..] ==> y in t;
      InsertThenBy(x, t[1..], key, key2);
      forall y | y in rest ensures key(t[0]) < key(y) || (key(t[0]) == key(y) && key2(t[0]) <= key2(y)) {
        assert y in multiset(rest);
        if y != x {
          assert y in multiset(t[1..]);
          var m :| 0 <= m < |t[1..]| && t[1..][m] == y;
          assert t[m + 1] == y;
        }
      }
      ConsThenBy(t[0], rest, key, key2);
    }
  }

  lemma PrependThenBy<T>(x: T, t: seq<T>, key: T -> real, key2: T -> real)
    requires SortedThenBy(t, key, key2)
    requires forall y :: y in t ==> key2(x) <= key2(y)
    requires t == [] || key(x) <= key(t[0])
    ensures SortedThenBy([x] + t, key, key2)
  {
    forall y | y in t ensures key(x) < key(y) || (key(x) == key(y) && key2(x) <= key2(y)) {
      var m :| 0 <= m < |t| && t[m] == y;
      if m > 0 {
        assert key(t[0]) <= key(t[m]);
      }
    }
    ConsThenBy(x, t, key, key2);
  }

  /** An element that precedes everything in a list sorted by `key` then
      `key2` may go in front. */
  lemma ConsThenBy<T>(x: T, t: seq<T>, key: T -> real, key2: T -> real)
    requires SortedThenBy(t, key, key2)
    requires forall y :: y in t ==> key(x) < key(y) || (key(x) == key(y) && key2(x) <= key2(y))
    ensures SortedThenBy([x] + t, key, key2)
  {
    var r := [x] + t;
    forall i, j | 0 <= i < j < |r|
      ensures key(r[i]) < key(r[j]) || (key(r[i]) == key(r[j]) && key2(r[i]) <= key2(r[j]))
    {
      assert r[j] == t[j - 1];
      if i > 0 {
        assert r[i] == t[i - 1];
      } else {
        assert t[j - 1] in t;
      }
    }
  }

  /** Sorting a sequence already ordered by `key2` by `key` leaves equal-key
      elements ordered by `key2`: the stable sort breaks ties by input order. */
  lemma {:induction false} SortByThenBy<T>(s: seq<T>, key: T -> real, key2: T -> real)
    requires SortedBy(s, key2)
    ensures SortedThenBy(SortBy(s, key), key, key2)
  {
    if s != [] {
      var t := SortBy(s[1..], key);
      SortByThenBy(s[1..], key, key2);
      SortByMultiset(s[1..], key);
      forall y | y in t ensures key2(s[0]) <= key2(y) {
        assert y in multiset(s[1..]);
        var m :| 0 <= m < |s[1..]| && s[1..][m] == y;
        assert s[m + 1] == y;
      }
      InsertThenBy(s[0], t, key, key2);
    }
  }

  lemma {:induction false} SumByConcat<T>(a: seq<T>, b: seq<T>, f: T -> real)
    ensures SumBy(a + b, f) == SumBy(a, f) + SumBy(b, f)
  {
    if a != [] {
      assert (a + b)[1..] == a[1..] + b;
      SumByConcat(a[1..], b, f);
    } else {
      assert a + b == b;
    }
  }

  lemma SumBySnoc<T>(s: seq<T>, x: T, f: T -> real)
    ensures SumBy(s + [x], f) == SumBy(s, f) + f(x)
  {
    SumByConcat(s, [x], f);
    assert SumBy([x], f) == f(x) + SumBy([x][1..], f);
    assert [x][1..] == [];
  }

  lemma {:induction false} SumByInsert<T>(x: T, t: seq<T>, key: T -> real, f: T -> real)
    ensures SumBy(Insert(x, t, key), f) == f(x) + SumBy(t, f)
  {
    if t == [] || key(x) <= key(t[0]) {
      assert ([x] + t)[1..] == t;
    } else {
      assert ([t[0]] + Insert(x, t[1..], key))[1..] == Insert(x, t[1..], key);
      SumByInsert(x, t[1..], key, f);
    }
  }

  /** Sorting does not change a sum. */
  lemma {:induction false} SumBySortBy<T>(s: seq<T>, key: T -> real, f: T -> real)
    ensures SumBy(SortBy(s, key), f) == SumBy(s, f)
  {
    if s != [] {
      SumBySortBy(s[1..], key, f);
      SumByInsert(s[0], SortBy(s[1..], key), key, f);
    }
  }

  lemma Distribute(v: real, n: real)
    ensures v * (n + 1.0) == v + v * n
  {
  }

  /** The prefix one element longer is the prefix followed by that element. */
  lemma PrefixSnoc<T>(s: seq<T>, k: nat)
    requires k < |s|
    ensures s[..k + 1] == s[..k] + [s[k]]
  {
    assert s[..k + 1] == s[..k] + [s[k]];
  }

  /** A sequence without repeated elements holds each value at most once. */
  lemma {:induction false} DistinctCount<T>(s: seq<T>)
    requires forall i, j :: 0 <= i < j < |s| ==> s[i] != s[j]
    ensures forall a :: multiset(s)[a] <= 1
  {
    if s != [] {
      var t := s[1..];
      assert s == [s[0]] + t;
      forall i, j | 0 <= i < j < |t| ensures t[i] != t[j] {
        assert t[i] == s[i + 1] && t[j] == s[j + 1];
      }
      DistinctCount(t);
      forall k | 0 <= k < |t| ensures t[k] != s[0] {
        assert t[k] == s[k + 1];
      }
      assert s[0] !in t;
    }
  }

  /** A sum of `n` equal terms is the term times `n`. */
  lemma SumByConstantCount<T>(s: seq<T>, f: T -> real, c: real, n: nat)
    requires |s| == n
    requires forall i :: 0 <= i < |s| ==> f(s[i]) == c
    ensures SumBy(s, f) == c * (n as real)
  {
    SumByConstant(s, f, c);
  }

  /** A sum of equal terms is the term times their count. */
  lemma {:induction false} SumByConstant<T>(s: seq<T>, f: T -> real, c: real)
    requires forall i :: 0 <= i < |s| ==> f(s[i]) == c
    ensures SumBy(s, f) == c * (|s| as real)
  {
    if s != [] {
      assert forall i :: 0 <= i < |s[1..]| ==> s[1..][i] == s[i + 1];
      SumByConstant(s[1..], f, c);
      assert (|s| as real) == (|s[1..]| as real) + 1.0;
      Distribute(c, |s[1..]| as real);
    }
  }

  /** Sums over two sequences agree when their terms agree position by position. */
  lemma {:induction false} SumByPointwise<T, U>(a: seq<T>, f: T -> real, b: seq<U>, g: U -> real)
    requires |a| == |b|
    requires forall k :: 0 <= k < |a| ==> f(a[k]) == g(b[k])
    ensures SumBy(a, f) == SumBy(b, g)
  {
    if a != [] {
      assert forall k :: 0 <= k < |a[1..]| ==> a[1..][k] == a[k + 1] && b[1..][k] == b[k + 1];
      SumByPointwise(a[1..], f, b[1..], g);
    }
  }

  lemma {:induction false} SumByNonnegative<T>(s: seq<T>, f: T -> real)
    requires forall i :: 0 <= i < |s| ==> f(s[i]) >= 0.0
    ensures SumBy(s, f) >= 0.0
  {
    if s != [] {
      assert forall i :: 0 <= i < |s[1..]| ==> s[1..][i] == s[i + 1];
      SumByNonnegative(s[1..], f);
    }
  }

  lemma {:induction false} CountByConcat<T, U>(a: seq<T>, b: seq<T>, f: T -> U, u: U)
    ensures CountBy(a + b, f, u) == CountBy(a, f, u) + CountBy(b, f, u)
  {
    if a != [] {
      assert (a + b)[1..] == a[1..] + b;
      CountByConcat(a[1..], b, f, u);
    } else {
      assert a + b == b;
    }
  }

  lemma {:induction false} CountByInsert<T, U>(x: T, t: seq<T>, key: T -> real, f: T -> U, u: U)
    ensures CountBy(Insert(x, t, key), f, u) == (if f(x) == u then 1 else 0) + CountBy(t, f, u)
  {
    if t == [] || key(x) <= key(t[0]) {
      assert ([x] + t)[1..] == t;
    } else {
      assert ([t[0]] + Insert(x, t[1..], key))[1..] == Insert(x, t[1..], key);
      CountByInsert(x, t[1..], key, f, u);
    }
  }

  /** Sorting does not change a count. */
  lemma {:induction false} CountBySortBy<T, U>(s: seq<T>, key: T -> real, f: T -> U, u: U)
    ensures CountBy(SortBy(s, key), f, u) == CountBy(s, f, u)
  {
    if s != [] {
      CountBySortBy(s[1..], key, f, u);
      CountByInsert(s[0], SortBy(s[1..], key), key, f, u);
    }
  }
}
