/**
 * Generic list operations the handlers use: `Array.prototype.filter`, and the
 * orderings they impose with `Array.prototype.sort` and a
 * comparator `key(b) - key(a)`: a stable sort into non-increasing key order.
 * An ascending sort (`key(a) - key(b)`) is the same sort on the negated key.
 */
module Listing {

  /** `s` lists its elements in non-increasing `key` order. */
  ghost predicate NonIncreasing<T>(s: seq<T>, key: T -> int) {
    forall i, j :: 0 <= i < j < |s| ==> key(s[i]) >= key(s[j])
  }

  /** Prepending an element whose key bounds the rest keeps the order. */
  lemma ConsNonIncreasing<T>(h: T, t: seq<T>, key: T -> int)
    requires NonIncreasing(t, key)
    requires forall y :: y in t ==> key(y) <= key(h)
    ensures NonIncreasing([h] + t, key)
  {
    var r := [h] + t;
    forall i, j | 0 <= i < j < |r| ensures key(r[i]) >= key(r[j]) {
      assert r[j] == t[j - 1];
      if i > 0 { assert r[i] == t[i - 1]; }
    }
  }

  /** Inserts `x` before the first element of `s` whose key is smaller. */
  function Insert<T>(x: T, s: seq<T>, key: T -> int): (r: seq<T>)
    requires NonIncreasing(s, key)
    ensures NonIncreasing(r, key)
    ensures multiset(r) == multiset(s) + multiset{x}
    ensures forall y :: y in r ==> y == x || y in s
  {
    if s == [] then [x]
    else if key(x) >= key(s[0]) then
      assert forall y :: y in s ==> key(y) <= key(s[0]);
      ConsNonIncreasing(x, s, key);
      [x] + s
    else
      var rest := Insert(x, s[1..], key);
      assert s == [s[0]] + s[1..];
      assert forall y :: y in s[1..] ==> key(y) <= key(s[0]);
      ConsNonIncreasing(s[0], rest, key);
      [s[0]] + rest
  }

  /** Sorts `s` into non-increasing `key` order, keeping equal keys in input order. */
  function SortDesc<T>(s: seq<T>, key: T -> int): (r: seq<T>)
    ensures NonIncreasing(r, key)
    ensures multiset(r) == multiset(s)
    ensures |r| == |s|
  {
    if s == [] then []
    else
      assert s == [s[0]] + s[1..];
      Insert(s[0], SortDesc(s[1..], key), key)
  }

  /** A sorted sequence holds exactly the elements of its input. */
  lemma SortDescSameElements<T>(s: seq<T>, key: T -> int, x: T)
    ensures x in SortDesc(s, key) <==> x in s
  {
    assert x in multiset(SortDesc(s, key)) <==> x in multiset(s);
  }

  /** The first element of a non-empty sorted sequence has the greatest key of the input. */
  lemma SortDescHeadIsMax<T>(s: seq<T>, key: T -> int)
    requires s != []
    ensures SortDesc(s, key)[0] in s
    ensures forall x :: x in s ==> key(x) <= key(SortDesc(s, key)[0])
  {
    var r := SortDesc(s, key);
    SortDescSameElements(s, key, r[0]);
    forall x | x in s ensures key(x) <= key(r[0]) {
      SortDescSameElements(s, key, x);
      var j :| 0 <= j < |r| && r[j] == x;
    }
  }

  /** `Array.prototype.filter`: the elements satisfying `p`, in input order. */
  function Filter<T>(s: seq<T>, p: T -> bool): (r: seq<T>)
    ensures forall x :: x in r ==> x in s && p(x)
    ensures forall x :: x in s && p(x) ==> x in r
    ensures |r| <= |s|
  {
    if s == [] then []
    else (if p(s[0]) then [s[0]] else []) + Filter(s[1..], p)
  }

  /** The filter keeps every satisfying occurrence: its multiset is that of `s` restricted to `p`. */
  lemma {:induction false} FilterMultiset<T>(s: seq<T>, p: T -> bool, x: T)
    ensures multiset(Filter(s, p))[x] == if p(x) then multiset(s)[x] else 0
  {
    if s != [] {
      FilterMultiset(s[1..], p, x);
      assert s == [s[0]] + s[1..];
    }
  }

  /** No key occurs twice. */
  ghost predicate Distinct<K>(ks: seq<K>) {
    forall i, j :: 0 <= i < j < |ks| ==> ks[i] != ks[j]
  }

  /** The values a map holds under the keys `ks`, in that order. */
  function ValuesAt<K, V>(m: map<K, V>, ks: seq<K>): (r: seq<V>)
    requires forall i :: 0 <= i < |ks| ==> ks[i] in m
    ensures |r| == |ks| && forall i :: 0 <= i < |ks| ==> r[i] == m[ks[i]]
  {
    seq(|ks|, i requires 0 <= i < |ks| => m[ks[i]])
  }

  /** The keys among `ks` whose values satisfy `p`. */
  ghost function KeysWhere<K, V>(m: map<K, V>, ks: seq<K>, p: V -> bool): set<K>
    requires forall i :: 0 <= i < |ks| ==> ks[i] in m
  {
    set k | k in ks && p(m[k])
  }

  /** The keys selected from `ks` are the head, when it is selected, and those selected from the rest. */
  lemma KeysWhereCons<K, V>(m: map<K, V>, ks: seq<K>, p: V -> bool)
    requires forall i :: 0 <= i < |ks| ==> ks[i] in m
    requires Distinct(ks) && ks != []
    ensures KeysWhere(m, ks, p) == (if p(m[ks[0]]) then {ks[0]} else {}) + KeysWhere(m, ks[1..], p)
    ensures ks[0] !in KeysWhere(m, ks[1..], p)
  {
    assert ks == [ks[0]] + ks[1..];
    assert ks[0] !in ks[1..];
  }

  /**
   * Counting the filtered values of an enumeration of keys is counting the
   * keys whose values satisfy `p`: the count does not depend on the order in
   * which the store hands back its entries.
   */
  lemma {:induction false} CountOverKeys<K, V>(m: map<K, V>, ks: seq<K>, p: V -> bool)
    requires forall i :: 0 <= i < |ks| ==> ks[i] in m
    requires Distinct(ks)
    ensures |Filter(ValuesAt(m, ks), p)| == |KeysWhere(m, ks, p)|
  {
    if ks != [] {
      var t := ks[1..];
      CountOverKeys(m, t, p);
      assert ValuesAt(m, ks)[1..] == ValuesAt(m, t);
      KeysWhereCons(m, ks, p);
    }
  }

  /** Filtering distributes over concatenation. */
  lemma {:induction false} FilterAppend<T>(a: seq<T>, b: seq<T>, p: T -> bool)
    ensures Filter(a + b, p) == Filter(a, p) + Filter(b, p)
  {
    if a == [] {
      assert a + b == b;
    } else {
      var h := if p(a[0]) then [a[0]] else [];
      FilterAppend(a[1..], b, p);
      assert (a + b)[0] == a[0] && (a + b)[1..] == a[1..] + b;
      calc {
        Filter(a + b, p);
        h + Filter(a[1..] + b, p);
        h + (Filter(a[1..], p) + Filter(b, p));
        (h + Filter(a[1..], p)) + Filter(b, p);
        Filter(a, p) + Filter(b, p);
      }
    }
  }

  /** A duplicate-free sequence has as many elements as its set. */
  lemma {:induction false} DistinctCard<K>(ks: seq<K>)
    requires Distinct(ks)
    ensures |set k | k in ks| == |ks|
  {
    if ks != [] {
      DistinctCard(ks[1..]);
      assert (set k | k in ks) == {ks[0]} + (set k | k in ks[1..]);
      assert ks[0] !in ks[1..];
    }
  }
}
