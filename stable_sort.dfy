/**
  A stable sort by key, as done by Python's `sorted(xs, key=f)` and
  `xs.sort(key=f)`. The sort is specified by two facts: the output is
  non-decreasing in its keys, and for every key the elements carrying that key
  appear in the output in the same order as in the input. Lemma
  `StableSortUnique` shows that these two facts determine the output, so the
  insertion sort given here returns exactly what any stable sort returns.
*/
module StableSort {

  /** `leq` is a total order on keys. */
  ghost predicate TotalOrder<K(!new)>(leq: (K, K) -> bool) {
    && (forall a :: leq(a, a))
    && (forall a, b :: leq(a, b) && leq(b, a) ==> a == b)
    && (forall a, b, c :: leq(a, b) && leq(b, c) ==> leq(a, c))
    && (forall a, b :: leq(a, b) || leq(b, a))
  }

  /** The keys of `s` are non-decreasing. */
  ghost predicate Sorted<T, K>(s: seq<T>, key: T -> K, leq: (K, K) -> bool) {
    forall i, j :: 0 <= i < j < |s| ==> leq(key(s[i]), key(s[j]))
  }

  /** The elements of `s` whose key is `k`, in their order in `s`. */
  function KeyClass<T, K(==)>(s: seq<T>, key: T -> K, k: K): seq<T> {
    if s == [] then []
    else KeyClass(s[..|s| - 1], key, k) + (if key(s[|s| - 1]) == k then [s[|s| - 1]] else [])
  }

  /** Every key has the same elements, in the same order, in `s` and `t`. */
  ghost predicate SameKeyClasses<T, K(!new)>(s: seq<T>, t: seq<T>, key: T -> K) {
    forall k :: KeyClass(s, key, k) == KeyClass(t, key, k)
  }

  /** The two facts that make `r` a stable sort of `s`. */
  ghost predicate IsStableSortOf<T, K(!new)>(r: seq<T>, s: seq<T>, key: T -> K, leq: (K, K) -> bool) {
    Sorted(r, key, leq) && SameKeyClasses(r, s, key)
  }

  /** Inserts `x` into the sorted `s`, after the elements whose key is not greater than its own. */
  function Insert<T, K>(s: seq<T>, x: T, key: T -> K, leq: (K, K) -> bool): (r: seq<T>)
    ensures |r| == |s| + 1
  {
    if s == [] || leq(key(s[|s| - 1]), key(x)) then s + [x]
    else Insert(s[..|s| - 1], x, key, leq) + [s[|s| - 1]]
  }

  /** Stable insertion sort: each element in turn is inserted into the sorted prefix. */
  function Sort<T, K>(s: seq<T>, key: T -> K, leq: (K, K) -> bool): (r: seq<T>)
    ensures |r| == |s|
  {
    if s == [] then []
    else Insert(Sort(s[..|s| - 1], key, leq), s[|s| - 1], key, leq)
  }

  /** Sorting one more element inserts it into the sorted prefix. */
  lemma SortStep<T, K>(s: seq<T>, i: nat, key: T -> K, leq: (K, K) -> bool)
    requires i < |s|
    ensures Sort(s[..i + 1], key, leq) == Insert(Sort(s[..i], key, leq), s[i], key, leq)
  {
    assert s[..i + 1][..i] == s[..i];
  }

  lemma {:induction false} KeyClassAppend<T, K(!new)>(s: seq<T>, t: seq<T>, key: T -> K, k: K)
    ensures KeyClass(s + t, key, k) == KeyClass(s, key, k) + KeyClass(t, key, k)
    decreases |t|
  {
    if t == [] {
      assert s + t == s;
    } else {
      var t' := t[..|t| - 1];
      assert (s + t)[..|s + t| - 1] == s + t';
      KeyClassAppend(s, t', key, k);
    }
  }

  /** An element of `s` shows up in the key class of its own key. */
  lemma {:induction false} KeyClassHasMember<T, K(!new)>(s: seq<T>, key: T -> K, i: nat)
    requires i < |s|
    ensures s[i] in KeyClass(s, key, key(s[i]))
    decreases |s|
  {
    if i < |s| - 1 {
      KeyClassHasMember(s[..|s| - 1], key, i);
    }
  }

  /** Every element of a key class carries that key. */
  lemma {:induction false} KeyClassKeys<T, K(!new)>(s: seq<T>, key: T -> K, k: K)
    ensures forall x :: x in KeyClass(s, key, k) ==> x in s && key(x) == k
    decreases |s|
  {
    if s != [] {
      KeyClassKeys(s[..|s| - 1], key, k);
      assert s == s[..|s| - 1] + [s[|s| - 1]];
    }
  }

  lemma {:induction false} InsertElements<T, K(!new)>(s: seq<T>, x: T, key: T -> K, leq: (K, K) -> bool)
    ensures multiset(Insert(s, x, key, leq)) == multiset(s) + multiset{x}
    decreases |s|
  {
    if s != [] && !leq(key(s[|s| - 1]), key(x)) {
      var s' := s[..|s| - 1];
      InsertElements(s', x, key, leq);
      assert s == s' + [s[|s| - 1]];
    }
  }

  /** Inserting `x` appends it to its own key class and leaves every other class alone. */
  lemma {:induction false} InsertKeyClass<T, K(!new)>(s: seq<T>, x: T, key: T -> K, leq: (K, K) -> bool, k: K)
    requires forall a :: leq(a, a)
    ensures KeyClass(Insert(s, x, key, leq), key, k)
         == KeyClass(s, key, k) + (if key(x) == k then [x] else [])
    decreases |s|
  {
    if s == [] || leq(key(s[|s| - 1]), key(x)) {
      KeyClassAppend(s, [x], key, k);
      assert [x][..0] == [];
    } else {
      var s', last := s[..|s| - 1], s[|s| - 1];
      assert key(last) != key(x);
      InsertKeyClass(s', x, key, leq, k);
      KeyClassAppend(Insert(s', x, key, leq), [last], key, k);
      KeyClassAppend(s', [last], key, k);
      assert s == s' + [last];
      assert [last][..0] == [];
    }
  }

  lemma {:induction false} InsertSorted<T, K(!new)>(s: seq<T>, x: T, key: T -> K, leq: (K, K) -> bool)
    requires TotalOrder(leq)
    requires Sorted(s, key, leq)
    ensures Sorted(Insert(s, x, key, leq), key, leq)
    decreases |s|
  {
    if s != [] && !leq(key(s[|s| - 1]), key(x)) {
      var s', last := s[..|s| - 1], s[|s| - 1];
      var r' := Insert(s', x, key, leq);
      InsertSorted(s', x, key, leq);
      InsertElements(s', x, key, leq);
      forall i | 0 <= i < |r'|
        ensures leq(key(r'[i]), key(last))
      {
        assert r'[i] in multiset(r');
        if r'[i] != x {
          assert r'[i] in multiset(s');
          var m :| 0 <= m < |s'| && s'[m] == r'[i];
          assert s[m] == s'[m];
        }
      }
    }
  }

  /** The insertion sort is a stable sort and a permutation of its input. */
  lemma {:induction false} SortCorrect<T, K(!new)>(s: seq<T>, key: T -> K, leq: (K, K) -> bool)
    requires TotalOrder(leq)
    ensures IsStableSortOf(Sort(s, key, leq), s, key, leq)
    ensures multiset(Sort(s, key, leq)) == multiset(s)
    decreases |s|
  {
    if s != [] {
      var s', last := s[..|s| - 1], s[|s| - 1];
      SortCorrect(s', key, leq);
      InsertSorted(Sort(s', key, leq), last, key, leq);
      InsertElements(Sort(s', key, leq), last, key, leq);
      assert s == s' + [last];
      forall k ensures KeyClass(Sort(s, key, leq), key, k) == KeyClass(s, key, k) {
        InsertKeyClass(Sort(s', key, leq), last, key, leq, k);
      }
    }
  }

  /** The last element of a sorted sequence carries a greatest key. */
  lemma SortedLastIsGreatest<T, K(!new)>(s: seq<T>, key: T -> K, leq: (K, K) -> bool, x: T)
    requires TotalOrder(leq) && Sorted(s, key, leq)
    requires x in s
    ensures leq(key(x), key(s[|s| - 1]))
  {
  }

  /** Two sorted sequences with the same key classes end in the same element. */
  lemma SameLast<T, K(!new)>(a: seq<T>, b: seq<T>, key: T -> K, leq: (K, K) -> bool)
    requires TotalOrder(leq)
    requires Sorted(a, key, leq) && Sorted(b, key, leq)
    requires SameKeyClasses(a, b, key)
    requires a != [] && b != []
    ensures a[|a| - 1] == b[|b| - 1]
  {
    var la, lb := a[|a| - 1], b[|b| - 1];
    // la's key occurs in b, so it is at most b's greatest key, and the other way round
    KeyClassHasMember(a, key, |a| - 1);
    KeyClassKeys(b, key, key(la));
    SortedLastIsGreatest(b, key, leq, la);
    KeyClassHasMember(b, key, |b| - 1);
    KeyClassKeys(a, key, key(lb));
    SortedLastIsGreatest(a, key, leq, lb);
    var k := key(la);
    assert key(lb) == k;
    // both key classes of k end in the respective last element
    var ca, cb := KeyClass(a, key, k), KeyClass(b, key, k);
    assert ca == KeyClass(a[..|a| - 1], key, k) + [la];
    assert cb == KeyClass(b[..|b| - 1], key, k) + [lb];
    assert ca == cb;
    assert ca[|ca| - 1] == la && cb[|cb| - 1] == lb;
  }

  /** Dropping the same last element from two sequences keeps their key classes equal. */
  lemma DropLastKeyClasses<T, K(!new)>(a: seq<T>, b: seq<T>, key: T -> K)
    requires SameKeyClasses(a, b, key)
    requires a != [] && b != [] && a[|a| - 1] == b[|b| - 1]
    ensures SameKeyClasses(a[..|a| - 1], b[..|b| - 1], key)
  {
    var a', b' := a[..|a| - 1], b[..|b| - 1];
    var last := a[|a| - 1];
    forall k ensures KeyClass(a', key, k) == KeyClass(b', key, k) {
      var tail := if key(last) == k then [last] else [];
      var ca := KeyClass(a, key, k);
      assert ca == KeyClass(b, key, k);
      assert ca == KeyClass(a', key, k) + tail;
      assert ca == KeyClass(b', key, k) + tail;
      assert KeyClass(a', key, k) == ca[..|ca| - |tail|] == KeyClass(b', key, k);
    }
  }

  /** Two stable sorts of the same input are equal: a sorted sequence is determined by its key classes. */
  lemma {:induction false} StableSortUnique<T, K(!new)>(a: seq<T>, b: seq<T>, key: T -> K, leq: (K, K) -> bool)
    requires TotalOrder(leq)
    requires Sorted(a, key, leq) && Sorted(b, key, leq)
    requires SameKeyClasses(a, b, key)
    ensures a == b
    decreases |a|
  {
    if a == [] || b == [] {
      if a != [] {
        KeyClassHasMember(a, key, 0);
        assert false;
      } else if b != [] {
        KeyClassHasMember(b, key, 0);
        assert false;
      }
    } else {
      var a', b' := a[..|a| - 1], b[..|b| - 1];
      SameLast(a, b, key, leq);
      DropLastKeyClasses(a, b, key);
      assert Sorted(a', key, leq);
      assert Sorted(b', key, leq);
      StableSortUnique(a', b', key, leq);
      assert a == a' + [a[|a| - 1]] && b == b' + [b[|b| - 1]];
    }
  }

  /** No two positions of `s` carry the same key. */
  ghost predicate DistinctKeys<T, K(!new)>(s: seq<T>, key: T -> K) {
    forall i, j :: 0 <= i < j < |s| ==> key(s[i]) != key(s[j])
  }

  /** Without ties, the key class of an element's key is that element alone. */
  lemma {:induction false} KeyClassOfDistinct<T, K(!new)>(s: seq<T>, key: T -> K, x: T)
    requires DistinctKeys(s, key)
    requires x in s
    ensures KeyClass(s, key, key(x)) == [x]
    decreases |s|
  {
    var init, last := s[..|s| - 1], s[|s| - 1];
    assert s == init + [last];
    if last == x {
      forall y | y in init ensures key(y) != key(x) {
        var j :| 0 <= j < |init| && init[j] == y;
        assert s[j] == y;
      }
      KeyClassOfAbsent(init, key, key(x));
    } else {
      var j :| 0 <= j < |s| && s[j] == x;
      assert j < |s| - 1;
      assert key(last) != key(x);
      KeyClassOfDistinct(init, key, x);
    }
  }

  /** A key that no element carries has an empty key class. */
  lemma KeyClassOfAbsent<T, K(!new)>(s: seq<T>, key: T -> K, k: K)
    requires forall x :: x in s ==> key(x) != k
    ensures KeyClass(s, key, k) == []
  {
    KeyClassKeys(s, key, k);
    if KeyClass(s, key, k) != [] {
      assert KeyClass(s, key, k)[0] in KeyClass(s, key, k);
      assert false;
    }
  }

  /** When no two elements tie, the order of the input does not affect the sorted result. */
  lemma SortIgnoresInputOrder<T, K(!new)>(s: seq<T>, t: seq<T>, key: T -> K, leq: (K, K) -> bool)
    requires TotalOrder(leq)
    requires multiset(s) == multiset(t)
    requires DistinctKeys(s, key) && DistinctKeys(t, key)
    ensures Sort(s, key, leq) == Sort(t, key, leq)
  {
    forall k ensures KeyClass(s, key, k) == KeyClass(t, key, k) {
      if x :| x in s && key(x) == k {
        assert x in multiset(t);
        KeyClassOfDistinct(s, key, x);
        KeyClassOfDistinct(t, key, x);
      } else {
        forall y | y in t ensures key(y) != k {
          assert y in multiset(s);
        }
        KeyClassOfAbsent(s, key, k);
        KeyClassOfAbsent(t, key, k);
      }
    }
    SortCorrect(s, key, leq);
    SortCharacterized(t, Sort(s, key, leq), key, leq);
  }

  /** A sequence is a stable sort of `s` exactly when it is what `Sort` returns. */
  lemma SortCharacterized<T, K(!new)>(s: seq<T>, r: seq<T>, key: T -> K, leq: (K, K) -> bool)
    requires TotalOrder(leq)
    ensures IsStableSortOf(r, s, key, leq) <==> r == Sort(s, key, leq)
  {
    SortCorrect(s, key, leq);
    if IsStableSortOf(r, s, key, leq) {
      StableSortUnique(r, Sort(s, key, leq), key, leq);
    }
  }
}
