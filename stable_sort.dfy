/**
  Kotlin's `sortedBy` and `sortedByDescending`: a stable sort on a key.
  A descending sort is the ascending sort on the negated key. The sort is
  specified by three facts: the result is ordered by the key, it is a
  permutation of the input, and the elements that share a key keep their
  input order. StableSortIsUnique shows these facts fix the result, so any
  stable sort gives the same list as SortBy.
 */
module StableSort {

  /** The elements of `s` whose key is `k`, in their order in `s`. */
  function WithKey<T>(s: seq<T>, key: T -> real, k: real): (r: seq<T>)
    ensures |r| <= |s|
    ensures forall i :: 0 <= i < |r| ==> key(r[i]) == k
  {
    if s == [] then [] else (if key(s[0]) == k then [s[0]] else []) + WithKey(s[1..], key, k)
  }

  ghost predicate SortedBy<T>(s: seq<T>, key: T -> real) {
    forall i, j :: 0 <= i < j < |s| ==> key(s[i]) <= key(s[j])
  }

  /** `r` is what a stable sort of `s` on `key` returns. */
  ghost predicate IsStableSortOf<T>(r: seq<T>, s: seq<T>, key: T -> real) {
    && SortedBy(r, key)
    && multiset(r) == multiset(s)
    && forall k :: WithKey(r, key, k) == WithKey(s, key, k)
  }

  /** Places `x` in front of the first element whose key is not smaller. */
  function Insert<T>(x: T, s: seq<T>, key: T -> real): (r: seq<T>)
    requires SortedBy(s, key)
    ensures SortedBy(r, key)
    ensures multiset(r) == multiset(s) + multiset{x}
    ensures r[0] == x || (s != [] && r[0] == s[0])
  {
    if s == [] || key(x) <= key(s[0]) then
      ConsSorted(x, s, key);
      [x] + s
    else
      var rest := Insert(x, s[1..], key);
      ConsSorted(s[0], rest, key);
      assert s == [s[0]] + s[1..];
      [s[0]] + rest
  }

  /** A head no greater than the first element keeps a sorted list sorted. */
  lemma ConsSorted<T>(h: T, s: seq<T>, key: T -> real)
    requires SortedBy(s, key) && (s == [] || key(h) <= key(s[0]))
    ensures SortedBy([h] + s, key)
  {
    var r := [h] + s;
    forall i, j | 0 <= i < j < |r| ensures key(r[i]) <= key(r[j]) {
      if i == 0 {
        assert key(s[0]) <= key(s[j - 1]);
      }
    }
  }

  /** Insert puts `x` in front of the elements of `s` that share its key. */
  lemma {:induction false} InsertIsStable<T>(x: T, s: seq<T>, key: T -> real, k: real)
    requires SortedBy(s, key)
    ensures WithKey(Insert(x, s, key), key, k) == (if key(x) == k then [x] else []) + WithKey(s, key, k)
  {
    if s == [] || key(x) <= key(s[0]) {
      WithKeyCons(x, s, key, k);
    } else {
      var ofX := if key(x) == k then [x] else [];
      var ofHead := if key(s[0]) == k then [s[0]] else [];
      assert Insert(x, s, key) == [s[0]] + Insert(x, s[1..], key);
      SortedTail(s, key);
      InsertIsStable(x, s[1..], key, k);
      WithKeyCons(s[0], Insert(x, s[1..], key), key, k);
      // x is slower than the head, so at most one of them has key k
      SwapHeads(ofHead, ofX, WithKey(s[1..], key, k));
    }
  }

  lemma SwapHeads<T>(a: seq<T>, b: seq<T>, t: seq<T>)
    requires a == [] || b == []
    ensures a + (b + t) == b + (a + t)
  {
  }

  lemma WithKeyCons<T>(h: T, s: seq<T>, key: T -> real, k: real)
    ensures WithKey([h] + s, key, k) == (if key(h) == k then [h] else []) + WithKey(s, key, k)
  {
    assert ([h] + s)[1..] == s;
  }

  lemma SortedTail<T>(s: seq<T>, key: T -> real)
    requires s != [] && SortedBy(s, key)
    ensures SortedBy(s[1..], key)
  {
  }

  /** Insertion sort: stable, because each element goes in front of its equals. */
  function SortBy<T>(s: seq<T>, key: T -> real): (r: seq<T>)
    ensures IsStableSortOf(r, s, key)
  {
    if s == [] then []
    else
      var rest := SortBy(s[1..], key);
      assert s == [s[0]] + s[1..];
      assert forall k :: WithKey(Insert(s[0], rest, key), key, k) == WithKey(s, key, k) by {
        forall k ensures WithKey(Insert(s[0], rest, key), key, k) == WithKey(s, key, k) {
          InsertIsStable(s[0], rest, key, k);
          WithKeyCons(s[0], s[1..], key, k);
        }
      }
      Insert(s[0], rest, key)
  }

  /** Two stable sorts of the same list are equal. */
  lemma {:induction false} StableSortIsUnique<T>(a: seq<T>, b: seq<T>, s: seq<T>, key: T -> real)
    requires IsStableSortOf(a, s, key) && IsStableSortOf(b, s, key)
    ensures a == b
  {
    SameSortedClassesAreEqual(a, b, key);
  }

  lemma {:induction false} SameSortedClassesAreEqual<T>(a: seq<T>, b: seq<T>, key: T -> real)
    requires SortedBy(a, key) && SortedBy(b, key)
    requires forall k :: WithKey(a, key, k) == WithKey(b, key, k)
    ensures a == b
    decreases |a|
  {
    if a == [] || b == [] {
      HeadHasClass(a, key);
      HeadHasClass(b, key);
    } else {
      var ka, kb := key(a[0]), key(b[0]);
      MinimalKeyLeads(a, key);
      MinimalKeyLeads(b, key);
      // every key in b is at least kb, and ka is a key in b
      ContainsKey(b, key, ka, WithKey(a, key, ka));
      ContainsKey(a, key, kb, WithKey(b, key, kb));
      assert ka == kb;
      assert a[0] == WithKey(a, key, ka)[0] == WithKey(b, key, kb)[0] == b[0];
      forall k ensures WithKey(a[1..], key, k) == WithKey(b[1..], key, k) {
        var wa, wb := WithKey(a[1..], key, k), WithKey(b[1..], key, k);
        assert WithKey(a, key, k) == WithKey(b, key, k);
        if key(a[0]) == k {
          assert WithKey(a, key, k) == [a[0]] + wa;
          assert WithKey(b, key, k) == [b[0]] + wb;
          assert wa == ([a[0]] + wa)[1..] && wb == ([b[0]] + wb)[1..];
        } else {
          assert WithKey(a, key, k) == wa;
          assert WithKey(b, key, k) == wb;
        }
      }
      SameSortedClassesAreEqual(a[1..], b[1..], key);
      assert a == [a[0]] + a[1..] && b == [b[0]] + b[1..];
    }
  }

  lemma HeadHasClass<T>(s: seq<T>, key: T -> real)
    ensures s != [] ==> WithKey(s, key, key(s[0])) != []
  {
  }

  /** In a sorted non-empty list, the head leads the elements that share its key. */
  lemma MinimalKeyLeads<T>(s: seq<T>, key: T -> real)
    requires s != [] && SortedBy(s, key)
    ensures WithKey(s, key, key(s[0])) != [] && WithKey(s, key, key(s[0]))[0] == s[0]
  {
  }

  /** An element with key `k` in a sorted list has a key no smaller than the head's. */
  lemma {:induction false} ContainsKey<T>(s: seq<T>, key: T -> real, k: real, run: seq<T>)
    requires s != [] && SortedBy(s, key)
    requires run == WithKey(s, key, k) && run != []
    ensures key(s[0]) <= k
  {
    if key(s[0]) != k {
      assert run == WithKey(s[1..], key, k);
      if s[1..] == [] {
        assert false;
      } else {
        ContainsKey(s[1..], key, k, run);
      }
    }
  }
}
