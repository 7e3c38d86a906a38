/** A stable sort by a numeric key: the behaviour ECMA-262 (2023 edition,
    section 23.1.3.30) requires of Array.prototype.sort with a consistent
    comparator. The comparators of the listing query compare by subtracting
    numbers, so each of them is an ascending order on a real key.

    SortByKey is the reference definition (an insertion sort on sequences);
    SortInPlace sorts an array in place and is proved to compute it. The
    lemmas show that SortByKey is sorted, a permutation and stable, and that
    those three properties leave no other possible result, so any stable
    sort algorithm gives the same answer. */
module StableSort {

  /** `s` is in non-decreasing order of `key`. */
  predicate SortedBy<T>(s: seq<T>, key: T -> real) {
    forall i, j :: 0 <= i < j < |s| ==> key(s[i]) <= key(s[j])
  }

  /** The elements of `s` whose key is `k`, in their order in `s`. */
  function WithKey<T>(s: seq<T>, key: T -> real, k: real): seq<T> {
    if s == [] then []
    else WithKey(s[..|s| - 1], key, k) + (if key(s[|s| - 1]) == k then [s[|s| - 1]] else [])
  }

  /** `output` lists the elements of each key in the order `input` does:
      elements that compare equal keep their relative order. */
  ghost predicate Stable<T>(input: seq<T>, output: seq<T>, key: T -> real) {
    forall k :: WithKey(output, key, k) == WithKey(input, key, k)
  }

  /** `s` with `x` inserted after the last element whose key is at most
      `key(x)`, searching from the end. */
  function Place<T>(s: seq<T>, x: T, key: T -> real): (r: seq<T>)
    ensures multiset(r) == multiset(s) + multiset{x}
  {
    if s == [] || key(s[|s| - 1]) <= key(x) then s + [x]
    else
      assert s == s[..|s| - 1] + [s[|s| - 1]];
      Place(s[..|s| - 1], x, key) + [s[|s| - 1]]
  }

  /** The stable sort of `s` in ascending order of `key`. */
  function SortByKey<T>(s: seq<T>, key: T -> real): (r: seq<T>)
    ensures multiset(r) == multiset(s)
  {
    if s == [] then []
    else
      assert s == s[..|s| - 1] + [s[|s| - 1]];
      Place(SortByKey(s[..|s| - 1], key), s[|s| - 1], key)
  }

  lemma {:induction false} WithKeyAppend<T>(a: seq<T>, b: seq<T>, key: T -> real, k: real)
    ensures WithKey(a + b, key, k) == WithKey(a, key, k) + WithKey(b, key, k)
    decreases |b|
  {
    if b == [] {
      assert a + b == a;
    } else {
      var b' := b[..|b| - 1];
      assert (a + b)[..|a + b| - 1] == a + b';
      WithKeyAppend(a, b', key, k);
    }
  }

  /** The elements WithKey selects are exactly those with key `k`. */
  lemma {:induction false} WithKeyMembers<T>(s: seq<T>, key: T -> real, k: real, x: T)
    ensures x in WithKey(s, key, k) <==> x in s && key(x) == k
    decreases |s|
  {
    if s != [] {
      var s' := s[..|s| - 1];
      WithKeyMembers(s', key, k, x);
      assert s == s' + [s[|s| - 1]];
    }
  }

  /** Placing an element extends its own key's list at the end and leaves
      every other key's list as it was. */
  lemma {:induction false} PlaceWithKey<T>(s: seq<T>, x: T, key: T -> real, k: real)
    ensures WithKey(Place(s, x, key), key, k) == WithKey(s, key, k) + (if key(x) == k then [x] else [])
    decreases |s|
  {
    if s == [] || key(s[|s| - 1]) <= key(x) {
      assert (s + [x])[..|s|] == s;
    } else {
      var s', last := s[..|s| - 1], s[|s| - 1];
      var p := Place(s', x, key);
      var mine: seq<T> := if key(x) == k then [x] else [];
      var theirs: seq<T> := if key(last) == k then [last] else [];
      PlaceWithKey(s', x, key, k);
      assert WithKey(p, key, k) == WithKey(s', key, k) + mine;
      assert (p + [last])[..|p|] == p;
      assert WithKey(p + [last], key, k) == WithKey(p, key, k) + theirs;
      assert WithKey(s, key, k) == WithKey(s', key, k) + theirs;
      assert Place(s, x, key) == p + [last];
      // `last` outranks `x`, so at most one of the two joins key `k`'s list.
      if mine == [] {
        assert WithKey(s', key, k) + mine == WithKey(s', key, k);
        assert WithKey(s, key, k) + mine == WithKey(s, key, k);
      } else {
        assert theirs == [];
        assert WithKey(p, key, k) + theirs == WithKey(p, key, k);
        assert WithKey(s, key, k) == WithKey(s', key, k);
      }
    }
  }

  /** Placing an element into a sorted sequence keeps it sorted. */
  lemma {:induction false} PlaceSorted<T>(s: seq<T>, x: T, key: T -> real)
    requires SortedBy(s, key)
    ensures SortedBy(Place(s, x, key), key)
    decreases |s|
  {
    if s != [] && key(s[|s| - 1]) > key(x) {
      var s', last := s[..|s| - 1], s[|s| - 1];
      PlaceSorted(s', x, key);
      PlaceBelow(s', x, key, key(last));
      var p := Place(s', x, key);
      assert Place(s, x, key) == p + [last];
    }
  }

  /** A bound on the keys of `s` and of `x` bounds the keys of the result. */
  lemma {:induction false} PlaceBelow<T>(s: seq<T>, x: T, key: T -> real, b: real)
    requires forall i :: 0 <= i < |s| ==> key(s[i]) <= b
    requires key(x) <= b
    ensures forall i :: 0 <= i < |Place(s, x, key)| ==> key(Place(s, x, key)[i]) <= b
    decreases |s|
  {
    if s != [] && key(s[|s| - 1]) > key(x) {
      var s' := s[..|s| - 1];
      PlaceBelow(s', x, key, b);
    }
  }

  /** SortByKey returns its input in ascending order of key. */
  lemma {:induction false} SortByKeySorted<T>(s: seq<T>, key: T -> real)
    ensures SortedBy(SortByKey(s, key), key)
    decreases |s|
  {
    if s != [] {
      SortByKeySorted(s[..|s| - 1], key);
      PlaceSorted(SortByKey(s[..|s| - 1], key), s[|s| - 1], key);
    }
  }

  /** SortByKey keeps the relative order of elements with equal keys. */
  lemma {:induction false} SortByKeyStable<T>(s: seq<T>, key: T -> real)
    ensures Stable(s, SortByKey(s, key), key)
    decreases |s|
  {
    if s != [] {
      var s' := s[..|s| - 1];
      SortByKeyStable(s', key);
      forall k ensures WithKey(SortByKey(s, key), key, k) == WithKey(s, key, k) {
        PlaceWithKey(SortByKey(s', key), s[|s| - 1], key, k);
      }
    }
  }

  /** Being sorted and stable determines a sequence uniquely: two sorted
      sequences that agree on the order of every key are equal. */
  lemma {:induction false} SortedStableUnique<T>(a: seq<T>, b: seq<T>, key: T -> real)
    requires SortedBy(a, key) && SortedBy(b, key)
    requires forall k :: WithKey(a, key, k) == WithKey(b, key, k)
    ensures a == b
    decreases |a| + |b|
  {
    if a == [] || b == [] {
      if a != [] {
        LastSelected(a, key);
      } else if b != [] {
        LastSelected(b, key);
      }
    } else {
      var x, y := a[|a| - 1], b[|b| - 1];
      LastSelected(a, key);
      LastSelected(b, key);
      KeyBelowLast(b, x, key);
      KeyBelowLast(a, y, key);
      var a', b' := a[..|a| - 1], b[..|b| - 1];
      assert key(x) == key(y);
      assert x == y by {
        var w := WithKey(a, key, key(x));
        assert w == WithKey(a', key, key(x)) + [x];
        assert w == WithKey(b', key, key(x)) + [y];
        assert w[|w| - 1] == x && w[|w| - 1] == y;
      }
      forall k ensures WithKey(a', key, k) == WithKey(b', key, k) {
        var w := WithKey(a, key, k);
        var n := if key(x) == k then 1 else 0;
        assert w == WithKey(a', key, k) + (if key(x) == k then [x] else []);
        assert w == WithKey(b', key, k) + (if key(x) == k then [x] else []);
        assert WithKey(a', key, k) == w[..|w| - n];
      }
      SortedStableUnique(a', b', key);
      assert a == a' + [x] && b == b' + [y];
    }
  }

  /** An element at the front of a sequence is the first of its key. */
  lemma WithKeyHead<T>(t: seq<T>, key: T -> real)
    requires t != []
    ensures WithKey(t, key, key(t[0])) != [] && WithKey(t, key, key(t[0]))[0] == t[0]
  {
    var k := key(t[0]);
    assert t == [t[0]] + t[1..];
    WithKeyAppend([t[0]], t[1..], key, k);
    assert WithKey([t[0]], key, k) == [t[0]];
  }

  /** In a stable rearrangement of `s`, a front element with the key of
      `s[0]` is `s[0]` itself. */
  lemma WithKeyFirst<T>(s: seq<T>, r: seq<T>, key: T -> real, x: T)
    requires s != [] && s[0] == x && r != []
    requires Stable(s, r, key) && key(r[0]) == key(x)
    ensures r[0] == x
  {
    WithKeyHead(s, key);
    WithKeyHead(r, key);
    assert WithKey(r, key, key(x)) == WithKey(s, key, key(x));
  }

  /** The last element of a non-empty sequence is selected for its key. */
  lemma LastSelected<T>(s: seq<T>, key: T -> real)
    requires s != []
    ensures s[|s| - 1] in WithKey(s, key, key(s[|s| - 1]))
  {
  }

  /** If a sorted `s` has an element with the key of `x`, that key is at
      most the key of the last element of `s`. */
  lemma KeyBelowLast<T>(s: seq<T>, x: T, key: T -> real)
    requires s != [] && SortedBy(s, key)
    requires x in WithKey(s, key, key(x))
    ensures key(x) <= key(s[|s| - 1])
  {
    WithKeyMembers(s, key, key(x), x);
    var i :| 0 <= i < |s| && s[i] == x;
  }

  /** The stable sort is the only sorted, stable arrangement of its input:
      whatever stable algorithm sorts, the result is SortByKey's. */
  lemma SortByKeyIsTheStableSort<T>(s: seq<T>, r: seq<T>, key: T -> real)
    requires SortedBy(r, key) && Stable(s, r, key)
    ensures r == SortByKey(s, key)
  {
    SortByKeySorted(s, key);
    SortByKeyStable(s, key);
    SortedStableUnique(r, SortByKey(s, key), key);
  }

  /** Where Place puts `x`: after the prefix of keys at most `key(x)` that
      precedes a suffix of keys above it. */
  lemma {:induction false} PlaceSplit<T>(s: seq<T>, x: T, key: T -> real, j: nat)
    requires j <= |s|
    requires j == 0 || key(s[j - 1]) <= key(x)
    requires forall m :: j <= m < |s| ==> key(s[m]) > key(x)
    ensures Place(s, x, key) == s[..j] + [x] + s[j..]
    decreases |s|
  {
    if j == |s| {
      assert s[..j] == s && s[j..] == [];
    } else {
      var s', last := s[..|s| - 1], s[|s| - 1];
      assert key(last) > key(x);
      forall m | j <= m < |s'| ensures key(s'[m]) > key(x) {
        assert s'[m] == s[m];
      }
      assert j == 0 || s'[j - 1] == s[j - 1];
      PlaceSplit(s', x, key, j);
      assert Place(s, x, key) == Place(s', x, key) + [last];
      InsertBeforeLast(s, x, j);
    }
  }

  /** Inserting at `j` before the last element, then appending it, is
      inserting at `j` in the whole sequence. */
  lemma InsertBeforeLast<T>(s: seq<T>, x: T, j: nat)
    requires j < |s|
    ensures s[..|s| - 1][..j] + [x] + s[..|s| - 1][j..] + [s[|s| - 1]] == s[..j] + [x] + s[j..]
  {
    var s' := s[..|s| - 1];
    assert s'[..j] == s[..j];
    assert s'[j..] + [s[|s| - 1]] == s[j..];
  }

  /** Array.prototype.sort on an array, as the insertion sort that shifts
      each element left past the elements with a greater key. */
  method SortInPlace<T>(a: array<T>, key: T -> real)
    modifies a
    ensures a[..] == SortByKey(old(a[..]), key)
  {
    ghost var s0 := a[..];
    var i := 0;
    while i < a.Length
      invariant 0 <= i <= a.Length
      invariant a[..i] == SortByKey(s0[..i], key)
      invariant a[i..] == s0[i..]
    {
      ghost var pre := a[..];
      assert pre[..i] == a[..i] && pre[i..] == a[i..];
      InsertAt(a, i, key);
      ghost var post := a[..];
      assert post[..i + 1] == a[..i + 1] && post[i + 1..] == a[i + 1..];
      SortStep(s0, pre, post, i, key);
      i := i + 1;
    }
    assert s0[..a.Length] == s0;
  }

  /** The insertion sort's outer loop invariant survives one InsertAt. */
  lemma SortStep<T>(s0: seq<T>, pre: seq<T>, post: seq<T>, i: nat, key: T -> real)
    requires i < |s0| == |pre| == |post|
    requires pre[..i] == SortByKey(s0[..i], key) && pre[i..] == s0[i..]
    requires post[..i + 1] == Place(pre[..i], pre[i], key) && post[i + 1..] == pre[i + 1..]
    ensures post[..i + 1] == SortByKey(s0[..i + 1], key) && post[i + 1..] == s0[i + 1..]
  {
    assert pre[i] == s0[i] by { assert pre[i..][0] == s0[i..][0]; }
    assert s0[..i + 1][..i] == s0[..i];
    assert pre[i + 1..] == pre[i..][1..];
  }

  /** One step of the insertion sort: moves `a[i]` left past the elements
      of `a[..i]` with a greater key. */
  method InsertAt<T>(a: array<T>, i: nat, key: T -> real)
    requires i < a.Length
    modifies a
    ensures a[..i + 1] == Place(old(a[..i]), old(a[i]), key)
    ensures a[i + 1..] == old(a[i + 1..])
  {
    var x := a[i];
    ghost var before := a[..];
    var j := i;
    while j > 0 && key(a[j - 1]) > key(x)
      invariant 0 <= j <= i
      invariant forall m :: 0 <= m < j ==> a[m] == before[m]
      invariant forall m :: j < m <= i ==> a[m] == before[m - 1]
      invariant forall m :: i < m < a.Length ==> a[m] == before[m]
      invariant forall m :: j <= m < i ==> key(before[m]) > key(x)
    {
      a[j] := a[j - 1];
      j := j - 1;
    }
    a[j] := x;
    Shifted(before, a[..], i, j, key);
  }

  /** The array after InsertAt's loop holds `Place(before[..i], before[i])`:
      the elements from position j on moved one place right and `before[i]`
      written at j. */
  lemma Shifted<T>(before: seq<T>, after: seq<T>, i: nat, j: nat, key: T -> real)
    requires j <= i < |before| == |after|
    requires forall m :: 0 <= m < j ==> after[m] == before[m]
    requires after[j] == before[i]
    requires forall m :: j < m <= i ==> after[m] == before[m - 1]
    requires forall m :: i < m < |after| ==> after[m] == before[m]
    requires forall m :: j <= m < i ==> key(before[m]) > key(before[i])
    requires j == 0 || key(before[j - 1]) <= key(before[i])
    ensures after[..i + 1] == Place(before[..i], before[i], key)
    ensures after[i + 1..] == before[i + 1..]
  {
    var sorted := before[..i];
    PlaceSplit(sorted, before[i], key, j);
    InsertedAt(sorted, before[i], j);
    var r := sorted[..j] + [before[i]] + sorted[j..];
    forall m | 0 <= m <= i ensures after[m] == r[m] {
    }
    assert after[..i + 1] == r;
  }

  /** The positions of `s` with `x` inserted at `j`. */
  lemma InsertedAt<T>(s: seq<T>, x: T, j: nat)
    requires j <= |s|
    ensures var r := s[..j] + [x] + s[j..];
      && |r| == |s| + 1 && r[j] == x
      && (forall m :: 0 <= m < j ==> r[m] == s[m])
      && (forall m :: j < m <= |s| ==> r[m] == s[m - 1])
  {
  }
}
