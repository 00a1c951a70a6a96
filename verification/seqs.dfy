/**
 * The array idioms the core uses, as functions on sequences: `filter`, de-duplication through a
 * `Set` or a `Map` keyed by some function of the element (first occurrence wins, insertion order
 * is kept), and sorting by an integer key.
 */
module Seqs {

  /** `xs.filter(p)`. */
  function Filter<T(!new)>(xs: seq<T>, p: T -> bool): (r: seq<T>)
    ensures |r| <= |xs|
    ensures forall i :: 0 <= i < |r| ==> p(r[i])
    decreases |xs|
  {
    if xs == [] then []
    else
      assert xs == [xs[0]] + xs[1..];
      (if p(xs[0]) then [xs[0]] else []) + Filter(xs[1..], p)
  }

  /** `filter` keeps every copy of an element that passes and no copy of one that does not. */
  lemma {:induction false} FilterCount<T(!new)>(xs: seq<T>, p: T -> bool)
    ensures forall x :: multiset(Filter(xs, p))[x] == if p(x) then multiset(xs)[x] else 0
    decreases |xs|
  {
    if xs != [] {
      FilterCount(xs[1..], p);
      assert xs == [xs[0]] + xs[1..];
    }
  }

  /** Membership as `filter` callers use it: an element is kept exactly when it is there and passes. */
  lemma FilterMembership<T(!new)>(xs: seq<T>, p: T -> bool, x: T)
    ensures x in Filter(xs, p) <==> x in xs && p(x)
  {
    FilterCount(xs, p);
    assert x in Filter(xs, p) <==> multiset(Filter(xs, p))[x] > 0;
    assert x in xs <==> multiset(xs)[x] > 0;
  }

  /** A filter whose predicate holds everywhere keeps the whole sequence, in order. */
  lemma {:induction false} FilterAll<T(!new)>(xs: seq<T>, p: T -> bool)
    requires forall i :: 0 <= i < |xs| ==> p(xs[i])
    ensures Filter(xs, p) == xs
    decreases |xs|
  {
    if xs != [] {
      FilterAll(xs[1..], p);
    }
  }

  /** Concatenation is associative. */
  lemma AppendAssoc<T>(x: seq<T>, y: seq<T>, z: seq<T>)
    ensures x + (y + z) == (x + y) + z
  {
  }

  /** One step of `filter`: the first element, if it passes, then the filter of the rest. */
  lemma FilterCons<T(!new)>(xs: seq<T>, p: T -> bool)
    requires xs != []
    ensures Filter(xs, p) == (if p(xs[0]) then [xs[0]] else []) + Filter(xs[1..], p)
  {
  }

  /** Filtering distributes over concatenation. */
  lemma {:induction false} FilterConcat<T(!new)>(a: seq<T>, b: seq<T>, p: T -> bool)
    ensures Filter(a + b, p) == Filter(a, p) + Filter(b, p)
    decreases |a|
  {
    if a == [] {
      assert a + b == b;
    } else {
      var head := if p(a[0]) then [a[0]] else [];
      calc {
        Filter(a + b, p);
      == { FilterCons(a + b, p); assert (a + b)[0] == a[0] && (a + b)[1..] == a[1..] + b; }
        head + Filter(a[1..] + b, p);
      == { FilterConcat(a[1..], b, p); }
        head + (Filter(a[1..], p) + Filter(b, p));
      == { AppendAssoc(head, Filter(a[1..], p), Filter(b, p)); }
        (head + Filter(a[1..], p)) + Filter(b, p);
      == { FilterCons(a, p); }
        Filter(a, p) + Filter(b, p);
      }
    }
  }

  /** A filter keeps nothing exactly when no element passes. */
  lemma FilterEmptyIff<T(!new)>(xs: seq<T>, p: T -> bool)
    ensures Filter(xs, p) == [] <==> forall i :: 0 <= i < |xs| ==> !p(xs[i])
  {
    if exists i :: 0 <= i < |xs| && p(xs[i]) {
      var i :| 0 <= i < |xs| && p(xs[i]);
      FilterMembership(xs, p, xs[i]);
    } else if Filter(xs, p) != [] {
      var r := Filter(xs, p);
      FilterMembership(xs, p, r[0]);
      assert false;
    }
  }

  /** The position of the first element whose key is `k`, or `|xs|` when there is none. */
  function IndexOfKey<T, K(==)>(xs: seq<T>, key: T -> K, k: K): (i: nat)
    ensures i <= |xs|
    ensures i < |xs| ==> key(xs[i]) == k
    ensures forall j :: 0 <= j < i ==> key(xs[j]) != k
    decreases |xs|
  {
    if xs == [] then 0
    else if key(xs[0]) == k then 0
    else 1 + IndexOfKey(xs[1..], key, k)
  }

  /** On a prefix, the first occurrence of a key is the whole sequence's one, cut at the prefix length. */
  lemma IndexOfKeyPrefix<T, K>(xs: seq<T>, key: T -> K, k: K, n: nat)
    requires n <= |xs|
    ensures IndexOfKey(xs[..n], key, k) == if IndexOfKey(xs, key, k) < n then IndexOfKey(xs, key, k) else n
  {
    var i, p := IndexOfKey(xs, key, k), IndexOfKey(xs[..n], key, k);
    if p < n {
      assert key(xs[p]) == k;
    }
    if i < n {
      assert key(xs[..n][i]) == k;
    }
  }

  /** A key occurs in `xs + [x]` exactly when it occurs in `xs` or is the key of `x`. */
  lemma IndexOfKeyAppend<T, K>(xs: seq<T>, x: T, key: T -> K, k: K)
    ensures IndexOfKey(xs + [x], key, k) < |xs| + 1 <==> IndexOfKey(xs, key, k) < |xs| || key(x) == k
  {
    var ys := xs + [x];
    IndexOfKeyPrefix(ys, key, k, |xs|);
    assert ys[..|xs|] == xs;
    if key(x) == k {
      assert key(ys[|xs|]) == k;
    }
  }

  /**
   * Folding the elements into a `Set`/`Map` keyed by `key` and reading it back in insertion
   * order: the first element with each key is kept, later ones are dropped.
   */
  function DistinctBy<T, K(==)>(xs: seq<T>, key: T -> K): (r: seq<T>)
    ensures |r| <= |xs|
    decreases |xs|
  {
    if xs == [] then []
    else
      var init := DistinctBy(xs[..|xs| - 1], key);
      var x := xs[|xs| - 1];
      if IndexOfKey(init, key, key(x)) < |init| then init else init + [x]
  }

  /** Two elements with different keys are both kept, in order. */
  lemma DistinctByPair<T, K>(x: T, y: T, key: T -> K)
    requires key(x) != key(y)
    ensures DistinctBy([x, y], key) == [x, y]
  {
    assert [x, y][..1] == [x];
    assert [x][..0] == [];
  }

  /** One more element: `DistinctBy` of a longer prefix, from that of the shorter one. */
  lemma DistinctByStep<T, K>(xs: seq<T>, key: T -> K, i: nat)
    requires i < |xs|
    ensures var init := DistinctBy(xs[..i], key);
      DistinctBy(xs[..i + 1], key) == if IndexOfKey(init, key, key(xs[i])) < |init| then init else init + [xs[i]]
  {
    var p := xs[..i + 1];
    assert p[..|p| - 1] == xs[..i];
    assert p[|p| - 1] == xs[i];
  }

  /** Every key of `xs` is the key of some element `DistinctBy` keeps. */
  lemma {:induction false} DistinctByComplete<T, K>(xs: seq<T>, key: T -> K)
    ensures var r := DistinctBy(xs, key);
      forall i :: 0 <= i < |xs| ==> IndexOfKey(r, key, key(xs[i])) < |r|
    decreases |xs|
  {
    if xs != [] {
      var n := |xs| - 1;
      var init := DistinctBy(xs[..n], key);
      var r := DistinctBy(xs, key);
      DistinctByComplete(xs[..n], key);
      assert r == init || r == init + [xs[n]];
      forall i | 0 <= i < |xs| ensures IndexOfKey(r, key, key(xs[i])) < |r| {
        if i < n {
          assert xs[i] == xs[..n][i];
          var j := IndexOfKey(init, key, key(xs[i]));
          assert key(r[j]) == key(xs[i]);
        } else if r != init {
          assert key(r[|init|]) == key(xs[i]);
        }
      }
    }
  }

  /** When the last element's key is new, it is the first occurrence of that key in `xs`. */
  lemma DistinctByNewKey<T, K>(xs: seq<T>, key: T -> K)
    requires xs != []
    requires var init := DistinctBy(xs[..|xs| - 1], key);
      IndexOfKey(init, key, key(xs[|xs| - 1])) == |init|
    ensures IndexOfKey(xs, key, key(xs[|xs| - 1])) == |xs| - 1
  {
    var n := |xs| - 1;
    var p, x := xs[..n], xs[n];
    var init := DistinctBy(p, key);
    DistinctByComplete(p, key);
    forall i | 0 <= i < n ensures key(p[i]) != key(x) {
      assert IndexOfKey(init, key, key(p[i])) < |init|;
    }
    IndexOfKeyPrefix(xs, key, key(x), n);
  }

  /** An element kept from a prefix keeps its first-occurrence index in the whole sequence. */
  lemma DistinctByPrefixIndex<T, K>(xs: seq<T>, key: T -> K, j: nat)
    requires xs != []
    requires var init := DistinctBy(xs[..|xs| - 1], key);
      && j < |init|
      && IndexOfKey(xs[..|xs| - 1], key, key(init[j])) < |xs| - 1
    ensures var init := DistinctBy(xs[..|xs| - 1], key);
      IndexOfKey(xs, key, key(init[j])) == IndexOfKey(xs[..|xs| - 1], key, key(init[j]))
  {
    var init := DistinctBy(xs[..|xs| - 1], key);
    IndexOfKeyPrefix(xs, key, key(init[j]), |xs| - 1);
  }

  /**
   * Each element `DistinctBy` keeps is the FIRST element of `xs` with its key.
   */
  lemma {:induction false} DistinctByFirstSeen<T, K>(xs: seq<T>, key: T -> K)
    ensures forall j :: 0 <= j < |DistinctBy(xs, key)| ==>
      && IndexOfKey(xs, key, key(DistinctBy(xs, key)[j])) < |xs|
      && DistinctBy(xs, key)[j] == xs[IndexOfKey(xs, key, key(DistinctBy(xs, key)[j]))]
    decreases |xs|
  {
    if xs != [] {
      var n := |xs| - 1;
      var p := xs[..n];
      var init := DistinctBy(p, key);
      DistinctByFirstSeen(p, key);
      var r := DistinctBy(xs, key);
      forall j | 0 <= j < |r|
        ensures IndexOfKey(xs, key, key(r[j])) < |xs| && r[j] == xs[IndexOfKey(xs, key, key(r[j]))]
      {
        if j < |init| {
          assert r[j] == init[j];
          DistinctByPrefixIndex(xs, key, j);
          assert init[j] == p[IndexOfKey(p, key, key(init[j]))];
        } else {
          DistinctByNewKey(xs, key);
        }
      }
    }
  }

  /** The kept elements come in order of first occurrence. */
  lemma {:induction false} DistinctByOrder<T, K>(xs: seq<T>, key: T -> K)
    ensures forall j1, j2 :: 0 <= j1 < j2 < |DistinctBy(xs, key)| ==>
      IndexOfKey(xs, key, key(DistinctBy(xs, key)[j1])) < IndexOfKey(xs, key, key(DistinctBy(xs, key)[j2]))
    decreases |xs|
  {
    if xs != [] {
      var n := |xs| - 1;
      var p := xs[..n];
      var init := DistinctBy(p, key);
      DistinctByOrder(p, key);
      DistinctByFirstSeen(p, key);
      var r := DistinctBy(xs, key);
      forall j1, j2 | 0 <= j1 < j2 < |r|
        ensures IndexOfKey(xs, key, key(r[j1])) < IndexOfKey(xs, key, key(r[j2]))
      {
        assert r[j1] == init[j1];
        DistinctByPrefixIndex(xs, key, j1);
        if j2 < |init| {
          assert r[j2] == init[j2];
          DistinctByPrefixIndex(xs, key, j2);
        } else {
          DistinctByNewKey(xs, key);
        }
      }
    }
  }

  /** No key occurs twice in the result of `DistinctBy`. */
  lemma DistinctByUnique<T, K>(xs: seq<T>, key: T -> K)
    ensures var r := DistinctBy(xs, key);
      forall j1, j2 :: 0 <= j1 < j2 < |r| ==> key(r[j1]) != key(r[j2])
  {
    DistinctByFirstSeen(xs, key);
    DistinctByOrder(xs, key);
  }

  /** An already duplicate-free sequence is its own `DistinctBy`. */
  lemma {:induction false} DistinctByNoDuplicates<T, K>(xs: seq<T>, key: T -> K)
    requires forall i, j :: 0 <= i < j < |xs| ==> key(xs[i]) != key(xs[j])
    ensures DistinctBy(xs, key) == xs
    decreases |xs|
  {
    if xs != [] {
      var n := |xs| - 1;
      DistinctByNoDuplicates(xs[..n], key);
      assert IndexOfKey(xs[..n], key, key(xs[n])) == n;
    }
  }

  /** `a` comes before `b` in the requested direction. */
  predicate Precedes(a: int, b: int, descending: bool) {
    if descending then a >= b else a <= b
  }

  /** Ordered by `key`, ascending or descending. */
  ghost predicate SortedBy<T>(xs: seq<T>, key: T -> int, descending: bool) {
    forall i, j :: 0 <= i < j < |xs| ==> Precedes(key(xs[i]), key(xs[j]), descending)
  }

  /** Putting in front an element that precedes everything keeps a sequence sorted. */
  lemma PrependSorted<T>(h: T, xs: seq<T>, key: T -> int, descending: bool)
    requires SortedBy(xs, key, descending)
    requires forall i :: 0 <= i < |xs| ==> Precedes(key(h), key(xs[i]), descending)
    ensures SortedBy([h] + xs, key, descending)
  {
    var r := [h] + xs;
    forall i, j | 0 <= i < j < |r| ensures Precedes(key(r[i]), key(r[j]), descending) {
      if i > 0 {
        assert r[i] == xs[i - 1] && r[j] == xs[j - 1];
      } else {
        assert r[j] == xs[j - 1];
      }
    }
  }

  function InsertBy<T>(x: T, xs: seq<T>, key: T -> int, descending: bool): (r: seq<T>)
    requires SortedBy(xs, key, descending)
    ensures SortedBy(r, key, descending)
    ensures multiset(r) == multiset(xs) + multiset{x}
    decreases |xs|
  {
    if xs == [] then [x]
    else if Precedes(key(x), key(xs[0]), descending) then
      PrependSorted(x, xs, key, descending);
      [x] + xs
    else
      var rest := InsertBy(x, xs[1..], key, descending);
      assert xs == [xs[0]] + xs[1..];
      assert forall i :: 0 <= i < |rest| ==> Precedes(key(xs[0]), key(rest[i]), descending) by {
        forall i | 0 <= i < |rest| ensures Precedes(key(xs[0]), key(rest[i]), descending) {
          assert multiset(rest)[rest[i]] > 0;
          if rest[i] != x {
            assert rest[i] in xs[1..];
          }
        }
      }
      PrependSorted(xs[0], rest, key, descending);
      [xs[0]] + rest
  }

  /** `[...xs].sort((a, b) => key(a) - key(b))`, or `key(b) - key(a)` when descending. */
  function SortBy<T>(xs: seq<T>, key: T -> int, descending: bool): (r: seq<T>)
    ensures SortedBy(r, key, descending)
    ensures multiset(r) == multiset(xs)
    decreases |xs|
  {
    if xs == [] then []
    else
      assert xs == [xs[0]] + xs[1..];
      InsertBy(xs[0], SortBy(xs[1..], key, descending), key, descending)
  }
}
