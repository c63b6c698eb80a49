/**
 * The queryset operations the views use, as functions over sequences of
 * records: `filter(...)` is `Filter`, `aggregate(Sum(...))` is `SumBy`,
 * `order_by(...)` is `SortBy` on an integer key, `values(k).annotate(total=Sum(...))`
 * is `GroupSum`, and a `next((row.total for row in rows if row.key == k), 0)`
 * lookup is `FirstMatch`.
 */
module Aggregates {

  // ---------------------------------------------------------------------------
  // Filtering
  // ---------------------------------------------------------------------------

  /** The elements of `s` that satisfy `p`, in their original order. */
  function Filter<T(!new)>(s: seq<T>, p: T -> bool): (r: seq<T>)
    ensures |r| <= |s|
    ensures forall x :: multiset(r)[x] == if p(x) then multiset(s)[x] else 0
    ensures forall x :: x in r <==> x in s && p(x)
    decreases |s|
  {
    if s == [] then []
    else
      var init, last := s[..|s| - 1], s[|s| - 1];
      assert s == init + [last];
      Filter(init, p) + (if p(last) then [last] else [])
  }

  /** Filtering keeps an order: a sorted sequence stays sorted. */
  lemma {:induction false} FilterKeepsSorted<T(!new)>(s: seq<T>, p: T -> bool, key: T -> int)
    requires SortedBy(s, key)
    ensures SortedBy(Filter(s, p), key)
    decreases |s|
  {
    if s != [] {
      var init, last := s[..|s| - 1], s[|s| - 1];
      assert SortedBy(init, key);
      FilterKeepsSorted(init, p, key);
      var f := Filter(init, p);
      if p(last) {
        forall y | y in f ensures key(y) <= key(last) {
          var i :| 0 <= i < |init| && init[i] == y;
          assert s[i] == y;
        }
        SnocKeepsSorted(f, last, key);
      } else {
        assert f + [] == f;
      }
    }
  }

  /** Appending an element no smaller than any before it keeps a sequence sorted. */
  lemma SnocKeepsSorted<T>(init: seq<T>, x: T, key: T -> int)
    requires SortedBy(init, key)
    requires forall y :: y in init ==> key(y) <= key(x)
    ensures SortedBy(init + [x], key)
  {
    var r := init + [x];
    forall i, j | 0 <= i < j < |r| ensures key(r[i]) <= key(r[j]) {
      if j < |init| {
        assert r[i] == init[i] && r[j] == init[j];
      } else {
        assert r[i] in init;
      }
    }
  }

  // ---------------------------------------------------------------------------
  // Sums
  // ---------------------------------------------------------------------------

  /** The sum of `f` over `s`; 0 for an empty `s` (`aggregate(Sum(...)) or 0`). */
  function SumBy<T>(s: seq<T>, f: T -> int): int
    decreases |s|
  {
    if s == [] then 0 else SumBy(s[..|s| - 1], f) + f(s[|s| - 1])
  }

  lemma {:induction false} SumByAppend<T>(a: seq<T>, b: seq<T>, f: T -> int)
    ensures SumBy(a + b, f) == SumBy(a, f) + SumBy(b, f)
    decreases |b|
  {
    if b == [] {
      assert a + b == a;
    } else {
      var init := b[..|b| - 1];
      assert (a + b)[..|a + b| - 1] == a + init;
      SumByAppend(a, init, f);
    }
  }

  /** Taking the element at `j` out of `b` takes its term out of the sum. */
  lemma SumByRemove<T>(b: seq<T>, j: nat, f: T -> int)
    requires j < |b|
    ensures SumBy(b, f) == SumBy(b[..j] + b[j + 1..], f) + f(b[j])
  {
    assert b == b[..j] + ([b[j]] + b[j + 1..]);
    SumByAppend(b[..j], [b[j]] + b[j + 1..], f);
    SumByAppend([b[j]], b[j + 1..], f);
    SumByAppend(b[..j], b[j + 1..], f);
    assert SumBy([b[j]], f) == SumBy([], f) + f(b[j]);
  }

  lemma MultisetRemove<T>(a: seq<T>, b: seq<T>, j: nat)
    requires j < |b| && |a| > 0
    requires multiset(a) == multiset(b) && b[j] == a[|a| - 1]
    ensures multiset(a[..|a| - 1]) == multiset(b[..j] + b[j + 1..])
  {
    var init, rest := a[..|a| - 1], b[..j] + b[j + 1..];
    assert a == init + [a[|a| - 1]];
    assert b == b[..j] + [b[j]] + b[j + 1..];
    calc {
      multiset(init);
      multiset(a) - multiset{b[j]};
      multiset(b) - multiset{b[j]};
      multiset(b[..j]) + multiset{b[j]} + multiset(b[j + 1..]) - multiset{b[j]};
      multiset(b[..j]) + multiset(b[j + 1..]);
      multiset(rest);
    }
  }

  /** A sum does not depend on the order of its terms. */
  lemma {:induction false} SumByPermutation<T>(a: seq<T>, b: seq<T>, f: T -> int)
    requires multiset(a) == multiset(b)
    ensures SumBy(a, f) == SumBy(b, f)
    decreases |a|
  {
    if a != [] {
      var last := a[|a| - 1];
      assert last in multiset(b);
      var j :| 0 <= j < |b| && b[j] == last;
      MultisetRemove(a, b, j);
      SumByPermutation(a[..|a| - 1], b[..j] + b[j + 1..], f);
      SumByRemove(b, j, f);
    }
  }

  /** The sum of `amount` over the elements of `s` whose key is `k` (`filter(key=k).aggregate(Sum(amount)) or 0`). */
  function KeySum<T, K(==)>(s: seq<T>, key: T -> K, amount: T -> int, k: K): int
    decreases |s|
  {
    if s == [] then 0
    else KeySum(s[..|s| - 1], key, amount, k) + (if key(s[|s| - 1]) == k then amount(s[|s| - 1]) else 0)
  }

  /** One more element adds its amount to its own key's sum and nothing to the others. */
  lemma KeySumSnoc<T, K>(s: seq<T>, x: T, key: T -> K, amount: T -> int, k: K)
    ensures KeySum(s + [x], key, amount, k) == KeySum(s, key, amount, k) + (if key(x) == k then amount(x) else 0)
  {
    assert (s + [x])[..|s|] == s;
  }

  /** A key no element carries sums to 0: "missing means zero". */
  lemma {:induction false} KeySumAbsent<T, K>(s: seq<T>, key: T -> K, amount: T -> int, k: K)
    requires forall x :: x in s ==> key(x) != k
    ensures KeySum(s, key, amount, k) == 0
    decreases |s|
  {
    if s != [] {
      KeySumAbsent(s[..|s| - 1], key, amount, k);
    }
  }

  /** The key's sum is the plain sum over the elements the key selects. */
  lemma {:induction false} KeySumIsFilteredSum<T(!new), K>(s: seq<T>, p: T -> bool, key: T -> K, amount: T -> int, k: K)
    requires forall x :: p(x) <==> key(x) == k
    ensures KeySum(s, key, amount, k) == SumBy(Filter(s, p), amount)
    decreases |s|
  {
    if s != [] {
      var init, last := s[..|s| - 1], s[|s| - 1];
      KeySumIsFilteredSum(init, p, key, amount, k);
      FilteredSumSnoc(s, p, amount);
      assert p(last) <==> key(last) == k;
    }
  }

  /** The filtered sum over `s` is the one over all but its last element, plus that element if it passes. */
  lemma FilteredSumSnoc<T(!new)>(s: seq<T>, p: T -> bool, amount: T -> int)
    requires s != []
    ensures SumBy(Filter(s, p), amount)
         == SumBy(Filter(s[..|s| - 1], p), amount) + (if p(s[|s| - 1]) then amount(s[|s| - 1]) else 0)
  {
    var f, last := Filter(s[..|s| - 1], p), s[|s| - 1];
    if p(last) {
      assert Filter(s, p) == f + [last];
      assert (f + [last])[..|f|] == f;
    } else {
      assert Filter(s, p) == f + [];
      assert f + [] == f;
    }
  }

  /** Pre-filtering by a condition every `k`-keyed element meets leaves the sum for `k` alone. */
  lemma {:induction false} KeySumOfFilter<T(!new), K>(s: seq<T>, p: T -> bool, key: T -> K, amount: T -> int, k: K)
    requires forall x :: key(x) == k ==> p(x)
    ensures KeySum(Filter(s, p), key, amount, k) == KeySum(s, key, amount, k)
    decreases |s|
  {
    if s == [] {
      assert Filter(s, p) == [];
    } else {
      var init, last := s[..|s| - 1], s[|s| - 1];
      var f := Filter(init, p);
      KeySumOfFilter(init, p, key, amount, k);
      if p(last) {
        assert Filter(s, p) == f + [last];
        KeySumSnoc(f, last, key, amount, k);
      } else {
        assert Filter(s, p) == f + [];
        assert f + [] == f;
      }
    }
  }

  /** With positive amounts, a key sums to 0 exactly when no element carries it. */
  lemma {:induction false} KeySumZeroIff<T, K>(s: seq<T>, key: T -> K, amount: T -> int, k: K)
    requires forall x :: x in s ==> amount(x) > 0
    ensures KeySum(s, key, amount, k) >= 0
    ensures KeySum(s, key, amount, k) == 0 <==> forall x :: x in s ==> key(x) != k
    decreases |s|
  {
    if s != [] {
      var init, last := s[..|s| - 1], s[|s| - 1];
      assert s == init + [last];
      KeySumZeroIff(init, key, amount, k);
    }
  }

  /** Filtering two orderings of the same elements gives two orderings of the same elements. */
  lemma FilterPermutation<T(!new)>(a: seq<T>, b: seq<T>, p: T -> bool)
    requires multiset(a) == multiset(b)
    ensures multiset(Filter(a, p)) == multiset(Filter(b, p))
  {
    assert forall x :: multiset(Filter(a, p))[x] == multiset(Filter(b, p))[x];
  }

  // ---------------------------------------------------------------------------
  // Grouping
  // ---------------------------------------------------------------------------

  /** The distinct keys of `s`, in order of first appearance. */
  function DistinctKeys<T(!new), K(==,!new)>(s: seq<T>, key: T -> K): (ks: seq<K>)
    ensures forall i, j :: 0 <= i < j < |ks| ==> ks[i] != ks[j]
    ensures forall k :: k in ks <==> exists x :: x in s && key(x) == k
    decreases |s|
  {
    if s == [] then []
    else
      var init, last := s[..|s| - 1], s[|s| - 1];
      assert s == init + [last];
      var ks := DistinctKeys(init, key);
      if key(last) in ks then ks else ks + [key(last)]
  }

  /**
   * One row per distinct key of `s` holding the key's total
   * (`values(key).annotate(total=Sum(amount))`).
   */
  function GroupSum<T(!new), K(==,!new)>(s: seq<T>, key: T -> K, amount: T -> int): (g: seq<(K, int)>)
    ensures forall i :: 0 <= i < |g| ==> g[i].1 == KeySum(s, key, amount, g[i].0)
    ensures forall i, j :: 0 <= i < j < |g| ==> g[i].0 != g[j].0
    ensures |g| == |DistinctKeys(s, key)|
    ensures forall i :: 0 <= i < |g| ==> g[i].0 == DistinctKeys(s, key)[i]
  {
    var ks := DistinctKeys(s, key);
    seq(|ks|, i requires 0 <= i < |ks| => (ks[i], KeySum(s, key, amount, ks[i])))
  }

  /** The grouped rows carry exactly the keys that occur in `s`. */
  lemma GroupSumKeys<T(!new), K(!new)>(s: seq<T>, key: T -> K, amount: T -> int, k: K)
    ensures (exists i :: 0 <= i < |GroupSum(s, key, amount)| && GroupSum(s, key, amount)[i].0 == k)
        <==> (exists x :: x in s && key(x) == k)
  {
    var g, ks := GroupSum(s, key, amount), DistinctKeys(s, key);
    if k in ks {
      var i :| 0 <= i < |ks| && ks[i] == k;
      assert g[i].0 == k;
    }
  }

  /** In rows with distinct keys, each row occurs once. */
  lemma DistinctKeysOccurOnce<K, V>(g: seq<(K, V)>, a: nat)
    requires a < |g|
    requires forall i, j :: 0 <= i < j < |g| ==> g[i].0 != g[j].0
    ensures multiset(g)[g[a]] == 1
  {
    var x := g[a];
    assert g == g[..a] + [x] + g[a + 1..];
    forall c | 0 <= c < |g| && c != a ensures g[c] != x {
      if c < a { assert g[c].0 != g[a].0; } else { assert g[a].0 != g[c].0; }
    }
    assert x !in g[..a];
    assert x !in g[a + 1..];
  }

  /** An element at two positions is counted at least twice. */
  lemma RepeatedCountsTwice<T>(s: seq<T>, i: nat, j: nat)
    requires i < j < |s| && s[i] == s[j]
    ensures multiset(s)[s[i]] >= 2
  {
    assert s == s[..j] + s[j..];
    assert s[i] in s[..j];
    assert s[j..][0] == s[j];
  }

  /** A reordering of rows with distinct keys still has distinct keys. */
  lemma PermutationKeepsDistinctKeys<K, V>(g: seq<(K, V)>, rows: seq<(K, V)>)
    requires multiset(rows) == multiset(g)
    requires forall i, j :: 0 <= i < j < |g| ==> g[i].0 != g[j].0
    ensures forall i, j :: 0 <= i < j < |rows| ==> rows[i].0 != rows[j].0
  {
    forall i, j | 0 <= i < j < |rows| ensures rows[i].0 != rows[j].0 {
      assert rows[i] in multiset(g) && rows[j] in multiset(g);
      var a :| 0 <= a < |g| && g[a] == rows[i];
      var b :| 0 <= b < |g| && g[b] == rows[j];
      DistinctKeysOccurOnce(g, a);
      if rows[i] == rows[j] {
        RepeatedCountsTwice(rows, i, j);
        assert false;
      }
      assert a != b;
      if a < b { assert g[a].0 != g[b].0; } else { assert g[b].0 != g[a].0; }
    }
  }

  /**
   * The first row of `g` whose key is `k`, or 0 when there is none
   * (`next((row.total for row in g if row.key == k), 0)`).
   */
  function FirstMatch<K(==)>(g: seq<(K, int)>, k: K): int {
    if g == [] then 0 else if g[0].0 == k then g[0].1 else FirstMatch(g[1..], k)
  }

  /** `FirstMatch` finds the value every row of key `k` agrees on, and 0 when no row has that key. */
  lemma {:induction false} FirstMatchFinds<K>(g: seq<(K, int)>, k: K, v: int)
    requires forall i :: 0 <= i < |g| && g[i].0 == k ==> g[i].1 == v
    requires (forall i :: 0 <= i < |g| ==> g[i].0 != k) ==> v == 0
    ensures FirstMatch(g, k) == v
  {
    if g != [] && g[0].0 != k {
      assert forall i :: 0 <= i < |g[1..]| ==> g[1..][i] == g[i + 1];
      FirstMatchFinds(g[1..], k, v);
    }
  }

  /**
   * Looking a key up in any ordering of the grouped rows gives the key's
   * total, and 0 for a key no element carries.
   */
  lemma GroupLookup<T(!new), K(!new)>(s: seq<T>, key: T -> K, amount: T -> int, rows: seq<(K, int)>, k: K)
    requires multiset(rows) == multiset(GroupSum(s, key, amount))
    ensures FirstMatch(rows, k) == KeySum(s, key, amount, k)
  {
    var g := GroupSum(s, key, amount);
    forall i | 0 <= i < |rows| && rows[i].0 == k ensures rows[i].1 == KeySum(s, key, amount, k) {
      assert rows[i] in multiset(g);
      var j :| 0 <= j < |g| && g[j] == rows[i];
    }
    if forall i :: 0 <= i < |rows| ==> rows[i].0 != k {
      assert !exists j :: 0 <= j < |g| && g[j].0 == k by {
        forall j | 0 <= j < |g| ensures g[j].0 != k {
          assert g[j] in multiset(rows);
        }
      }
      GroupSumKeys(s, key, amount, k);
      KeySumAbsent(s, key, amount, k);
    }
    FirstMatchFinds(rows, k, KeySum(s, key, amount, k));
  }

  // ---------------------------------------------------------------------------
  // Ordering
  // ---------------------------------------------------------------------------

  /** `s` is in ascending order of `key` (a descending order uses a negated key). */
  predicate SortedBy<T>(s: seq<T>, key: T -> int) {
    forall i, j :: 0 <= i < j < |s| ==> key(s[i]) <= key(s[j])
  }

  /** `x` inserted into `s` before the first element whose key is not smaller. */
  function InsertBy<T>(x: T, s: seq<T>, key: T -> int): (r: seq<T>)
    ensures multiset(r) == multiset(s) + multiset{x}
    ensures |r| == |s| + 1
    ensures forall y :: y in r ==> y == x || y in s
    decreases |s|
  {
    if s == [] then [x]
    else if key(x) <= key(s[0]) then [x] + s
    else
      assert s == [s[0]] + s[1..];
      [s[0]] + InsertBy(x, s[1..], key)
  }

  /** An element no larger than every element of a sorted sequence can go in front of it. */
  lemma ConsKeepsSorted<T>(h: T, rest: seq<T>, key: T -> int)
    requires SortedBy(rest, key)
    requires forall y :: y in rest ==> key(h) <= key(y)
    ensures SortedBy([h] + rest, key)
  {
    var r := [h] + rest;
    forall i, j | 0 <= i < j < |r| ensures key(r[i]) <= key(r[j]) {
      if i > 0 {
        assert r[i] == rest[i - 1] && r[j] == rest[j - 1];
      } else {
        assert r[j] in rest;
      }
    }
  }

  lemma {:induction false} InsertKeepsSorted<T>(x: T, s: seq<T>, key: T -> int)
    requires SortedBy(s, key)
    ensures SortedBy(InsertBy(x, s, key), key)
    decreases |s|
  {
    if s != [] && key(x) > key(s[0]) {
      var rest := InsertBy(x, s[1..], key);
      InsertKeepsSorted(x, s[1..], key);
      forall y | y in rest ensures key(s[0]) <= key(y) {
        if y != x {
          var i :| 0 <= i < |s[1..]| && s[1..][i] == y;
          assert s[i + 1] == y;
        }
      }
      ConsKeepsSorted(s[0], rest, key);
    } else if s != [] {
      forall y | y in s ensures key(x) <= key(y) {
        var i :| 0 <= i < |s| && s[i] == y;
        assert key(s[0]) <= key(s[i]);
      }
      ConsKeepsSorted(x, s, key);
    }
  }

  /** Inserting the head of `s` into its sorted tail sorts `s`. */
  lemma InsertStep<T>(s: seq<T>, rest: seq<T>, key: T -> int)
    requires s != [] && SortedBy(rest, key)
    requires multiset(rest) == multiset(s[1..]) && |rest| == |s| - 1
    ensures SortedBy(InsertBy(s[0], rest, key), key)
    ensures multiset(InsertBy(s[0], rest, key)) == multiset(s)
    ensures |InsertBy(s[0], rest, key)| == |s|
  {
    InsertKeepsSorted(s[0], rest, key);
    assert s == [s[0]] + s[1..];
  }

  /**
   * `s` in ascending order of `key`, elements with equal keys kept in their
   * original order (insertion sort).
   */
  function SortBy<T>(s: seq<T>, key: T -> int): (r: seq<T>)
    ensures multiset(r) == multiset(s)
    ensures |r| == |s|
    ensures SortedBy(r, key)
    decreases |s|
  {
    if s == [] then []
    else
      var rest := SortBy(s[1..], key);
      InsertStep(s, rest, key);
      InsertBy(s[0], rest, key)
  }

  /** A sorted sequence holds the same elements as its input. */
  lemma SortByMembers<T>(s: seq<T>, key: T -> int)
    ensures forall x :: x in SortBy(s, key) <==> x in s
  {
    var r := SortBy(s, key);
    forall x ensures x in r <==> x in s {
      assert x in r <==> x in multiset(r);
      assert x in s <==> x in multiset(s);
    }
  }
}
