/** What a library sort promises, and facts about sorted sequences of integers. */
module Sorting {
  import opened Seqs

  ghost predicate Ascending(q: seq<int>) {
    forall i, j :: 0 <= i < j < |q| ==> q[i] <= q[j]
  }

  lemma FirstIsLeast(a: seq<int>, x: int)
    requires Ascending(a) && x in multiset(a)
    ensures a != [] && a[0] <= x
  {
    var i :| 0 <= i < |a| && a[i] == x;
  }

  lemma SameTails(a: seq<int>, b: seq<int>)
    requires a != [] && b != [] && a[0] == b[0] && multiset(a) == multiset(b)
    ensures multiset(a[1..]) == multiset(b[1..])
  {
    ElementsWithout(a, 0);
    ElementsWithout(b, 0);
    assert RemoveAt(a, 0) == a[1..] && RemoveAt(b, 0) == b[1..];
    Cancel(multiset(a[1..]), multiset(b[1..]), a[0]);
  }

  /** The elements decide the sorted sequence. */
  lemma {:induction false} SortedUnique(a: seq<int>, b: seq<int>)
    requires Ascending(a) && Ascending(b) && multiset(a) == multiset(b)
    ensures a == b
    decreases |a|
  {
    if a == [] {
      assert |multiset(b)| == 0;
    } else {
      assert a[0] in multiset(b);
      FirstIsLeast(b, a[0]);
      FirstIsLeast(a, b[0]);
      SameTails(a, b);
      SortedUnique(a[1..], b[1..]);
      assert a == [a[0]] + a[1..] && b == [b[0]] + b[1..];
    }
  }

  function Iota(n: nat): (q: seq<int>)
    ensures |q| == n && Ascending(q)
  {
    seq(n, i => i)
  }

  /** What sort.Sort asks of a Less method. */
  ghost predicate StrictWeakOrder<T(!new)>(less: (T, T) -> bool) {
    && (forall a, b :: less(a, b) ==> !less(b, a))
    && (forall a, b, c :: less(a, c) ==> less(a, b) || less(b, c))
  }

  ghost predicate SortedBy<T>(q: seq<T>, less: (T, T) -> bool) {
    forall i, j :: 0 <= i < j < |q| ==> !less(q[j], q[i])
  }

  /** The first n elements are sorted but for the one at j, which may be too far right. */
  ghost predicate SortedBut<T>(q: seq<T>, less: (T, T) -> bool, j: nat, n: nat) {
    n <= |q| && forall a, b :: 0 <= a < b < n && b != j ==> !less(q[b], q[a])
  }

  lemma SinkStep<T(!new)>(q: seq<T>, less: (T, T) -> bool, j: nat, n: nat)
    requires StrictWeakOrder(less) && 0 < j < n && SortedBut(q, less, j, n) && less(q[j], q[j - 1])
    ensures SortedBut(Swap(q, j, j - 1), less, j - 1, n)
  {
    var r := Swap(q, j, j - 1);
    forall a, b | 0 <= a < b < n && b != j - 1 ensures !less(r[b], r[a]) {
      if b == j && a < j - 1 {
        assert !less(q[j - 1], q[a]);
      } else if b > j && a == j - 1 {
        assert !less(q[b], q[j]);
      } else if b > j && a == j {
        assert !less(q[b], q[j - 1]);
      }
    }
  }

  lemma SinkDone<T(!new)>(q: seq<T>, less: (T, T) -> bool, j: nat, n: nat)
    requires StrictWeakOrder(less) && j < n && SortedBut(q, less, j, n)
    requires j == 0 || !less(q[j], q[j - 1])
    ensures SortedBy(q[..n], less)
  {
    forall a, b | 0 <= a < b < n ensures !less(q[b], q[a]) {
      if b == j && a < j - 1 {
        assert !less(q[j - 1], q[a]);
      }
    }
  }

  // ---------- Sorting by a key ----------

  ghost predicate AscendingBy<T>(q: seq<T>, key: T -> int) {
    forall i, j :: 0 <= i < j < |q| ==> key(q[i]) <= key(q[j])
  }

  ghost predicate StrictlyBy<T>(q: seq<T>, key: T -> int) {
    forall i, j :: 0 <= i < j < |q| ==> key(q[i]) < key(q[j])
  }

  function InsertBy<T>(x: T, q: seq<T>, key: T -> int): (r: seq<T>)
    ensures r != []
  {
    if q == [] || key(x) <= key(q[0]) then [x] + q else [q[0]] + InsertBy(x, q[1..], key)
  }

  lemma ConsAscending<T>(y: T, r: seq<T>, key: T -> int)
    requires AscendingBy(r, key) && (r != [] ==> key(y) <= key(r[0]))
    ensures AscendingBy([y] + r, key)
  {
    var s := [y] + r;
    forall i, j | 0 <= i < j < |s| ensures key(s[i]) <= key(s[j]) {
      assert s[j] == r[j - 1];
      if i == 0 && j > 1 {
        assert key(r[0]) <= key(r[j - 1]);
      }
    }
  }

  lemma {:induction false} InsertByElements<T>(x: T, q: seq<T>, key: T -> int)
    ensures multiset(InsertBy(x, q, key)) == multiset(q) + multiset{x}
  {
    if q != [] && key(x) > key(q[0]) {
      InsertByElements(x, q[1..], key);
      assert q == [q[0]] + q[1..];
    }
  }

  lemma {:induction false} InsertByAscending<T>(x: T, q: seq<T>, key: T -> int)
    requires AscendingBy(q, key)
    ensures AscendingBy(InsertBy(x, q, key), key)
    ensures InsertBy(x, q, key)[0] == if q == [] || key(x) <= key(q[0]) then x else q[0]
  {
    if q == [] || key(x) <= key(q[0]) {
      ConsAscending(x, q, key);
    } else {
      var rest := q[1..];
      InsertByAscending(x, rest, key);
      ConsAscending(q[0], InsertBy(x, rest, key), key);
    }
  }

  /** slices.SortFunc with a comparison of keys. When all keys differ, the elements decide
      the result, so the algorithm does not matter. */
  method SortFunc<T>(q: seq<T>, key: T -> int) returns (r: seq<T>)
    ensures AscendingBy(r, key) && multiset(r) == multiset(q)
  {
    r := [];
    for i := 0 to |q|
      invariant AscendingBy(r, key) && multiset(r) == multiset(q[..i])
    {
      InsertByAscending(q[i], r, key);
      InsertByElements(q[i], r, key);
      r := InsertBy(q[i], r, key);
      assert q[..i + 1] == q[..i] + [q[i]];
    }
    assert q[..|q|] == q;
  }

  lemma HeadInside<T>(a: seq<T>)
    ensures a == [] || a[0] in a
  {
  }

  lemma HeadIsLeast<T>(a: seq<T>, key: T -> int, x: T)
    requires StrictlyBy(a, key) && x in a
    ensures key(a[0]) <= key(x) && (key(a[0]) == key(x) ==> a[0] == x)
  {
    var i :| 0 <= i < |a| && a[i] == x;
  }

  /** Strictly ascending sequences with the same elements are equal. */
  lemma {:induction false} StrictUnique<T>(a: seq<T>, b: seq<T>, key: T -> int)
    requires StrictlyBy(a, key) && StrictlyBy(b, key) && (forall x :: x in a <==> x in b)
    ensures a == b
    decreases |a|
  {
    HeadInside(a);
    HeadInside(b);
    if a != [] && b != [] {
      assert a[0] in b && b[0] in a;
      HeadIsLeast(a, key, b[0]);
      HeadIsLeast(b, key, a[0]);
      var a', b' := a[1..], b[1..];
      assert a == [a[0]] + a' && b == [b[0]] + b';
      assert a[0] == b[0] && a[0] !in a' && b[0] !in b';
      forall x ensures x in a' <==> x in b' {
        assert x in a <==> x == a[0] || x in a';
        assert x in b <==> x == b[0] || x in b';
      }
      StrictUnique(a', b', key);
    }
  }

  // ---------- Distinct elements ----------

  lemma TwiceThere(r: seq<int>, i: nat, j: nat)
    requires i < j < |r| && r[i] == r[j]
    ensures multiset(r)[r[i]] >= 2
  {
    assert r == r[..i] + [r[i]] + r[i + 1..j] + [r[j]] + r[j + 1..];
  }

  lemma {:induction false} OnceEach(q: seq<int>, x: int)
    requires NoDup(q)
    ensures multiset(q)[x] <= 1
  {
    if q != [] {
      assert q == [q[0]] + q[1..];
      OnceEach(q[1..], x);
      if x == q[0] {
        assert x !in q[1..];
      }
    }
  }

  lemma NoDupPermuted(q: seq<int>, r: seq<int>)
    requires NoDup(q) && multiset(q) == multiset(r)
    ensures NoDup(r)
  {
    forall x ensures multiset(q)[x] <= 1 {
      OnceEach(q, x);
    }
    forall i, j | 0 <= i < j < |r| ensures r[i] != r[j] {
      if r[i] == r[j] {
        TwiceThere(r, i, j);
      }
    }
  }

  /** Sorting elements with distinct keys gives a strictly ascending sequence of them. */
  lemma DistinctKeysSorted<T>(q: seq<T>, r: seq<T>, key: T -> int)
    requires AscendingBy(r, key) && multiset(r) == multiset(q) && NoDup(Map(q, key))
    ensures StrictlyBy(r, key) && forall x :: x in r <==> x in q
  {
    forall x ensures x in r <==> x in q {
      assert x in r <==> x in multiset(r);
      assert x in q <==> x in multiset(q);
    }
    MapPermuted(q, r, key);
    NoDupPermuted(Map(q, key), Map(r, key));
    forall i, j | 0 <= i < j < |r| ensures key(r[i]) < key(r[j]) {
      assert Map(r, key)[i] != Map(r, key)[j];
    }
  }
}
