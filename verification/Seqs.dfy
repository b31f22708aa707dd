/** Facts about sequences and multisets that several models share. */
module Seqs {

  function Swap<T>(s: seq<T>, i: nat, j: nat): (r: seq<T>)
    requires i < |s| && j < |s|
    ensures |r| == |s|
  {
    s[i := s[j]][j := s[i]]
  }

  function RemoveAt<T>(s: seq<T>, k: nat): seq<T>
    requires k < |s|
  {
    s[..k] + s[k + 1..]
  }

  lemma ExchangeEnds<T>(a: seq<T>, x: T, b: seq<T>, y: T)
    ensures multiset(a + [y] + b) + multiset{x} == multiset(a + [x] + b + [y])
  {
  }

  lemma SwapKeepsElements<T>(s: seq<T>, i: nat, j: nat)
    requires i < |s| && j < |s|
    ensures multiset(Swap(s, i, j)) == multiset(s)
  {
  }

  /** Swapping inside a slice and cutting its last element off removes one occurrence. */
  lemma CutAfterSwap<T>(s: seq<T>, lo: nat, i: nat, n: nat)
    requires lo <= i < n <= |s|
    ensures multiset(Swap(s, i, n - 1)[lo..n - 1]) + multiset{s[i]} == multiset(s[lo..n])
  {
    var sw := Swap(s, i, n - 1);
    if i == n - 1 {
      assert s[lo..n] == sw[lo..n - 1] + [s[i]];
    } else {
      assert s[lo..n] == s[lo..i] + [s[i]] + s[i + 1..n - 1] + [s[n - 1]];
      assert sw[lo..n - 1] == s[lo..i] + [s[n - 1]] + s[i + 1..n - 1];
      ExchangeEnds(s[lo..i], s[i], s[i + 1..n - 1], s[n - 1]);
    }
  }

  lemma TailAfterSwap<T>(s: seq<T>, i: nat, n: nat)
    requires i < n <= |s|
    ensures Swap(s, i, n - 1)[n - 1..] == [s[i]] + s[n..]
  {
  }

  lemma CutByRemove<T>(s: seq<T>, k: nat, lo: nat, hi: nat)
    requires lo <= k < hi <= |s|
    ensures multiset(RemoveAt(s, k)[lo..hi - 1]) + multiset{s[k]} == multiset(s[lo..hi])
    ensures RemoveAt(s, k)[..lo] == s[..lo] && RemoveAt(s, k)[hi - 1..] == s[hi..]
  {
    assert s[lo..hi] == s[lo..k] + [s[k]] + s[k + 1..hi];
    assert RemoveAt(s, k)[lo..hi - 1] == s[lo..k] + s[k + 1..hi];
  }

  lemma SameLength<T>(a: seq<T>, b: seq<T>)
    requires multiset(a) == multiset(b)
    ensures |a| == |b|
  {
    assert |a| == |multiset(a)| && |b| == |multiset(b)|;
  }

  ghost predicate NoDup<T>(q: seq<T>) {
    forall i, j :: 0 <= i < j < |q| ==> q[i] != q[j]
  }

  function Map<T, U>(s: seq<T>, f: T -> U): (r: seq<U>)
    ensures |r| == |s| && forall i :: 0 <= i < |s| ==> r[i] == f(s[i])
  {
    seq(|s|, i requires 0 <= i < |s| => f(s[i]))
  }

  lemma MapConcat<T, U>(a: seq<T>, b: seq<T>, f: T -> U)
    ensures Map(a + b, f) == Map(a, f) + Map(b, f)
  {
  }

  lemma ElementsWithout<T>(s: seq<T>, k: nat)
    requires k < |s|
    ensures multiset(s) == multiset(RemoveAt(s, k)) + multiset{s[k]}
  {
    assert s == s[..k] + [s[k]] + s[k + 1..];
  }

  lemma MapWithout<T, U>(s: seq<T>, k: nat, f: T -> U)
    requires k < |s|
    ensures multiset(Map(s, f)) == multiset(Map(RemoveAt(s, k), f)) + multiset{f(s[k])}
  {
    ElementsWithout(Map(s, f), k);
    assert RemoveAt(Map(s, f), k) == Map(RemoveAt(s, k), f);
  }

  lemma Cancel<T>(a: multiset<T>, b: multiset<T>, x: T)
    requires a + multiset{x} == b + multiset{x}
    ensures a == b
  {
    assert a == a + multiset{x} - multiset{x};
    assert b == b + multiset{x} - multiset{x};
  }

  /** Mapping a permutation gives a permutation. */
  lemma {:induction false} MapPermuted<T, U>(a: seq<T>, b: seq<T>, f: T -> U)
    requires multiset(a) == multiset(b)
    ensures multiset(Map(a, f)) == multiset(Map(b, f))
  {
    if a == [] {
      assert |multiset(b)| == 0;
    } else {
      assert a[0] in multiset(b);
      var k :| 0 <= k < |b| && b[k] == a[0];
      MapWithout(a, 0, f);
      MapWithout(b, k, f);
      ElementsWithout(a, 0);
      ElementsWithout(b, k);
      Cancel(multiset(RemoveAt(a, 0)), multiset(RemoveAt(b, k)), a[0]);
      MapPermuted(RemoveAt(a, 0), RemoveAt(b, k), f);
    }
  }

  lemma ExchangeOne<T>(after: multiset<T>, gone: multiset<T>, before: multiset<T>, x: T)
    requires after + gone == before + multiset{x} && gone <= before
    ensures after == (before - gone) + multiset([x])
  {
    forall y ensures after[y] == ((before - gone) + multiset([x]))[y] {
      assert (after + gone)[y] == (before + multiset{x})[y];
    }
  }

  // ---------- Runs of a step function ----------

  function Fold<S, O>(step: (S, O) -> S, start: S, ops: seq<O>): S {
    if ops == [] then start else step(Fold(step, start, ops[..|ops| - 1]), ops[|ops| - 1])
  }

  /** What holds at the start and is kept by every step holds after any run. */
  lemma {:induction false} FoldKeeps<S(!new), O(!new)>(step: (S, O) -> S, start: S, ops: seq<O>, P: (S, seq<O>) -> bool)
    requires P(start, [])
    requires forall s, done, op {:trigger P(s, done), step(s, op)} :: P(s, done) ==> P(step(s, op), done + [op])
    ensures P(Fold(step, start, ops), ops)
  {
    if ops != [] {
      var before, op := ops[..|ops| - 1], ops[|ops| - 1];
      FoldKeeps(step, start, before, P);
      assert P(step(Fold(step, start, before), op), before + [op]);
      assert before + [op] == ops;
    }
  }
}
