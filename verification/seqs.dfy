/** Element-wise mapping over sequences, and how it interacts with multisets. */
module Seqs {

  /** `xs.map(f)` */
  function Map<T, U>(f: T -> U, xs: seq<T>): (r: seq<U>)
    ensures |r| == |xs|
    ensures forall i | 0 <= i < |xs| :: r[i] == f(xs[i])
  {
    if |xs| == 0 then [] else [f(xs[0])] + Map(f, xs[1..])
  }

  lemma MapCons<T, U>(f: T -> U, x: T, xs: seq<T>)
    ensures multiset(Map(f, [x] + xs)) == multiset{f(x)} + multiset(Map(f, xs))
  {
    assert ([x] + xs)[1..] == xs;
  }

  /** Two sequences with the same head whose tails' images differ by one
      element `y` have images differing by `y`. */
  lemma MapSameHead<T, U>(f: T -> U, xs: seq<T>, ys: seq<T>, y: U)
    requires |xs| > 0 && |ys| > 0 && ys[0] == xs[0]
    requires multiset(Map(f, ys[1..])) == multiset(Map(f, xs[1..])) + multiset{y}
    ensures multiset(Map(f, ys)) == multiset(Map(f, xs)) + multiset{y}
  {
    assert Map(f, ys) == [f(ys[0])] + Map(f, ys[1..]);
    assert Map(f, xs) == [f(xs[0])] + Map(f, xs[1..]);
  }

  ghost predicate Distinct<T>(xs: seq<T>) {
    forall i, j | 0 <= i < j < |xs| :: xs[i] != xs[j]
  }

  lemma {:induction false} DistinctCountsOnce<T>(xs: seq<T>, x: T)
    requires Distinct(xs)
    ensures multiset(xs)[x] <= 1
  {
    if |xs| > 0 {
      assert xs == [xs[0]] + xs[1..];
      assert xs[0] !in xs[1..];
      assert Distinct(xs[1..]) by {
        forall i, j | 0 <= i < j < |xs[1..]| ensures xs[1..][i] != xs[1..][j] {
          assert xs[1..][i] == xs[i + 1] && xs[1..][j] == xs[j + 1];
        }
      }
      DistinctCountsOnce(xs[1..], x);
    }
  }

  lemma RepeatCountsTwice<T>(xs: seq<T>, i: int, j: int)
    requires 0 <= i < j < |xs| && xs[i] == xs[j]
    ensures multiset(xs)[xs[i]] >= 2
  {
    assert xs == xs[..i] + [xs[i]] + xs[i + 1..j] + [xs[j]] + xs[j + 1..];
  }

  /** A rearrangement of distinct elements has distinct elements. */
  lemma DistinctPermutation<T>(xs: seq<T>, ys: seq<T>)
    requires multiset(xs) == multiset(ys) && Distinct(xs)
    ensures Distinct(ys)
  {
    forall i, j | 0 <= i < j < |ys| ensures ys[i] != ys[j] {
      if ys[i] == ys[j] {
        RepeatCountsTwice(ys, i, j);
        DistinctCountsOnce(xs, ys[i]);
      }
    }
  }
}
