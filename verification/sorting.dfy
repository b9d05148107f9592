/** Sorting a sequence by a string key under an abstract collation.

    `Array.prototype.sort` leaves its algorithm unspecified; all the model
    promises is what any correct sort promises: the result is a permutation
    of the input, ordered by the comparator. Insertion sort is used as one
    witness of that specification. */
module Sorting {
  import opened Seqs

  /** `le(a, b)` holds when `a` sorts no later than `b`: a total preorder,
      as `localeCompare(a, b) <= 0` is for a fixed locale. */
  ghost predicate TotalPreorder(le: (string, string) -> bool) {
    && (forall a, b :: le(a, b) || le(b, a))
    && (forall a, b, c :: le(a, b) && le(b, c) ==> le(a, c))
  }

  ghost predicate SortedByKey<T>(xs: seq<T>, key: T -> string, le: (string, string) -> bool) {
    forall i, j | 0 <= i < j < |xs| :: le(key(xs[i]), key(xs[j]))
  }

  /** Inserts `x` before the first element it sorts no later than. */
  function Insert<T>(x: T, xs: seq<T>, key: T -> string, le: (string, string) -> bool): (r: seq<T>)
    ensures multiset(r) == multiset(xs) + multiset{x}
  {
    if |xs| == 0 then [x]
    else if le(key(x), key(xs[0])) then [x] + xs
    else
      assert xs == [xs[0]] + xs[1..];
      [xs[0]] + Insert(x, xs[1..], key, le)
  }

  /** Every element of `xs` sorts no earlier than the key `b`. */
  ghost predicate AllFrom<T>(b: string, xs: seq<T>, key: T -> string, le: (string, string) -> bool) {
    forall i | 0 <= i < |xs| :: le(b, key(xs[i]))
  }

  /** Where `x` sorts no later than the head, it goes in front. */
  lemma InsertInFront<T>(x: T, xs: seq<T>, key: T -> string, le: (string, string) -> bool)
    requires |xs| == 0 || le(key(x), key(xs[0]))
    ensures Insert(x, xs, key, le) == [x] + xs
  {
  }

  /** Where `x` sorts after the head, the head stays in front. */
  lemma InsertBehind<T>(x: T, xs: seq<T>, key: T -> string, le: (string, string) -> bool)
    requires |xs| > 0 && !le(key(x), key(xs[0]))
    ensures Insert(x, xs, key, le) == [xs[0]] + Insert(x, xs[1..], key, le)
  {
  }

  /** A sorted sequence whose elements all sort no earlier than `h` stays
      sorted with `h` put in front. */
  lemma SortedCons<T>(h: T, xs: seq<T>, key: T -> string, le: (string, string) -> bool)
    requires SortedByKey(xs, key, le) && AllFrom(key(h), xs, key, le)
    ensures SortedByKey([h] + xs, key, le)
  {
    var r := [h] + xs;
    forall i, j | 0 <= i < j < |r| ensures le(key(r[i]), key(r[j])) {
      assert r[j] == xs[j - 1];
      if i > 0 {
        assert r[i] == xs[i - 1];
      }
    }
  }

  /** The tail of a sorted sequence is sorted, and sorts no earlier than
      the head. */
  lemma SortedTail<T>(xs: seq<T>, key: T -> string, le: (string, string) -> bool)
    requires |xs| > 0 && SortedByKey(xs, key, le)
    ensures SortedByKey(xs[1..], key, le) && AllFrom(key(xs[0]), xs[1..], key, le)
  {
    forall i, j | 0 <= i < j < |xs[1..]| ensures le(key(xs[1..][i]), key(xs[1..][j])) {
      assert xs[1..][i] == xs[i + 1] && xs[1..][j] == xs[j + 1];
    }
    forall j | 0 <= j < |xs[1..]| ensures le(key(xs[0]), key(xs[1..][j])) {
      assert xs[1..][j] == xs[j + 1];
    }
  }

  /** A lower bound on the keys survives insertion of an element that
      respects it. */
  lemma {:induction false} InsertAllFrom<T>(b: string, x: T, xs: seq<T>, key: T -> string, le: (string, string) -> bool)
    requires AllFrom(b, xs, key, le) && le(b, key(x))
    ensures AllFrom(b, Insert(x, xs, key, le), key, le)
  {
    if |xs| == 0 || le(key(x), key(xs[0])) {
      InsertInFront(x, xs, key, le);
      var r := [x] + xs;
      forall j | 0 <= j < |r| ensures le(b, key(r[j])) {
        if j > 0 {
          assert r[j] == xs[j - 1];
        }
      }
    } else {
      assert AllFrom(b, xs[1..], key, le) by {
        forall j | 0 <= j < |xs[1..]| ensures le(b, key(xs[1..][j])) {
          assert xs[1..][j] == xs[j + 1];
        }
      }
      InsertAllFrom(b, x, xs[1..], key, le);
      InsertBehind(x, xs, key, le);
      var r := [xs[0]] + Insert(x, xs[1..], key, le);
      forall j | 0 <= j < |r| ensures le(b, key(r[j])) {
        if j > 0 {
          assert r[j] == Insert(x, xs[1..], key, le)[j - 1];
        }
      }
    }
  }

  /** Inserting into a sorted sequence keeps it sorted. */
  lemma {:induction false} InsertSorted<T>(x: T, xs: seq<T>, key: T -> string, le: (string, string) -> bool)
    requires TotalPreorder(le)
    requires SortedByKey(xs, key, le)
    ensures SortedByKey(Insert(x, xs, key, le), key, le)
  {
    if |xs| == 0 || le(key(x), key(xs[0])) {
      InsertInFront(x, xs, key, le);
      if |xs| > 0 {
        SortedTail(xs, key, le);
        forall j | 0 <= j < |xs| ensures le(key(x), key(xs[j])) {
          if j > 0 {
            assert le(key(xs[0]), key(xs[1..][j - 1]));
          }
        }
      }
      SortedCons(x, xs, key, le);
    } else {
      SortedTail(xs, key, le);
      InsertSorted(x, xs[1..], key, le);
      InsertAllFrom(key(xs[0]), x, xs[1..], key, le);
      InsertBehind(x, xs, key, le);
      SortedCons(xs[0], Insert(x, xs[1..], key, le), key, le);
    }
  }

  /** The held sequence reordered by `key` under `le`. */
  function SortByKey<T>(xs: seq<T>, key: T -> string, le: (string, string) -> bool): (r: seq<T>)
    requires TotalPreorder(le)
    ensures multiset(r) == multiset(xs)
    ensures SortedByKey(r, key, le)
  {
    if |xs| == 0 then []
    else
      assert xs == [xs[0]] + xs[1..];
      var rest := SortByKey(xs[1..], key, le);
      InsertSorted(xs[0], rest, key, le);
      Insert(xs[0], rest, key, le)
  }

  /** Mapping after inserting counts the same elements as mapping before. */
  lemma {:induction false} MapInsert<T, U>(f: T -> U, x: T, xs: seq<T>, key: T -> string, le: (string, string) -> bool)
    ensures multiset(Map(f, Insert(x, xs, key, le))) == multiset(Map(f, xs)) + multiset{f(x)}
  {
    if |xs| == 0 || le(key(x), key(xs[0])) {
      MapCons(f, x, xs);
    } else {
      MapInsert(f, x, xs[1..], key, le);
      InsertBehind(x, xs, key, le);
      MapSameHead(f, xs, Insert(x, xs, key, le), f(x));
    }
  }

  /** Sorting moves whole elements: any projection `f` of the elements is
      preserved as a multiset. */
  lemma {:induction false} SortPreservesMapped<T, U>(f: T -> U, xs: seq<T>, key: T -> string, le: (string, string) -> bool)
    requires TotalPreorder(le)
    ensures multiset(Map(f, SortByKey(xs, key, le))) == multiset(Map(f, xs))
  {
    if |xs| == 0 {
    } else {
      SortPreservesMapped(f, xs[1..], key, le);
      MapInsert(f, xs[0], SortByKey(xs[1..], key, le), key, le);
      assert SortByKey(xs, key, le) == Insert(xs[0], SortByKey(xs[1..], key, le), key, le);
      assert Map(f, xs) == [f(xs[0])] + Map(f, xs[1..]);
    }
  }
}
