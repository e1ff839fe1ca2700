/**
 * Sequence helpers shared by the model: the row filters of a table
 * (a boolean mask in the dashboard, a list comprehension in the generator),
 * counts of matching rows, and column sums.
 */
module Seqs {

  /** The rows of `s` that satisfy `p`, in their original order. */
  function Filter<T>(s: seq<T>, p: T -> bool): (r: seq<T>)
    ensures |r| <= |s|
    ensures forall i | 0 <= i < |r| :: r[i] in s && p(r[i])
    ensures forall i | 0 <= i < |s| && p(s[i]) :: s[i] in r
  {
    if s == [] then []
    else (if p(s[0]) then [s[0]] else []) + Filter(s[1..], p)
  }

  /** Number of rows of `s` that satisfy `p` (`len([x for x in s if p(x)])`). */
  function Count<T>(s: seq<T>, p: T -> bool): nat
  {
    |Filter(s, p)|
  }

  /** Sum of a numeric column (`sum(f(x) for x in s)`). */
  function Sum<T>(s: seq<T>, f: T -> int): int
  {
    if s == [] then 0 else f(s[0]) + Sum(s[1..], f)
  }

  /** Sum of a real-valued column. */
  function SumReal<T>(s: seq<T>, f: T -> real): real
  {
    if s == [] then 0.0 else f(s[0]) + SumReal(s[1..], f)
  }

  /** The values of a column, in row order. */
  function Map<T, U>(s: seq<T>, f: T -> U): (r: seq<U>)
    ensures |r| == |s|
    ensures forall i | 0 <= i < |s| :: r[i] == f(s[i])
  {
    if s == [] then [] else [f(s[0])] + Map(s[1..], f)
  }

  /** Appending nothing leaves a sequence unchanged. */
  lemma AppendEmpty<T>(s: seq<T>)
    ensures s + [] == s
  {
  }

  lemma {:induction false} FilterAppend<T>(a: seq<T>, b: seq<T>, p: T -> bool)
    ensures Filter(a + b, p) == Filter(a, p) + Filter(b, p)
  {
    if a == [] {
      assert a + b == b;
    } else {
      assert (a + b)[1..] == a[1..] + b;
      FilterAppend(a[1..], b, p);
    }
  }

  /** Applying two filters one after the other keeps the rows satisfying both. */
  lemma {:induction false} FilterFilter<T>(s: seq<T>, p: T -> bool, q: T -> bool, both: T -> bool)
    requires forall x | x in s :: both(x) == (p(x) && q(x))
    ensures Filter(Filter(s, p), q) == Filter(s, both)
  {
    if s != [] {
      FilterFilter(s[1..], p, q, both);
      FilterAppend(if p(s[0]) then [s[0]] else [], Filter(s[1..], p), q);
    }
  }

  /** A filter that every row passes leaves the table unchanged. */
  lemma {:induction false} FilterAll<T>(s: seq<T>, p: T -> bool)
    requires forall x | x in s :: p(x)
    ensures Filter(s, p) == s
  {
    if s != [] {
      FilterAll(s[1..], p);
    }
  }

  /** The first row of a table is kept or dropped, then the rest is filtered. */
  lemma FilterStep<T>(s: seq<T>, p: T -> bool)
    requires s != []
    ensures multiset(Filter(s, p)) == (if p(s[0]) then multiset{s[0]} else multiset{}) + multiset(Filter(s[1..], p))
  {
  }

  lemma FirstAndRest<T>(s: seq<T>)
    requires s != []
    ensures multiset(s) == multiset{s[0]} + multiset(s[1..])
  {
    assert s == [s[0]] + s[1..];
  }

  /** A test and its negation split a table into two parts that together hold every row. */
  lemma {:induction false} FilterPartition<T>(s: seq<T>, p: T -> bool, notP: T -> bool)
    requires forall x | x in s :: notP(x) == !p(x)
    ensures multiset(Filter(s, p)) + multiset(Filter(s, notP)) == multiset(s)
  {
    if s != [] {
      FilterPartition(s[1..], p, notP);
      FilterStep(s, p);
      FilterStep(s, notP);
      FirstAndRest(s);
    }
  }

  /** Every row either passes a test or fails it. */
  lemma {:induction false} CountComplement<T>(s: seq<T>, p: T -> bool, notP: T -> bool)
    requires forall x | x in s :: notP(x) == !p(x)
    ensures Count(s, p) + Count(s, notP) == |s|
  {
    if s != [] {
      CountComplement(s[1..], p, notP);
    }
  }

  /** Two tests that never hold together count no more rows than there are. */
  lemma {:induction false} CountDisjoint<T>(s: seq<T>, p: T -> bool, q: T -> bool)
    requires forall x | x in s :: !(p(x) && q(x))
    ensures Count(s, p) + Count(s, q) <= |s|
  {
    if s != [] {
      CountDisjoint(s[1..], p, q);
    }
  }

  /** Counting the rows of a sub-table never exceeds counting the table. */
  lemma {:induction false} CountMonotone<T>(s: seq<T>, p: T -> bool, q: T -> bool)
    requires forall x | x in s :: p(x) ==> q(x)
    ensures Count(s, p) <= Count(s, q)
  {
    if s != [] {
      CountMonotone(s[1..], p, q);
    }
  }

  lemma {:induction false} SumAppend<T>(a: seq<T>, b: seq<T>, f: T -> int)
    ensures Sum(a + b, f) == Sum(a, f) + Sum(b, f)
  {
    if a == [] {
      assert a + b == b;
    } else {
      assert (a + b)[1..] == a[1..] + b;
      SumAppend(a[1..], b, f);
    }
  }

  lemma {:induction false} SumNonNegative<T>(s: seq<T>, f: T -> int)
    requires forall x | x in s :: f(x) >= 0
    ensures Sum(s, f) >= 0
  {
    if s != [] {
      SumNonNegative(s[1..], f);
    }
  }

  lemma {:induction false} MapAppend<T, U>(a: seq<T>, b: seq<T>, f: T -> U)
    ensures Map(a + b, f) == Map(a, f) + Map(b, f)
  {
    if a == [] {
      assert a + b == b;
    } else {
      assert (a + b)[1..] == a[1..] + b;
      MapAppend(a[1..], b, f);
    }
  }

  /** A column whose values lie in `[lo, hi]` sums to between `|s| * lo` and `|s| * hi`. */
  lemma {:induction false} SumRealBounds<T>(s: seq<T>, f: T -> real, lo: real, hi: real)
    requires forall i | 0 <= i < |s| :: lo <= f(s[i]) <= hi
    ensures |s| as real * lo <= SumReal(s, f) <= |s| as real * hi
  {
    if s != [] {
      assert forall i | 0 <= i < |s[1..]| :: s[1..][i] == s[i + 1];
      SumRealBounds(s[1..], f, lo, hi);
    }
  }

  /** No row passes a test that no row satisfies. */
  lemma {:induction false} CountNone<T>(s: seq<T>, p: T -> bool)
    requires forall x | x in s :: !p(x)
    ensures Count(s, p) == 0
  {
    if s != [] {
      CountNone(s[1..], p);
    }
  }

  /** Rows passing one of two exclusive tests are counted once by each. */
  lemma {:induction false} CountUnion<T>(s: seq<T>, p: T -> bool, q: T -> bool, either: T -> bool)
    requires forall x | x in s :: either(x) == (p(x) || q(x)) && !(p(x) && q(x))
    ensures Count(s, either) == Count(s, p) + Count(s, q)
  {
    if s != [] {
      CountUnion(s[1..], p, q, either);
    }
  }

  /** Two columns that agree row by row have the same sum. */
  lemma {:induction false} SumPointwise<T, U>(s: seq<T>, f: T -> int, t: seq<U>, g: U -> int)
    requires |s| == |t|
    requires forall i | 0 <= i < |s| :: f(s[i]) == g(t[i])
    ensures Sum(s, f) == Sum(t, g)
  {
    if s != [] {
      assert forall i | 0 <= i < |s[1..]| :: s[1..][i] == s[i + 1] && t[1..][i] == t[i + 1];
      SumPointwise(s[1..], f, t[1..], g);
    }
  }

  /** The test "the key of `x` is `k`". */
  function HasKey<T, K(==)>(key: T -> K, k: K): T -> bool
  {
    x => key(x) == k
  }

  lemma HasKeyMeans<T, K>(key: T -> K, k: K, x: T)
    ensures HasKey(key, k)(x) <==> key(x) == k
  {
  }

  /** The test "the key of `x` is one of `keys`". */
  function KeyAmong<T, K(==)>(key: T -> K, keys: seq<K>): T -> bool
  {
    x => key(x) in keys
  }

  lemma KeyAmongMeans<T, K>(key: T -> K, keys: seq<K>, x: T)
    ensures KeyAmong(key, keys)(x) <==> key(x) in keys
  {
  }

  /** The number of rows of `s` whose key is `k`, as a function of `k`. */
  function CountByKey<T, K(==)>(s: seq<T>, key: T -> K): K -> int
  {
    k => Count(s, HasKey(key, k))
  }

  /**
   * Grouping rows by distinct keys counts every row whose key is among them
   * exactly once.
   */
  lemma {:induction false} GroupCounts<T, K>(keys: seq<K>, s: seq<T>, key: T -> K)
    requires forall i, j | 0 <= i < j < |keys| :: keys[i] != keys[j]
    ensures Sum(keys, CountByKey(s, key)) == Count(s, KeyAmong(key, keys))
  {
    if keys == [] {
      CountNone(s, KeyAmong(key, keys));
    } else {
      var rest := keys[1..];
      assert forall i, j | 0 <= i < j < |rest| :: rest[i] != rest[j] by {
        forall i, j | 0 <= i < j < |rest|
          ensures rest[i] != rest[j]
        {
          assert rest[i] == keys[i + 1] && rest[j] == keys[j + 1];
        }
      }
      GroupCounts(rest, s, key);
      assert keys[0] !in rest by {
        forall i | 0 <= i < |rest|
          ensures rest[i] != keys[0]
        {
          assert rest[i] == keys[i + 1];
        }
      }
      forall x | x in s
        ensures KeyAmong(key, keys)(x) == (HasKey(key, keys[0])(x) || KeyAmong(key, rest)(x))
      {
        assert keys == [keys[0]] + rest;
      }
      CountUnion(s, HasKey(key, keys[0]), KeyAmong(key, rest), KeyAmong(key, keys));
    }
  }
}
