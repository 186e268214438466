/** Shared vocabulary: optional values, order-preserving filters over
    sequences (JavaScript's `Array.prototype.filter`), counting, and
    `Math.round` of a percentage restated in integer arithmetic. */
module Common {

  /** A value that may be absent (`undefined` / `null` in the source). */
  datatype Option<+T> = None | Some(value: T)

  /** The elements of `s` that satisfy `p`, in their original order. */
  function Filter<T(!new)>(s: seq<T>, p: T -> bool): (r: seq<T>)
    ensures |r| <= |s|
    ensures forall x :: x in r <==> x in s && p(x)
  {
    if s == [] then []
    else
      assert s == [s[0]] + s[1..];
      if p(s[0]) then [s[0]] + Filter(s[1..], p) else Filter(s[1..], p)
  }

  /** A filter keeps each element at most as often as it occurs. */
  lemma {:induction false} FilterSubMultiset<T(!new)>(s: seq<T>, p: T -> bool)
    ensures multiset(Filter(s, p)) <= multiset(s)
  {
    if s != [] {
      FilterSubMultiset(s[1..], p);
      assert s == [s[0]] + s[1..];
    }
  }

  /** `r` is `s` with some elements left out and the rest in their order. */
  predicate Subsequence<T(==)>(r: seq<T>, s: seq<T>)
    decreases |s|
  {
    if s == [] then r == []
    else (r != [] && r[0] == s[0] && Subsequence(r[1..], s[1..])) || Subsequence(r, s[1..])
  }

  /** A subsequence holds each element at most as often as the sequence. */
  lemma {:induction false} SubsequenceSubMultiset<T>(r: seq<T>, s: seq<T>)
    requires Subsequence(r, s)
    ensures multiset(r) <= multiset(s)
    decreases |s|
  {
    if s != [] {
      assert s == [s[0]] + s[1..];
      if r != [] && r[0] == s[0] && Subsequence(r[1..], s[1..]) {
        SubsequenceSubMultiset(r[1..], s[1..]);
        assert r == [r[0]] + r[1..];
      } else {
        SubsequenceSubMultiset(r, s[1..]);
      }
    }
  }

  /** A filter keeps the order of what it keeps. */
  lemma {:induction false} FilterSubsequence<T(!new)>(s: seq<T>, p: T -> bool)
    ensures Subsequence(Filter(s, p), s)
  {
    if s != [] {
      FilterSubsequence(s[1..], p);
      if p(s[0]) {
        assert Filter(s, p)[1..] == Filter(s[1..], p);
      }
    }
  }

  /** A filter keeps every occurrence of an element that passes and none of
      one that does not. */
  lemma {:induction false} FilterMultiplicity<T(!new)>(s: seq<T>, p: T -> bool, x: T)
    ensures multiset(Filter(s, p))[x] == if p(x) then multiset(s)[x] else 0
  {
    if s != [] {
      FilterMultiplicity(s[1..], p, x);
      assert s == [s[0]] + s[1..];
      assert multiset(s) == multiset{s[0]} + multiset(s[1..]);
      if p(s[0]) {
        assert multiset(Filter(s, p)) == multiset{s[0]} + multiset(Filter(s[1..], p));
      } else {
        assert Filter(s, p) == Filter(s[1..], p);
      }
    }
  }

  /** The filter is the only subsequence that holds every passing element
      as often as the sequence does, and nothing else. */
  lemma {:induction false} FilterUnique<T(!new)>(r: seq<T>, s: seq<T>, p: T -> bool)
    requires Subsequence(r, s)
    requires forall x :: multiset(r)[x] == if p(x) then multiset(s)[x] else 0
    ensures r == Filter(s, p)
    decreases |s|
  {
    if s != [] {
      var x0 := s[0];
      assert s == [x0] + s[1..];
      var rest := s[1..];
      if r != [] && r[0] == x0 && Subsequence(r[1..], rest) {
        assert r == [x0] + r[1..];
        assert p(x0) by {
          assert multiset(r)[x0] > 0;
        }
        forall x ensures multiset(r[1..])[x] == if p(x) then multiset(rest)[x] else 0 {
          assert multiset(r)[x] == multiset(r[1..])[x] + (if x == x0 then 1 else 0);
          assert multiset(s)[x] == multiset(rest)[x] + (if x == x0 then 1 else 0);
        }
        FilterUnique(r[1..], rest, p);
      } else {
        assert Subsequence(r, rest);
        SubsequenceSubMultiset(r, rest);
        assert multiset(s)[x0] == multiset(rest)[x0] + 1;
        assert !p(x0);
        forall x ensures multiset(r)[x] == if p(x) then multiset(rest)[x] else 0 {
          if p(x) {
            assert x != x0;
            assert multiset(s)[x] == multiset(rest)[x];
          }
        }
        FilterUnique(r, rest, p);
      }
    }
  }

  /** Exchanging two neighbours that do not both pass leaves the filter
      unchanged. */
  lemma FilterPairSwap<T(!new)>(u: T, v: T, p: T -> bool)
    requires !(p(u) && p(v))
    ensures Filter([u, v], p) == Filter([v, u], p)
  {
    assert [u, v][1..] == [v] && [v, u][1..] == [u];
    assert [u][1..] == [] && [v][1..] == [];
  }

  /** How many elements of `s` satisfy `p` (`s.filter(p).length`). */
  function Count<T(!new)>(s: seq<T>, p: T -> bool): (n: nat)
    ensures n <= |s|
  {
    |Filter(s, p)|
  }

  /** Nothing is counted exactly when no element satisfies `p`. */
  lemma CountZero<T(!new)>(s: seq<T>, p: T -> bool)
    ensures Count(s, p) == 0 <==> forall x :: x in s ==> !p(x)
  {
    if Count(s, p) != 0 {
      assert Filter(s, p)[0] in Filter(s, p);
    }
  }

  /** Filtering distributes over concatenation. */
  lemma {:induction false} FilterAppend<T(!new)>(s: seq<T>, t: seq<T>, p: T -> bool)
    ensures Filter(s + t, p) == Filter(s, p) + Filter(t, p)
  {
    if s == [] {
      assert s + t == t;
    } else {
      assert (s + t)[1..] == s[1..] + t;
      FilterAppend(s[1..], t, p);
    }
  }

  /** Two complementary filters split a sequence: their sizes add up to its
      length and their elements, taken together, are exactly its elements. */
  lemma {:induction false} FilterComplement<T(!new)>(s: seq<T>, p: T -> bool, q: T -> bool)
    requires forall x :: q(x) == !p(x)
    ensures |Filter(s, p)| + |Filter(s, q)| == |s|
    ensures multiset(Filter(s, p)) + multiset(Filter(s, q)) == multiset(s)
  {
    if s != [] {
      assert s == [s[0]] + s[1..];
      FilterComplement(s[1..], p, q);
    }
  }

  /** A filter with a weaker predicate keeps at least as many elements. */
  lemma {:induction false} CountMonotone<T(!new)>(s: seq<T>, p: T -> bool, q: T -> bool)
    requires forall x :: p(x) ==> q(x)
    ensures Count(s, p) <= Count(s, q)
  {
    if s != [] {
      CountMonotone(s[1..], p, q);
    }
  }

  /** Counting by a disjunction of two exclusive predicates adds their counts. */
  lemma {:induction false} CountDisjointUnion<T(!new)>(s: seq<T>, p: T -> bool, q: T -> bool, r: T -> bool)
    requires forall x :: r(x) == (p(x) || q(x))
    requires forall x :: !(p(x) && q(x))
    ensures Count(s, r) == Count(s, p) + Count(s, q)
  {
    if s != [] {
      CountDisjointUnion(s[1..], p, q, r);
    }
  }

  /** Filtering twice is filtering once by the conjunction. */
  lemma {:induction false} FilterFilter<T(!new)>(s: seq<T>, p: T -> bool, q: T -> bool, r: T -> bool)
    requires forall x :: r(x) == (p(x) && q(x))
    ensures Filter(Filter(s, p), q) == Filter(s, r)
  {
    if s != [] {
      FilterFilter(s[1..], p, q, r);
    }
  }

  /** Filters whose predicates agree on every element give the same result. */
  lemma {:induction false} FilterCongruent<T(!new)>(s: seq<T>, p: T -> bool, q: T -> bool)
    requires forall x :: x in s ==> p(x) == q(x)
    ensures Filter(s, p) == Filter(s, q)
  {
    if s != [] {
      FilterCongruent(s[1..], p, q);
    }
  }

  /** A predicate that every element satisfies removes nothing. */
  lemma {:induction false} FilterAll<T(!new)>(s: seq<T>, p: T -> bool)
    requires forall x :: x in s ==> p(x)
    ensures Filter(s, p) == s
  {
    if s != [] {
      FilterAll(s[1..], p);
    }
  }

  /** All elements are counted exactly when all of them satisfy `p`. */
  lemma {:induction false} CountFull<T(!new)>(s: seq<T>, p: T -> bool)
    ensures Count(s, p) == |s| <==> forall x :: x in s ==> p(x)
  {
    if s != [] {
      CountFull(s[1..], p);
      assert s == [s[0]] + s[1..];
    }
  }

  /** The sum of a list of counts. */
  function Sum(xs: seq<nat>): nat
  {
    if xs == [] then 0 else Sum(xs[..|xs| - 1]) + xs[|xs| - 1]
  }

  /** The elements whose key is `k`. */
  function KeyIs<T>(key: T -> int, k: int): T -> bool
  {
    x => key(x) == k
  }

  /** The elements whose key lies in `[lo, hi)`. */
  function KeyIn<T>(key: T -> int, lo: int, hi: int): T -> bool
  {
    x => lo <= key(x) < hi
  }

  /** A per-key histogram: entry `i` counts the elements whose key is
      `lo + i`, for `n` consecutive keys. */
  function PerKey<T(!new)>(s: seq<T>, key: T -> int, lo: int, n: nat): (r: seq<nat>)
    ensures |r| == n
  {
    if n == 0 then [] else PerKey(s, key, lo, n - 1) + [Count(s, KeyIs(key, lo + (n - 1)))]
  }

  /** Entry `i` of the histogram counts the elements whose key is `lo + i`. */
  lemma {:induction false} PerKeyAt<T(!new)>(s: seq<T>, key: T -> int, lo: int, n: nat, i: int)
    requires 0 <= i < n
    ensures PerKey(s, key, lo, n)[i] == Count(s, KeyIs(key, lo + i))
  {
    if i < n - 1 {
      PerKeyAt(s, key, lo, n - 1, i);
    }
  }

  /** A histogram over consecutive keys adds up to the number of elements
      whose key falls in its range, so never to more than `|s|`. */
  lemma {:induction false} PerKeySum<T(!new)>(s: seq<T>, key: T -> int, lo: int, n: nat)
    ensures Sum(PerKey(s, key, lo, n)) == Count(s, KeyIn(key, lo, lo + n))
    ensures Sum(PerKey(s, key, lo, n)) <= |s|
  {
    if n == 0 {
      CountZero(s, KeyIn(key, lo, lo));
    } else {
      var m := n - 1;
      PerKeySum(s, key, lo, m);
      var prev := PerKey(s, key, lo, m);
      var below, at, upto := KeyIn(key, lo, lo + m), KeyIs(key, lo + m), KeyIn(key, lo, lo + n);
      assert Sum(prev) == Count(s, below);
      assert PerKey(s, key, lo, n) == prev + [Count(s, at)];
      assert (prev + [Count(s, at)])[..m] == prev;
      assert forall x :: upto(x) == (below(x) || at(x));
      assert forall x :: !(below(x) && at(x));
      CountDisjointUnion(s, below, at, upto);
    }
  }

  /** The elements whose key is one of the `n` consecutive keys from `lo`. */
  function KeyFrom<T>(key: T -> int, lo: int, n: nat): T -> bool
  {
    KeyIn(key, lo, lo + n)
  }

  /** Figures that form such a histogram add up to the same count. */
  lemma HistogramTotal<T(!new)>(c: seq<nat>, s: seq<T>, key: T -> int, lo: int, n: nat)
    requires c == PerKey(s, key, lo, n)
    ensures Sum(c) == Count(s, KeyFrom(key, lo, n))
    ensures Sum(c) <= |s|
  {
    PerKeySum(s, key, lo, n);
  }

  /** `Math.round(100 * part / whole)`, and 0 when `whole` is 0, computed
      exactly: Math.round(x) is floor(x + 1/2). */
  function RoundedPercent(part: nat, whole: nat): (r: nat)
    requires part <= whole
    ensures r <= 100
    ensures whole == 0 ==> r == 0
    ensures whole > 0 ==> 200 * part - whole < 2 * whole * r <= 200 * part + whole
  {
    if whole == 0 then 0
    else
      var r := (200 * part + whole) / (2 * whole);
      assert 2 * whole * r <= 200 * part + whole < 2 * whole * (r + 1);
      assert 2 * whole * r <= 200 * whole + whole < 2 * whole * 101;
      r
  }

  /** `Math.round(10 * total / days)`: an average per day in tenths. */
  function RoundedTenths(total: int, days: nat): (r: int)
    requires days > 0
    ensures 20 * total - days < 2 * days * r <= 20 * total + days
  {
    var r := (20 * total + days) / (2 * days);
    assert 2 * days * r <= 20 * total + days < 2 * days * (r + 1);
    r
  }
}
