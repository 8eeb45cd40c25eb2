/**
 Latency histograms and their percentiles (crates/signal-auras-core/src/stats.rs:177-234, 264-308,
 310-357). The source keeps three copies of this machinery with equal bounds, for callback
 dispatch, motion dispatch and event age; one class stands for the three.
*/
module LatencyHistogram {
  const U64_MAX: nat := 0xffff_ffff_ffff_ffff

  type U64 = n: nat | n <= U64_MAX

  /** The upper bound of each bucket; the last one takes every remaining sample. */
  const BOUNDS: seq<U64> := [1, 2, 5, 10, 20, 50, 100, 250, U64_MAX]

  // ---- what is meant, stated on the samples themselves ----

  predicate InBucket(v: U64, b: nat)
    requires b < |BOUNDS|
  {
    v <= BOUNDS[b] && (b > 0 ==> BOUNDS[b - 1] < v)
  }

  function CountIn(samples: seq<U64>, b: nat): nat
    requires b < |BOUNDS|
  {
    if samples == [] then 0
    else CountIn(samples[..|samples| - 1], b) + if InBucket(samples[|samples| - 1], b) then 1 else 0
  }

  /** How many samples are at most `x`. */
  function CountAtMost(samples: seq<U64>, x: nat): nat {
    if samples == [] then 0
    else CountAtMost(samples[..|samples| - 1], x) + if samples[|samples| - 1] <= x then 1 else 0
  }

  function Sum(samples: seq<U64>): nat {
    if samples == [] then 0 else Sum(samples[..|samples| - 1]) + samples[|samples| - 1]
  }

  function Max(samples: seq<U64>): U64 {
    if samples == [] then 0
    else
      var rest, last := Max(samples[..|samples| - 1]), samples[|samples| - 1];
      if rest >= last then rest else last
  }

  /** The nearest rank: the `p`-th percentile of `n` samples is the sample of this rank. */
  function Rank(n: nat, p: nat): nat {
    (n * p + 99) / 100
  }

  lemma RankInRange(n: nat, p: nat)
    requires n > 0 && 0 < p <= 100
    ensures 1 <= Rank(n, p) <= n
  {
    assert n <= n * p <= n * 100;
  }

  /** The rank is the percentage of the samples, rounded up. */
  lemma RankIsCeiling(n: nat, p: nat)
    ensures 100 * (Rank(n, p) - 1) < n * p <= 100 * Rank(n, p)
  {
  }

  /** `answer` is the least bucket bound that at least `rank` samples do not exceed. */
  ghost predicate LeastCovering(samples: seq<U64>, rank: nat, answer: U64) {
    exists b ::
      && 0 <= b < |BOUNDS| && answer == BOUNDS[b]
      && CountAtMost(samples, answer) >= rank
      && (b > 0 ==> CountAtMost(samples, BOUNDS[b - 1]) < rank)
  }

  // ---- buckets count the samples ----

  /** The samples up to a bound are those up to the bound before it and those in its bucket. */
  lemma {:induction false} BucketStep(samples: seq<U64>, b: nat)
    requires b < |BOUNDS|
    ensures CountAtMost(samples, BOUNDS[b]) ==
      (if b == 0 then 0 else CountAtMost(samples, BOUNDS[b - 1])) + CountIn(samples, b)
  {
    if samples != [] {
      assert b > 0 ==> BOUNDS[b - 1] <= BOUNDS[b];
      BucketStep(samples[..|samples| - 1], b);
    }
  }

  lemma {:induction false} LastBoundTakesAll(samples: seq<U64>)
    ensures CountAtMost(samples, U64_MAX) == |samples|
  {
    if samples != [] {
      LastBoundTakesAll(samples[..|samples| - 1]);
    }
  }

  function Total(samples: seq<U64>, n: nat): nat
    requires n <= |BOUNDS|
  {
    if n == 0 then 0 else Total(samples, n - 1) + CountIn(samples, n - 1)
  }

  lemma {:induction false} FirstBucketsCount(samples: seq<U64>, n: nat)
    requires 0 < n <= |BOUNDS|
    ensures Total(samples, n) == CountAtMost(samples, BOUNDS[n - 1])
  {
    BucketStep(samples, n - 1);
    if n > 1 {
      FirstBucketsCount(samples, n - 1);
    }
  }

  /** The bucket counts add up to the number of samples. */
  lemma BucketsSumToCount(samples: seq<U64>)
    ensures Total(samples, |BOUNDS|) == |samples|
  {
    FirstBucketsCount(samples, |BOUNDS|);
    LastBoundTakesAll(samples);
  }

  // ---- the histogram ----

  class Histogram {
    const buckets: array<nat>
    var count: nat
    var max: U64
    var total: nat
    ghost var samples: seq<U64>

    ghost predicate Valid()
      reads this, buckets
    {
      && buckets.Length == |BOUNDS|
      && count == |samples| && max == Max(samples) && total == Sum(samples)
      && forall b :: 0 <= b < |BOUNDS| ==> buckets[b] == CountIn(samples, b)
    }

    constructor ()
      ensures Valid() && samples == [] && fresh(buckets)
    {
      buckets := new nat[|BOUNDS|](_ => 0);
      count, max, total, samples := 0, 0, 0, [];
    }

    method Record(latency: U64)
      requires Valid()
      modifies this, buckets
      ensures Valid() && samples == old(samples) + [latency]
    {
      count := count + 1;
      max := if max >= latency then max else latency;
      total := total + latency;
      var bucket := 0;
      while latency > BOUNDS[bucket]
        invariant 0 <= bucket < |BOUNDS|
        invariant bucket > 0 ==> BOUNDS[bucket - 1] < latency
        decreases |BOUNDS| - bucket
      {
        bucket := bucket + 1;
      }
      OneBucket(latency, bucket);
      buckets[bucket] := buckets[bucket] + 1;
      samples := samples + [latency];
      assert samples[..|samples| - 1] == old(samples);
    }

    /** The least bucket bound covering the rank; zero without samples. */
    method Percentile(p: nat) returns (answer: U64)
      requires Valid() && 0 < p <= 100
      ensures samples == [] ==> answer == 0
      ensures samples != [] ==> LeastCovering(samples, Rank(|samples|, p), answer)
    {
      if count == 0 {
        return 0;
      }
      RankInRange(count, p);
      var rank := Rank(count, p);
      var seen := 0;
      for bucket := 0 to |BOUNDS|
        invariant seen == if bucket == 0 then 0 else CountAtMost(samples, BOUNDS[bucket - 1])
        invariant seen < rank
      {
        BucketStep(samples, bucket);
        seen := seen + buckets[bucket];
        if seen >= rank {
          return BOUNDS[bucket];
        }
      }
      // The last bound covers every sample, so the source's fallback to the maximum is never reached.
      LastBoundTakesAll(samples);
      assert false;
    }

    method Average() returns (average: nat)
      requires Valid()
      ensures samples == [] ==> average == 0
      ensures average * |samples| <= Sum(samples)
      ensures samples != [] ==> Sum(samples) < (average + 1) * |samples|
      ensures average <= Max(samples)
    {
      hide Sum;
      hide Max;
      SumBelowMax(samples);
      if count == 0 {
        return 0;
      }
      average := total / count;
      Quotient(total, count);
      AverageBelow(average, count, max);
    }
  }

  /** Exactly one bucket takes a sample. */
  lemma OneBucket(v: U64, bucket: nat)
    requires bucket < |BOUNDS| && InBucket(v, bucket)
    ensures forall b :: 0 <= b < |BOUNDS| ==> (InBucket(v, b) <==> b == bucket)
  {
    assert forall i, j :: 0 <= i < j < |BOUNDS| ==> BOUNDS[i] < BOUNDS[j];
  }

  lemma {:induction false} SumBelowMax(samples: seq<U64>)
    ensures Sum(samples) <= |samples| * Max(samples)
  {
    if samples != [] {
      var rest := samples[..|samples| - 1];
      SumBelowMax(rest);
      assert |rest| * Max(rest) <= |rest| * Max(samples) by {
        ProductGrows(|rest|, Max(rest), Max(samples));
      }
      assert |samples| == |rest| + 1;
      OneMore(|rest|, Max(samples));
    }
  }

  lemma OneMore(n: nat, m: nat)
    ensures (n + 1) * m == n * m + m
  {
  }

  lemma ProductGrows(n: nat, a: nat, b: nat)
    requires a <= b
    ensures n * a <= n * b
  {
  }

  lemma Quotient(total: nat, n: nat)
    requires n > 0
    ensures total / n * n <= total < (total / n + 1) * n
  {
    assert total == total / n * n + total % n;
    OneMore(total / n, n);
  }

  lemma AverageBelow(average: nat, n: nat, max: nat)
    requires n > 0 && average * n <= n * max
    ensures average <= max
  {
    if average > max {
      ProductGrows(n, max + 1, average);
    }
  }

  // ---- the answer against the sorted samples ----

  ghost predicate Sorted(s: seq<U64>) {
    forall i, j :: 0 <= i <= j < |s| ==> s[i] <= s[j]
  }

  lemma {:induction false} CountAppend(a: seq<U64>, b: seq<U64>, x: nat)
    ensures CountAtMost(a + b, x) == CountAtMost(a, x) + CountAtMost(b, x)
  {
    if b == [] {
      assert a + b == a;
    } else {
      assert (a + b)[..|a + b| - 1] == a + b[..|b| - 1];
      CountAppend(a, b[..|b| - 1], x);
    }
  }

  lemma CountOne(v: U64, x: nat)
    ensures CountAtMost([v], x) == if v <= x then 1 else 0
  {
    assert [v][..0] == [];
  }

  lemma RemoveOne(b: seq<U64>, i: nat)
    requires i < |b|
    ensures multiset(b) == multiset(b[..i] + b[i + 1..]) + multiset{b[i]}
  {
    assert b == b[..i] + [b[i]] + b[i + 1..];
  }

  lemma SameWithout(a: multiset<U64>, b: multiset<U64>, v: U64)
    requires a + multiset{v} == b + multiset{v}
    ensures a == b
  {
    assert a == a + multiset{v} - multiset{v};
    assert b == b + multiset{v} - multiset{v};
  }

  /** Counting does not depend on the order of the samples. */
  lemma {:induction false} CountPermutation(a: seq<U64>, b: seq<U64>, x: nat)
    requires multiset(a) == multiset(b)
    ensures CountAtMost(a, x) == CountAtMost(b, x)
  {
    if a == [] {
      assert |multiset(b)| == 0;
    } else {
      var last, init := a[|a| - 1], a[..|a| - 1];
      assert last in multiset(a);
      var i :| 0 <= i < |b| && b[i] == last;
      var rest := b[..i] + b[i + 1..];
      assert a == init + [last];
      RemoveOne(b, i);
      SameWithout(multiset(init), multiset(rest), last);
      CountPermutation(init, rest, x);
      assert b == b[..i] + ([last] + b[i + 1..]);
      CountAppend(b[..i], [last] + b[i + 1..], x);
      CountAppend([last], b[i + 1..], x);
      CountAppend(b[..i], b[i + 1..], x);
      CountOne(last, x);
    }
  }

  /** In sorted order, at least `rank` samples are at most `x` exactly when the one of that rank is. */
  lemma {:induction false} SortedCount(s: seq<U64>, rank: nat, x: nat)
    requires Sorted(s) && 1 <= rank <= |s|
    ensures CountAtMost(s, x) >= rank <==> s[rank - 1] <= x
  {
    var below, above := s[..rank], s[rank..];
    assert s == below + above;
    CountAppend(below, above, x);
    if s[rank - 1] <= x {
      AllCounted(below, x);
    } else {
      NoneCounted(s[rank - 1..], x);
      CountAppend(s[..rank - 1], s[rank - 1..], x);
      assert s == s[..rank - 1] + s[rank - 1..];
      CountBounded(s[..rank - 1], x);
    }
  }

  lemma {:induction false} AllCounted(s: seq<U64>, x: nat)
    requires forall i :: 0 <= i < |s| ==> s[i] <= x
    ensures CountAtMost(s, x) == |s|
  {
    if s != [] {
      AllCounted(s[..|s| - 1], x);
    }
  }

  lemma {:induction false} NoneCounted(s: seq<U64>, x: nat)
    requires forall i :: 0 <= i < |s| ==> s[i] > x
    ensures CountAtMost(s, x) == 0
  {
    if s != [] {
      NoneCounted(s[..|s| - 1], x);
    }
  }

  lemma {:induction false} CountBounded(s: seq<U64>, x: nat)
    ensures CountAtMost(s, x) <= |s|
  {
    if s != [] {
      CountBounded(s[..|s| - 1], x);
    }
  }

  /**
   The answer brackets the true nearest-rank sample: whatever the order in which the samples came,
   that sample is at most the answer and above the bound before it.
  */
  lemma AnswerBracketsSample(samples: seq<U64>, sorted: seq<U64>, p: nat, answer: U64)
    requires samples != [] && 0 < p <= 100 && LeastCovering(samples, Rank(|samples|, p), answer)
    requires Sorted(sorted) && multiset(sorted) == multiset(samples)
    ensures var rank := Rank(|samples|, p);
      && 1 <= rank <= |sorted| && sorted[rank - 1] <= answer
      && forall b :: 0 <= b < |BOUNDS| && BOUNDS[b] < answer ==> BOUNDS[b] < sorted[rank - 1]
  {
    hide CountAtMost;
    hide Sorted;
    var rank := Rank(|samples|, p);
    RankInRange(|samples|, p);
    assert |sorted| == |multiset(sorted)| == |multiset(samples)| == |samples|;
    var b :| 0 <= b < |BOUNDS| && answer == BOUNDS[b] && CountAtMost(samples, answer) >= rank
             && (b > 0 ==> CountAtMost(samples, BOUNDS[b - 1]) < rank);
    CoveredIff(samples, sorted, rank, answer);
    forall i | 0 <= i < |BOUNDS| && BOUNDS[i] < answer ensures BOUNDS[i] < sorted[rank - 1] {
      BoundBefore(b, BOUNDS[i]);
      CoveredIff(samples, sorted, rank, BOUNDS[b - 1]);
    }
  }

  lemma CoveredIff(samples: seq<U64>, sorted: seq<U64>, rank: nat, x: nat)
    requires Sorted(sorted) && multiset(sorted) == multiset(samples) && 1 <= rank <= |sorted|
    ensures CountAtMost(samples, x) >= rank <==> sorted[rank - 1] <= x
  {
    CountPermutation(sorted, samples, x);
    SortedCount(sorted, rank, x);
  }

  lemma {:induction false} CountMonotone(samples: seq<U64>, x: nat, y: nat)
    requires x <= y
    ensures CountAtMost(samples, x) <= CountAtMost(samples, y)
  {
    if samples != [] {
      CountMonotone(samples[..|samples| - 1], x, y);
    }
  }

  /** A higher percentile never gives a lower answer; in particular p95 is at most p99. */
  lemma PercentilesOrdered(samples: seq<U64>, p: nat, q: nat, low: U64, high: U64)
    requires samples != [] && 0 < p <= q <= 100
    requires LeastCovering(samples, Rank(|samples|, p), low)
    requires LeastCovering(samples, Rank(|samples|, q), high)
    ensures low <= high
  {
    var n := |samples|;
    assert Rank(n, p) <= Rank(n, q) by {
      ProductGrows(n, p, q);
    }
    if high < low {
      var b :| 0 <= b < |BOUNDS| && low == BOUNDS[b] && CountAtMost(samples, low) >= Rank(n, p)
               && (b > 0 ==> CountAtMost(samples, BOUNDS[b - 1]) < Rank(n, p));
      BoundBefore(b, high);
      CountMonotone(samples, high, BOUNDS[b - 1]);
    }
  }

  lemma BoundBefore(b: nat, bound: U64)
    requires b < |BOUNDS| && bound in BOUNDS && bound < BOUNDS[b]
    ensures b > 0 && bound <= BOUNDS[b - 1]
  {
    var i :| 0 <= i < |BOUNDS| && BOUNDS[i] == bound;
    assert forall i, j :: 0 <= i <= j < |BOUNDS| ==> BOUNDS[i] <= BOUNDS[j];
    assert i < b;
  }

  /** Some bound that the maximum reaches already covers the rank. */
  ghost predicate CoveredWithinMax(samples: seq<U64>, rank: nat) {
    exists bound: U64 :: bound in BOUNDS && bound <= Max(samples) && CountAtMost(samples, bound) >= rank
  }

  /**
   The answer is a bound, not a sample. It stays within the recorded maximum if and only if some
   bound within the maximum covers the rank.
  */
  lemma {:induction false} AnswerWithinMaxIff(samples: seq<U64>, rank: nat, answer: U64)
    requires LeastCovering(samples, rank, answer)
    ensures answer <= Max(samples) <==> CoveredWithinMax(samples, rank)
  {
    hide CountAtMost;
    hide Max;
    var b :| 0 <= b < |BOUNDS| && answer == BOUNDS[b] && CountAtMost(samples, answer) >= rank
             && (b > 0 ==> CountAtMost(samples, BOUNDS[b - 1]) < rank);
    assert answer in BOUNDS;
    if bound: U64 :| bound in BOUNDS && bound <= Max(samples) && CountAtMost(samples, bound) >= rank && bound < answer {
      BoundBefore(b, bound);
      CountMonotone(samples, bound, BOUNDS[b - 1]);
    }
  }

  lemma {:induction false} MaxIsLast(samples: seq<U64>, sorted: seq<U64>)
    requires samples != [] && Sorted(sorted) && multiset(sorted) == multiset(samples)
    ensures sorted != [] && sorted[|sorted| - 1] == Max(samples)
  {
    MaxMeaning(samples);
    assert samples[0] in multiset(sorted);
    var last := sorted[|sorted| - 1];
    assert last in multiset(samples);
    assert last in samples;
    assert Max(samples) in multiset(samples);
    assert Max(samples) in multiset(sorted);
    var i :| 0 <= i < |sorted| && sorted[i] == Max(samples);
  }

  lemma {:induction false} MaxMeaning(samples: seq<U64>)
    requires samples != []
    ensures Max(samples) in samples && forall v :: v in samples ==> v <= Max(samples)
  {
    var rest, last := samples[..|samples| - 1], samples[|samples| - 1];
    assert forall v :: v in samples <==> v in rest || v == last by {
      assert samples == rest + [last];
    }
    if rest != [] {
      MaxMeaning(rest);
    }
  }

  /**
   The same on the sorted samples: the answer exceeds every sample if and only if no bound lies
   between the sample of the nearest rank and the greatest sample.
  */
  lemma {:induction false} AnswerWithinMaxIffBoundBetween(samples: seq<U64>, sorted: seq<U64>, p: nat, answer: U64)
    requires samples != [] && 0 < p <= 100 && LeastCovering(samples, Rank(|samples|, p), answer)
    requires Sorted(sorted) && multiset(sorted) == multiset(samples)
    ensures var rank := Rank(|samples|, p);
      && 1 <= rank <= |sorted|
      && (answer <= sorted[|sorted| - 1] <==>
            exists bound: U64 :: bound in BOUNDS && sorted[rank - 1] <= bound <= sorted[|sorted| - 1])
  {
    hide CountAtMost;
    hide Sorted;
    hide Max;
    hide LeastCovering;
    var rank := Rank(|samples|, p);
    RankInRange(|samples|, p);
    assert |sorted| == |multiset(sorted)| == |multiset(samples)| == |samples|;
    MaxIsLast(samples, sorted);
    AnswerWithinMaxIff(samples, rank, answer);
    forall bound: U64 ensures CountAtMost(samples, bound) >= rank <==> sorted[rank - 1] <= bound {
      CoveredIff(samples, sorted, rank, bound);
    }
  }

  /** Two witnesses: the answer for a single sample above its bucket's lower bound. */
  lemma AnswerMayExceedMax()
    ensures LeastCovering([3], Rank(1, 95), 5) && Max([3]) == 3
    ensures LeastCovering([251], Rank(1, 95), U64_MAX) && Max([251]) == 251
  {
    CountOne(3, 5);
    CountOne(3, 2);
    CountOne(251, U64_MAX);
    CountOne(251, 250);
    assert BOUNDS[2] == 5 && BOUNDS[1] == 2 && BOUNDS[8] == U64_MAX && BOUNDS[7] == 250;
    assert [3][..0] == [] && [251][..0] == [];
    assert Max([]) == 0;
  }
}
