/** The linear histogram of src/hdr_histogram.hpp: ten units a bucket, percentiles by scanning
    the buckets, the mean from bucket midpoints.  `double` is an exact real. */
module HdrHistogram {
  import opened Words

  function BucketCount(maxValue: Word): (n: nat)
    ensures 1000 <= n <= 100000
    ensures 10000 <= maxValue < 1000000 ==> 10 * n <= maxValue < 10 * n + 10
    ensures maxValue <= 10000 ==> n == 1000
    ensures maxValue >= 1000000 ==> n == 100000
  {
    var buckets := if maxValue / 10 < 100000 then maxValue / 10 else 100000;
    if buckets < 1000 then 1000 else buckets
  }

  function Index(v: Word, size: nat): (i: nat)
    requires size > 0
    ensures i < size
  {
    if v / 10 < size then v / 10 else size - 1
  }

  function Midpoint(i: nat): nat { i * 10 + 5 }

  /** The sample lies in the range the buckets cover, its end included. */
  predicate Covered(v: Word, size: nat) { v <= 10 * size }

  /** A sample is within 5 of its bucket's midpoint exactly if it is covered. */
  lemma MidpointIsNearIff(v: Word, size: nat)
    requires size > 0
    ensures -5 <= Midpoint(Index(v, size)) - v <= 5 <==> Covered(v, size)
  {
  }

  // ----- bucket counts -----

  function Bump(c: seq<nat>, i: nat): (r: seq<nat>)
    requires i < |c|
    ensures |r| == |c|
  {
    c[i := c[i] + 1]
  }

  /** The bucket counts of a list of samples. */
  function Counts(samples: seq<Word>, size: nat): (c: seq<nat>)
    requires size > 0
    ensures |c| == size
  {
    if samples == [] then seq(size, i => 0)
    else Bump(Counts(samples[..|samples| - 1], size), Index(samples[|samples| - 1], size))
  }

  function Total(c: seq<nat>, k: nat): nat
    requires k <= |c|
  {
    if k == 0 then 0 else Total(c, k - 1) + c[k - 1]
  }

  /** How many samples fall in buckets before k. */
  function Below(samples: seq<Word>, size: nat, k: nat): nat
    requires size > 0
  {
    if samples == [] then 0
    else Below(samples[..|samples| - 1], size, k) + if Index(samples[|samples| - 1], size) < k then 1 else 0
  }

  lemma {:induction false} TotalOfZeros(size: nat, k: nat)
    requires k <= size
    ensures Total(seq(size, i => 0), k) == 0
  {
    if k > 0 { TotalOfZeros(size, k - 1); }
  }

  lemma {:induction false} TotalOfBump(c: seq<nat>, i: nat, k: nat)
    requires i < |c| && k <= |c|
    ensures Total(Bump(c, i), k) == Total(c, k) + if i < k then 1 else 0
  {
    if k > 0 { TotalOfBump(c, i, k - 1); }
  }

  /** Accumulating the first k buckets counts the samples below bucket k. */
  lemma {:induction false} TotalIsBelow(samples: seq<Word>, size: nat, k: nat)
    requires k <= size && size > 0
    ensures Total(Counts(samples, size), k) == Below(samples, size, k)
  {
    if samples == [] {
      TotalOfZeros(size, k);
    } else {
      var before := samples[..|samples| - 1];
      TotalIsBelow(before, size, k);
      TotalOfBump(Counts(before, size), Index(samples[|samples| - 1], size), k);
    }
  }

  lemma {:induction false} BelowAll(samples: seq<Word>, size: nat)
    requires size > 0
    ensures Below(samples, size, size) == |samples|
  {
    if samples != [] { BelowAll(samples[..|samples| - 1], size); }
  }

  /** The bucket counts sum to the number of samples. */
  lemma CountsSumToAll(samples: seq<Word>, size: nat)
    requires size > 0
    ensures Total(Counts(samples, size), size) == |samples|
  {
    TotalIsBelow(samples, size, size);
    BelowAll(samples, size);
  }

  // ----- order statistics -----

  function Inserted(s: seq<Word>, v: Word): seq<Word> {
    if s == [] || s[|s| - 1] <= v then s + [v] else Inserted(s[..|s| - 1], v) + [s[|s| - 1]]
  }

  function Sorted(samples: seq<Word>): (r: seq<Word>)
    ensures |r| == |samples|
  {
    if samples == [] then [] else
      var rest := Sorted(samples[..|samples| - 1]);
      InsertedLength(rest, samples[|samples| - 1]);
      Inserted(rest, samples[|samples| - 1])
  }

  lemma {:induction false} InsertedLength(s: seq<Word>, v: Word)
    ensures |Inserted(s, v)| == |s| + 1
  {
    if s != [] { InsertedLength(s[..|s| - 1], v); }
  }

  predicate Ascending(s: seq<Word>) {
    forall i, j :: 0 <= i <= j < |s| ==> s[i] <= s[j]
  }

  lemma {:induction false} InsertedHolds(s: seq<Word>, v: Word)
    ensures multiset(Inserted(s, v)) == multiset(s) + multiset{v}
  {
    if s != [] && s[|s| - 1] > v {
      var n := |s| - 1;
      InsertedHolds(s[..n], v);
      assert s == s[..n] + [s[n]];
    }
  }

  lemma AppendAscends(s: seq<Word>, last: Word)
    requires Ascending(s) && forall v :: v in s ==> v <= last
    ensures Ascending(s + [last])
  {
    forall i, j | 0 <= i <= j < |s| + 1
      ensures (s + [last])[i] <= (s + [last])[j]
    {
      if i < |s| { assert s[i] in s; }
    }
  }

  lemma {:induction false} InsertedAscends(s: seq<Word>, v: Word)
    requires Ascending(s)
    ensures Ascending(Inserted(s, v))
  {
    if s == [] || s[|s| - 1] <= v {
      AppendAscends(s, v);
    } else {
      var n := |s| - 1;
      var rest := Inserted(s[..n], v);
      InsertedAscends(s[..n], v);
      forall w | w in rest
        ensures w <= s[n]
      {
        InsertedHolds(s[..n], v);
        assert w in multiset(rest);
        assert w == v || w in s[..n];
      }
      AppendAscends(rest, s[n]);
    }
  }

  /** The samples in ascending order: so Sorted(samples)[t - 1] is the t-th smallest. */
  lemma {:induction false} SortedMeaning(samples: seq<Word>)
    ensures Ascending(Sorted(samples)) && multiset(Sorted(samples)) == multiset(samples)
  {
    if samples != [] {
      var n := |samples| - 1;
      SortedMeaning(samples[..n]);
      InsertedAscends(Sorted(samples[..n]), samples[n]);
      InsertedHolds(Sorted(samples[..n]), samples[n]);
      assert samples == samples[..n] + [samples[n]];
    }
  }

  lemma {:induction false} BelowInserted(s: seq<Word>, v: Word, size: nat, k: nat)
    requires size > 0
    ensures Below(Inserted(s, v), size, k) == Below(s, size, k) + if Index(v, size) < k then 1 else 0
  {
    if s == [] || s[|s| - 1] <= v {
      assert (s + [v])[..|s|] == s;
    } else {
      var rest := Inserted(s[..|s| - 1], v);
      BelowInserted(s[..|s| - 1], v, size, k);
      assert (rest + [s[|s| - 1]])[..|rest|] == rest;
    }
  }

  lemma {:induction false} BelowSorted(samples: seq<Word>, size: nat, k: nat)
    requires size > 0
    ensures Below(Sorted(samples), size, k) == Below(samples, size, k)
  {
    if samples != [] {
      BelowSorted(samples[..|samples| - 1], size, k);
      BelowInserted(Sorted(samples[..|samples| - 1]), samples[|samples| - 1], size, k);
    }
  }

  /** In an ascending list the samples below bucket k come first. */
  lemma {:induction false} BelowAscending(s: seq<Word>, size: nat, k: nat, t: nat)
    requires size > 0 && Ascending(s) && t < |s|
    ensures Index(s[t], size) < k <==> t < Below(s, size, k)
    decreases |s|
  {
    var n := |s| - 1;
    if t < n {
      BelowAscending(s[..n], size, k, t);
    }
    if Index(s[n], size) < k {
      AllBelow(s, size, k);
    } else if n > 0 && t == n {
      BelowAtMost(s[..n], size, k);
    }
  }

  lemma {:induction false} AllBelow(s: seq<Word>, size: nat, k: nat)
    requires size > 0 && Ascending(s) && (s != [] ==> Index(s[|s| - 1], size) < k)
    ensures Below(s, size, k) == |s|
  {
    if s != [] { AllBelow(s[..|s| - 1], size, k); }
  }

  lemma {:induction false} BelowAtMost(s: seq<Word>, size: nat, k: nat)
    requires size > 0
    ensures Below(s, size, k) <= |s|
  {
    if s != [] { BelowAtMost(s[..|s| - 1], size, k); }
  }

  lemma TotalIsBelowSorted(samples: seq<Word>, size: nat, k: nat)
    requires k <= size && size > 0
    ensures Total(Counts(samples, size), k) == Below(Sorted(samples), size, k)
  {
    TotalIsBelow(samples, size, k);
    BelowSorted(samples, size, k);
  }

  /** The bucket at which the accumulated count reaches t holds the t-th smallest sample. */
  lemma RankFound(samples: seq<Word>, size: nat, t: nat, i: nat)
    requires i < size && 1 <= t <= |samples|
    requires Total(Counts(samples, size), i) < t <= Total(Counts(samples, size), i + 1)
    ensures Index(Sorted(samples)[t - 1], size) == i
  {
    TotalIsBelowSorted(samples, size, i);
    TotalIsBelowSorted(samples, size, i + 1);
    assert Ascending(Sorted(samples)) by { SortedMeaning(samples); }
    RankInAscending(Sorted(samples), size, t, i);
  }

  lemma RankInAscending(s: seq<Word>, size: nat, t: nat, i: nat)
    requires size > 0 && Ascending(s) && 1 <= t <= |s| && Below(s, size, i) < t <= Below(s, size, i + 1)
    ensures Index(s[t - 1], size) == i
  {
    BelowAscending(s, size, i, t - 1);
    BelowAscending(s, size, i + 1, t - 1);
  }

  // ----- percentiles -----

  function Rank(p: real, n: nat): int { (p / 100.0 * n as real + 0.5).Floor }

  /** The midpoint of the bucket of the t-th smallest sample; bucket 0 for rank 0. */
  function AtRank(samples: seq<Word>, size: nat, t: nat): nat
    requires size > 0 && t <= |samples|
  {
    if t == 0 then 5 else Midpoint(Index(Sorted(samples)[t - 1], size))
  }

  /** What a query strictly between 0 and 100 answers. */
  function Percentile(samples: seq<Word>, size: nat, p: real): nat
    requires size > 0 && 0.0 < p < 100.0
  {
    RankInRange(p, |samples|);
    AtRank(samples, size, Rank(p, |samples|))
  }

  lemma RankInRange(p: real, n: nat)
    requires 0.0 < p < 100.0
    ensures 0 <= Rank(p, n) <= n
  {
    var share, x := p / 100.0, n as real;
    assert 0.0 <= share * x <= x;
  }

  lemma RankMonotone(p: real, q: real, n: nat)
    requires p <= q
    ensures Rank(p, n) <= Rank(q, n)
  {
    var x := n as real;
    assert p / 100.0 <= q / 100.0;
    assert p / 100.0 * x <= q / 100.0 * x;
  }

  lemma IndexMonotone(v: Word, w: Word, size: nat)
    requires size > 0 && v <= w
    ensures Midpoint(Index(v, size)) <= Midpoint(Index(w, size))
  {
  }

  /** Percentiles grow with p. */
  lemma PercentileMonotone(samples: seq<Word>, size: nat, p: real, q: real)
    requires size > 0 && 0.0 < p <= q < 100.0
    ensures Percentile(samples, size, p) <= Percentile(samples, size, q)
  {
    var s, n := Sorted(samples), |samples|;
    RankInRange(p, n);
    RankInRange(q, n);
    RankMonotone(p, q, n);
    SortedMeaning(samples);
    if Rank(p, n) > 0 {
      assert s[Rank(p, n) - 1] <= s[Rank(q, n) - 1];
      IndexMonotone(s[Rank(p, n) - 1], s[Rank(q, n) - 1], size);
    }
  }

  /** With a rank of at least 1 the answer is within 5 of the sample of that rank exactly if
      that sample is covered. */
  lemma PercentileIsNearIff(samples: seq<Word>, size: nat, p: real)
    requires size > 0 && 0.0 < p < 100.0
    ensures 0 <= Rank(p, |samples|) <= |samples|
    ensures Rank(p, |samples|) >= 1 ==>
              var v := Sorted(samples)[Rank(p, |samples|) - 1];
              -5 <= Percentile(samples, size, p) - v <= 5 <==> Covered(v, size)
  {
    RankInRange(p, |samples|);
    if Rank(p, |samples|) >= 1 {
      MidpointIsNearIff(Sorted(samples)[Rank(p, |samples|) - 1], size);
    }
  }

  /** Rank 0 is possible: below half a sample's share the answer is 5, however large every
      sample is. */
  lemma RankZero(samples: seq<Word>, size: nat, p: real)
    requires size > 0 && 0.0 < p < 100.0
    ensures Rank(p, |samples|) == 0 <==> p * |samples| as real < 50.0
    ensures p * |samples| as real < 50.0 ==> Percentile(samples, size, p) == 5
  {
    RankInRange(p, |samples|);
    var x := |samples| as real;
    assert p / 100.0 * x == p * x / 100.0;
  }

  /** One sample of 1000, and a tenth percentile 995 below it. */
  lemma RankZeroMisses()
    ensures Percentile([1000], 1000, 10.0) == 5 && Sorted([1000]) == [1000]
  {
    RankZero([1000], 1000, 10.0);
    assert [1000][..0] == [];
  }

  /** The scan stops at the first bucket where the accumulated count reaches the rank. */
  lemma StopsAtRank(samples: seq<Word>, size: nat, t: nat, i: nat)
    requires i < size && t <= |samples| && (i == 0 || Total(Counts(samples, size), i) < t)
    requires t <= Total(Counts(samples, size), i + 1)
    ensures Midpoint(i) == AtRank(samples, size, t)
  {
    if t > 0 { RankFound(samples, size, t, i); }
  }

  // ----- mean -----

  function WeightedTotal(c: seq<nat>, k: nat): nat
    requires k <= |c|
  {
    if k == 0 then 0 else WeightedTotal(c, k - 1) + Midpoint(k - 1) * c[k - 1]
  }

  function MidpointSum(samples: seq<Word>, size: nat): nat
    requires size > 0
  {
    if samples == [] then 0
    else MidpointSum(samples[..|samples| - 1], size) + Midpoint(Index(samples[|samples| - 1], size))
  }

  lemma {:induction false} WeightedZeros(size: nat, k: nat)
    requires k <= size
    ensures WeightedTotal(seq(size, i => 0), k) == 0
  {
    if k > 0 { WeightedZeros(size, k - 1); }
  }

  lemma {:induction false} WeightedBump(c: seq<nat>, i: nat, k: nat)
    requires i < |c| && k <= |c|
    ensures WeightedTotal(Bump(c, i), k) == WeightedTotal(c, k) + if i < k then Midpoint(i) else 0
  {
    if k > 0 {
      WeightedBump(c, i, k - 1);
      assert Midpoint(i) * (c[i] + 1) == Midpoint(i) * c[i] + Midpoint(i);
    }
  }

  lemma {:induction false} WeightedIsMidpointSum(samples: seq<Word>, size: nat)
    requires size > 0
    ensures WeightedTotal(Counts(samples, size), size) == MidpointSum(samples, size)
  {
    if samples == [] {
      WeightedZeros(size, size);
    } else {
      var before := samples[..|samples| - 1];
      WeightedIsMidpointSum(before, size);
      WeightedBump(Counts(before, size), Index(samples[|samples| - 1], size), size);
    }
  }

  lemma {:induction false} MidpointSumIsNear(samples: seq<Word>, size: nat)
    requires size > 0 && forall v :: v in samples ==> Covered(v, size)
    ensures -5 * |samples| <= MidpointSum(samples, size) - Sum(samples) <= 5 * |samples|
  {
    if samples != [] {
      MidpointSumIsNear(samples[..|samples| - 1], size);
      MidpointIsNearIff(samples[|samples| - 1], size);
    }
  }

  function Wrapped(x: nat): (r: Word)
    ensures r == x <==> x < WORD
  {
    x % WORD
  }

  /** The mean of the midpoints, their sum taken modulo 2^64 as the source takes it. */
  function Mean(samples: seq<Word>, size: nat): real
    requires size > 0
  {
    if samples == [] then 0.0 else Wrapped(MidpointSum(samples, size)) as real / |samples| as real
  }

  /** The mean is that of the midpoints exactly if their sum fits 64 bits. */
  lemma MeanIsExactIff(samples: seq<Word>, size: nat)
    requires size > 0 && samples != []
    ensures Mean(samples, size) == MidpointSum(samples, size) as real / |samples| as real <==> MidpointSum(samples, size) < WORD
  {
    QuotientsEqual(Wrapped(MidpointSum(samples, size)) as real, MidpointSum(samples, size) as real, |samples| as real);
  }

  lemma QuotientsEqual(x: real, y: real, n: real)
    requires n > 0.0
    ensures x / n == y / n <==> x == y
  {
    var a, b := x / n, y / n;
    assert a * n == x;
    assert b * n == y;
  }

  /** It does below 2^64 / (10 * size) samples. */
  lemma {:induction false} MidpointSumFits(samples: seq<Word>, size: nat)
    requires size > 0
    ensures MidpointSum(samples, size) <= 10 * size * |samples|
  {
    if samples != [] {
      MidpointSumFits(samples[..|samples| - 1], size);
      var n := |samples| - 1;
      assert 10 * size * (n + 1) == 10 * size * n + 10 * size;
    }
  }

  /** A mean whose sum fits is within 5 of the true mean of covered samples. */
  lemma MeanIsNear(samples: seq<Word>, size: nat)
    requires size > 0 && samples != [] && MidpointSum(samples, size) < WORD
    requires forall v :: v in samples ==> Covered(v, size)
    ensures -5.0 <= Mean(samples, size) - Sum(samples) as real / |samples| as real <= 5.0
  {
    MidpointSumIsNear(samples, size);
    var m, s, n := MidpointSum(samples, size), Sum(samples), |samples|;
    assert Wrapped(m) == m;
    QuotientsNear(m, s, n);
  }

  lemma Distribute(a: real, b: real, n: real)
    ensures (a - b - 5.0) * n == a * n - b * n - 5.0 * n
  {
  }

  lemma PositiveTimes(d: real, n: real)
    requires n > 0.0
    ensures d > 0.0 ==> d * n > 0.0
  {
  }

  lemma QuotientAtMost(x: real, y: real, n: real)
    requires n > 0.0 && x <= y + 5.0 * n
    ensures x / n <= y / n + 5.0
  {
    var a, b := x / n, y / n;
    assert a * n == x;
    assert b * n == y;
    Distribute(a, b, n);
    PositiveTimes(a - b - 5.0, n);
  }

  /** Reducing on the way is reducing at the end. */
  lemma WrapsOnce(x: nat, y: nat)
    ensures Wrapped(Wrapped(x) + y) == Wrapped(x + y)
  {
    var q := (x % WORD + y) / WORD;
    assert x == WORD * (x / WORD) + x % WORD;
    assert x % WORD + y == WORD * q + (x % WORD + y) % WORD;
    assert x + y == WORD * (x / WORD + q) + (x % WORD + y) % WORD;
    RemainderUnique(x + y, x / WORD + q, (x % WORD + y) % WORD, WORD);
  }

  lemma QuotientsNear(m: nat, s: nat, n: nat)
    requires n > 0 && -5 * n <= m - s <= 5 * n
    ensures -5.0 <= m as real / n as real - s as real / n as real <= 5.0
  {
    QuotientAtMost(m as real, s as real, n as real);
    QuotientAtMost(s as real, m as real, n as real);
  }

  // ----- extremes -----

  /** lo and hi are the minimum and maximum, with the initial values for no samples. */
  predicate Extremes(samples: seq<Word>, lo: Word, hi: Word) {
    && (forall v :: v in samples ==> lo <= v <= hi)
    && (samples != [] ==> lo in samples && hi in samples)
    && (samples == [] ==> lo == UINT64_MAX && hi == 0)
  }

  lemma ExtremesGrow(samples: seq<Word>, lo: Word, hi: Word, v: Word)
    requires Extremes(samples, lo, hi)
    ensures Extremes(samples + [v], if v < lo then v else lo, if v > hi then v else hi)
  {
    var more := samples + [v];
    assert more[|samples|] == v;
    assert forall w :: w in samples ==> w in more;
    assert samples == [] ==> v <= lo && v >= hi;
  }

  // ----- the histogram itself -----

  /** `samples` are the values recorded, after clamping. */
  class HDRHistogram {
    const maxValue: Word
    const counts: array<nat>
    var totalCount: nat
    var minValue: Word
    var maxRecorded: Word
    ghost var samples: seq<Word>

    ghost predicate Valid()
      reads this, counts
    {
      && counts.Length > 0 && counts[..] == Counts(samples, counts.Length) && totalCount == |samples|
      && Extremes(samples, minValue, maxRecorded)
    }

    constructor (maxValue: Word)
      ensures Valid() && fresh(counts) && samples == [] && this.maxValue == maxValue
      ensures counts.Length == BucketCount(maxValue)
    {
      this.maxValue := maxValue;
      counts := new nat[BucketCount(maxValue)](i => 0);
      totalCount, minValue, maxRecorded, samples := 0, UINT64_MAX, 0, [];
    }

    method Record(v: Word)
      requires Valid()
      modifies this, counts
      ensures Valid() && samples == old(samples) + [if v > maxValue then maxValue else v]
    {
      var value := if v > maxValue then maxValue else v;
      var index := Index(value, counts.Length);
      ghost var before := samples;
      ExtremesGrow(samples, minValue, maxRecorded, value);
      samples := samples + [value];
      assert samples[..|before|] == before;
      counts[index] := counts[index] + 1;
      totalCount := totalCount + 1;
      if value < minValue { minValue := value; }
      if value > maxRecorded { maxRecorded := value; }
    }

    method GetPercentile(p: real) returns (r: nat)
      requires Valid()
      ensures samples == [] ==> r == 0
      ensures samples != [] && p >= 100.0 ==> r in samples && forall v :: v in samples ==> v <= r
      ensures samples != [] && p <= 0.0 ==> r in samples && forall v :: v in samples ==> r <= v
      ensures samples != [] && 0.0 < p < 100.0 ==> r == Percentile(samples, counts.Length, p)
    {
      if totalCount == 0 { return 0; }
      if p >= 100.0 { return maxRecorded; }
      if p <= 0.0 { return minValue; }
      RankInRange(p, |samples|);
      CountsSumToAll(samples, counts.Length);
      var target := Rank(p, totalCount);
      var accumulated, i, found := 0, 0, false;
      r := maxRecorded;
      while i < counts.Length && !found
        invariant 0 <= i <= counts.Length && accumulated == Total(counts[..], i)
        invariant !found ==> i == 0 || accumulated < target
        invariant found ==> r == Percentile(samples, counts.Length, p)
      {
        accumulated := accumulated + counts[i];
        if accumulated >= target {
          r, found := Midpoint(i), true;
          StopsAtRank(samples, counts.Length, target, i);
        }
        i := i + 1;
      }
    }

    method GetMin() returns (r: Word)
      requires Valid()
      ensures samples == [] ==> r == 0
      ensures samples != [] && (forall v :: v in samples ==> v == UINT64_MAX) ==> r == 0
      ensures samples != [] && (exists v :: v in samples && v != UINT64_MAX) ==>
                r in samples && forall v :: v in samples ==> r <= v
    {
      r := if minValue == UINT64_MAX then 0 else minValue;
    }

    method GetMean() returns (r: real)
      requires Valid()
      ensures r == Mean(samples, counts.Length)
    {
      if totalCount == 0 { return 0.0; }
      var sum := 0;
      for i := 0 to counts.Length
        invariant sum == Wrapped(WeightedTotal(counts[..], i))
      {
        WrapsOnce(WeightedTotal(counts[..], i), Midpoint(i) * counts[i]);
        if counts[i] > 0 { sum := Wrapped(sum + Midpoint(i) * counts[i]); }
      }
      WeightedIsMidpointSum(samples, counts.Length);
      r := sum as real / totalCount as real;
    }

    method Reset()
      requires Valid()
      modifies this, counts
      ensures Valid() && samples == []
    {
      for i := 0 to counts.Length
        modifies counts
        invariant forall j :: 0 <= j < i ==> counts[j] == 0
      {
        counts[i] := 0;
      }
      totalCount, minValue, maxRecorded, samples := 0, UINT64_MAX, 0, [];
    }
  }
}
