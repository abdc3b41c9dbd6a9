/** Summary statistics of a depth histogram: mean, fraction covered,
    percentile and trimmed mean.

    Each statistic is given twice: a specification function that says what
    the number means in terms of the bases the histogram counts (ordered by
    depth, base number `r` has depth `RankDepth(h, r)`), and a method that
    performs the accumulator loop over the map entries and is proved to
    return the specified value.  A floating-point NaN (0/0, or the explicit
    `quiet_NaN`) is `None`. */
module HistStats {
  import opened Wrappers
  import opened Histograms

  // ---------------------------------------------------------------------
  // Bases of a histogram in depth order

  /** Number of bases in the buckets before bucket `i`. */
  function Cum(h: Hist, i: nat): nat
    requires i <= |h|
  {
    Total(h[..i])
  }

  lemma CumStep(h: Hist, i: nat)
    requires i < |h|
    ensures Cum(h, i + 1) == Cum(h, i) + h[i].count
  {
    assert h[..i + 1] == h[..i] + [h[i]];
    TotalAppend(h[..i], [h[i]]);
  }

  lemma CumBounds(h: Hist, i: nat)
    requires i <= |h|
    ensures Cum(h, i) + Total(h[i..]) == Total(h)
  {
    assert h == h[..i] + h[i..];
    TotalAppend(h[..i], h[i..]);
  }

  lemma CumTail(h: Hist, i: nat)
    requires 0 < i <= |h|
    ensures Cum(h, i) == h[0].count + Cum(h[1..], i - 1)
  {
    assert h[..i] == [h[0]] + h[1..][..i - 1];
    assert ([h[0]] + h[1..][..i - 1])[1..] == h[1..][..i - 1];
  }

  /** Depth of base number `r` (from 0) when the bases are listed in
      ascending depth order. */
  function RankDepth(h: Hist, r: nat): nat
    requires r < Total(h)
  {
    if r < h[0].count then h[0].depth else RankDepth(h[1..], r - h[0].count)
  }

  /** The bases of bucket `i` are the ranks `Cum(h, i) .. Cum(h, i + 1)`. */
  lemma {:induction false} RankDepthInBucket(h: Hist, i: nat, r: nat)
    requires i < |h| && Cum(h, i) <= r < Cum(h, i) + h[i].count
    ensures r < Total(h) && RankDepth(h, r) == h[i].depth
  {
    CumStep(h, i);
    CumBounds(h, i + 1);
    if i > 0 {
      CumTail(h, i);
      assert h[1..][i - 1] == h[i];
      RankDepthInBucket(h[1..], i - 1, r - h[0].count);
    }
  }

  /** Sum of the depths of the bases with rank in `[lo, hi)`. */
  function WindowSum(h: Hist, lo: nat, hi: nat): nat
    requires hi <= Total(h)
    decreases hi
  {
    if hi <= lo then 0 else WindowSum(h, lo, hi - 1) + RankDepth(h, hi - 1)
  }

  /** Extending a window over ranks of one bucket adds that bucket's depth once per rank. */
  lemma {:induction false} WindowSumInBucket(h: Hist, i: nat, lo: nat, a: nat, b: nat)
    requires i < |h| && lo <= a <= b && Cum(h, i) <= a && b <= Cum(h, i) + h[i].count
    ensures b <= Total(h)
    ensures WindowSum(h, lo, b) == WindowSum(h, lo, a) + h[i].depth * (b - a)
    decreases b
  {
    CumStep(h, i);
    CumBounds(h, i + 1);
    if b > a {
      RankDepthInBucket(h, i, b - 1);
      WindowSumInBucket(h, i, lo, a, b - 1);
      assert WindowSum(h, lo, b) == WindowSum(h, lo, b - 1) + h[i].depth;
      MulStep(h[i].depth, b - 1 - a, b - a);
    }
  }

  lemma MulStep(d: nat, m: nat, n: nat)
    requires n == m + 1
    ensures d * n == d * m + d
  {
  }

  /** Σ depth·count over the buckets. */
  function WeightedSum(h: Hist): nat {
    if h == [] then 0 else h[0].depth * h[0].count + WeightedSum(h[1..])
  }

  lemma {:induction false} WeightedSumAppend(a: Hist, b: Hist)
    ensures WeightedSum(a + b) == WeightedSum(a) + WeightedSum(b)
  {
    if a == [] {
      assert a + b == b;
    } else {
      assert (a + b)[1..] == a[1..] + b;
      WeightedSumAppend(a[1..], b);
    }
  }

  /** Summing the depth of every base is summing depth·count per bucket. */
  lemma {:induction false} WindowSumIsWeightedSum(h: Hist, i: nat)
    requires i <= |h|
    ensures Cum(h, i) <= Total(h)
    ensures WindowSum(h, 0, Cum(h, i)) == WeightedSum(h[..i])
  {
    CumBounds(h, i);
    if i > 0 {
      WindowSumIsWeightedSum(h, i - 1);
      CumStep(h, i - 1);
      WindowSumInBucket(h, i - 1, 0, Cum(h, i - 1), Cum(h, i));
      assert h[..i] == h[..i - 1] + [h[i - 1]];
      WeightedSumAppend(h[..i - 1], [h[i - 1]]);
    }
  }

  // ---------------------------------------------------------------------
  // meanFromHist

  /** Mean depth over all bases; NaN (`None`) for an empty histogram. */
  function Mean(h: Hist): Option<real> {
    if Total(h) == 0 then None else Some(WeightedSum(h) as real / Total(h) as real)
  }

  lemma {:induction false} WeightedSumBetween(h: Hist, lo: nat, hi: nat)
    requires forall i :: 0 <= i < |h| && h[i].count > 0 ==> lo <= h[i].depth <= hi
    ensures lo * Total(h) <= WeightedSum(h) <= hi * Total(h)
  {
    if h != [] {
      assert forall i :: 0 <= i < |h[1..]| ==> h[1..][i] == h[i + 1];
      WeightedSumBetween(h[1..], lo, hi);
      var c := h[0].count;
      if c > 0 {
        MulMono(lo, h[0].depth, c);
        MulMono(h[0].depth, hi, c);
      }
      MulDistrib(lo, c, Total(h[1..]));
      MulDistrib(hi, c, Total(h[1..]));
    }
  }

  lemma MulMono(a: nat, b: nat, c: nat)
    requires a <= b
    ensures a * c <= b * c
  {
  }

  lemma MulDistrib(k: nat, a: nat, b: nat)
    ensures k * (a + b) == k * a + k * b
  {
  }

  /** The mean lies between the smallest and the largest depth that has bases. */
  lemma MeanBetween(h: Hist, lo: nat, hi: nat)
    requires Total(h) > 0
    requires forall i :: 0 <= i < |h| && h[i].count > 0 ==> lo <= h[i].depth <= hi
    ensures Mean(h).Some? && lo as real <= Mean(h).value <= hi as real
  {
    WeightedSumBetween(h, lo, hi);
    var t := Total(h);
    var w := WeightedSum(h);
    QuotientBetween(lo, hi, w, t);
  }

  lemma QuotientBetween(lo: nat, hi: nat, w: nat, t: nat)
    requires t > 0 && lo * t <= w <= hi * t
    ensures lo as real <= w as real / t as real <= hi as real
  {
    var q := w as real / t as real;
    assert q * t as real == w as real;
    assert (lo * t) as real == lo as real * t as real;
    assert (hi * t) as real == hi as real * t as real;
  }

  /** `meanFromHist`: one pass summing depth·count and count. */
  method MeanFromHist(h: Hist) returns (r: Option<real>)
    ensures r == Mean(h)
  {
    var total: nat := 0;
    var count: nat := 0;
    var i := 0;
    while i < |h|
      invariant 0 <= i <= |h|
      invariant total + WeightedSum(h[i..]) == WeightedSum(h)
      invariant count + Total(h[i..]) == Total(h)
    {
      assert h[i..][1..] == h[i + 1..];
      total := total + h[i].depth * h[i].count;
      count := count + h[i].count;
      i := i + 1;
    }
    assert h[i..] == [];
    if count == 0 {
      r := None;
    } else {
      r := Some(total as real / count as real);
    }
  }

  /** The product `h.first * h.second` as the source computes it: both
      operands are `unsigned int`, so the product is taken modulo 2^32
      before it is added to the 64-bit total. */
  function WrappedWeightedSum(h: Hist): nat {
    if h == [] then 0 else (h[0].depth * h[0].count) % 0x1_0000_0000 + WrappedWeightedSum(h[1..])
  }

  /** `meanFromHist` as written, with the 32-bit product. */
  function MeanAsWritten(h: Hist): Option<real> {
    if Total(h) == 0 then None else Some(WrappedWeightedSum(h) as real / Total(h) as real)
  }

  /** 65536 bases at depth 65536 have mean depth 65536, but the product
      65536·65536 wraps to 0 and the source reports a mean of 0. */
  lemma MeanAsWrittenWraps()
    ensures MeanAsWritten([Bucket(65536, 65536)]) == Some(0.0)
    ensures Mean([Bucket(65536, 65536)]) == Some(65536.0)
  {
    var h := [Bucket(65536, 65536)];
    assert h[1..] == [];
    assert Total(h) == 65536;
    assert WrappedWeightedSum(h) == 0;
    assert WeightedSum(h) == 65536 * 65536;
  }

  // ---------------------------------------------------------------------
  // coverageFromHist

  /** Fraction of bases with non-zero depth: 1.0 when depth 0 is not a key,
      NaN (`None`) when depth 0 is a key but no base was counted. */
  function Coverage(h: Hist): Option<real> {
    if !HasKey(h, 0) then Some(1.0)
    else if Total(h) == 0 then None
    else
      CountLeTotal(h, 0);
      Some((Total(h) - Count(h, 0)) as real / Total(h) as real)
  }

  /** The covered fraction is a fraction, and it is 1 exactly when no base
      has depth 0. */
  lemma CoverageBounds(h: Hist)
    requires Total(h) > 0
    ensures Coverage(h).Some? && 0.0 <= Coverage(h).value <= 1.0
    ensures Coverage(h).value == 1.0 <==> Count(h, 0) == 0
  {
    if !HasKey(h, 0) {
      CountAbsent(h, 0);
    } else {
      CountLeTotal(h, 0);
      FractionBounds(Total(h), Count(h, 0));
    }
  }

  lemma FractionBounds(t: nat, z: nat)
    requires 0 < t && z <= t
    ensures 0.0 <= (t - z) as real / t as real <= 1.0
    ensures (t - z) as real / t as real == 1.0 <==> z == 0
  {
    var q := (t - z) as real / t as real;
    assert q * t as real == (t - z) as real;
    QuotientBetween(0, 1, t - z, t);
    if q == 1.0 {
      assert 1.0 * t as real == (t - z) as real;
    }
  }

  /** `coverageFromHist`: a lookup of key 0, then one pass summing the counts. */
  method CoverageFromHist(h: Hist) returns (r: Option<real>)
    ensures r == Coverage(h)
  {
    if !HasKey(h, 0) {
      return Some(1.0);
    }
    var count: nat := 0;
    var i := 0;
    while i < |h|
      invariant 0 <= i <= |h|
      invariant count + Total(h[i..]) == Total(h)
    {
      assert h[i..][1..] == h[i + 1..];
      count := count + h[i].count;
      i := i + 1;
    }
    assert h[i..] == [];
    if count == 0 {
      r := None;
    } else {
      CountLeTotal(h, 0);
      r := Some((count - Count(h, 0)) as real / count as real);
    }
  }

  // ---------------------------------------------------------------------
  // percentileFromHist

  /** Integer part of `(size + 1) * p / 100`: the 1-based rank of the percentile. */
  function PercentileIndex(size: nat, p: nat): nat {
    ((size + 1) * p) / 100
  }

  /** Fractional part of `(size + 1) * p / 100`. */
  function PercentileFrac(size: nat, p: nat): real {
    (((size + 1) * p) % 100) as real / 100.0
  }

  /** The first bucket, from `i` on, whose cumulative count reaches `idx`;
      `|h|` when none does. */
  function FirstReach(h: Hist, idx: nat, i: nat): (k: nat)
    requires i <= |h|
    ensures i <= k <= |h|
    ensures k < |h| ==> Cum(h, k + 1) >= idx
    ensures forall j :: i < j <= k ==> Cum(h, j) < idx
    decreases |h| - i
  {
    if i == |h| then |h|
    else if Cum(h, i + 1) >= idx then i
    else FirstReach(h, idx, i + 1)
  }

  /** The percentile at 1-based rank `idx` with fraction `f`: the depth of the
      bucket holding rank `idx`, or, when rank `idx` is the last base of its
      bucket and the fraction is not zero, the interpolation `a - f·a + f·b`
      with the next bucket's depth `b`.  NaN (`None`) when no bucket reaches
      rank `idx`, and also when the interpolation would read past the last
      bucket (the source dereferences the end iterator there). */
  function PercentileAt(h: Hist, idx: nat, f: real): Option<real> {
    var k := FirstReach(h, idx, 0);
    if k == |h| then None
    else if Cum(h, k + 1) > idx || f == 0.0 then Some(h[k].depth as real)
    else if k + 1 < |h| then Some(Interpolate(h[k].depth as real, h[k + 1].depth as real, f))
    else None
  }

  /** `a - f·a + f·b`, the interpolation step as the source writes it. */
  function Interpolate(a: real, b: real, f: real): (r: real)
    ensures r == (1.0 - f) * a + f * b
  {
    a - f * a + f * b
  }

  function Percentile(h: Hist, p: nat): Option<real> {
    PercentileAt(h, PercentileIndex(Total(h), p), PercentileFrac(Total(h), p))
  }

  /** Ranks are reached in bucket order. */
  lemma {:induction false} CumMonotone(h: Hist, i: nat, j: nat)
    requires i <= j <= |h|
    ensures Cum(h, i) <= Cum(h, j)
    decreases j - i
  {
    if i < j {
      CumStep(h, j - 1);
      CumMonotone(h, i, j - 1);
    }
  }

  /** Beyond the last base the percentile is NaN. */
  lemma PercentileBeyond(h: Hist, idx: nat, f: real)
    requires idx > Total(h)
    ensures PercentileAt(h, idx, f) == None
  {
    var k := FirstReach(h, idx, 0);
    if k < |h| {
      CumBounds(h, k + 1);
    }
  }

  /** With no empty bucket, a rank inside the bases gives the linear
      interpolation `(1 - f)·x + f·y` between the depths `x`, `y` of 1-based
      ranks `idx` and `idx + 1`. */
  lemma PercentileAtInterpolates(h: Hist, idx: nat, f: real)
    requires forall i :: 0 <= i < |h| ==> h[i].count > 0
    requires 1 <= idx < Total(h)
    ensures PercentileAt(h, idx, f) == Some(Interpolate(RankDepth(h, idx - 1) as real, RankDepth(h, idx) as real, f))
  {
    var k := FirstReach(h, idx, 0);
    CumBounds(h, |h|);
    assert h[..|h|] == h;
    if k == |h| {
      assert false;
    }
    CumStep(h, k);
    if k > 0 {
      assert Cum(h, k) < idx;
    }
    RankDepthInBucket(h, k, idx - 1);
    if Cum(h, k + 1) > idx {
      RankDepthInBucket(h, k, idx);
      var a := h[k].depth as real;
      assert Interpolate(a, a, f) == a;
    } else {
      CumBounds(h, k + 1);
      assert h[k + 1..] != [];
      CumStep(h, k + 1);
      RankDepthInBucket(h, k + 1, idx);
    }
  }

  /** One pass summing the counts of a histogram. */
  method SumCounts(h: Hist) returns (size: nat)
    ensures size == Total(h)
  {
    size := 0;
    var i := 0;
    while i < |h|
      invariant 0 <= i <= |h|
      invariant size + Total(h[i..]) == Total(h)
    {
      assert h[i..][1..] == h[i + 1..];
      size := size + h[i].count;
      i := i + 1;
    }
    assert h[i..] == [];
  }

  /** The scan of `percentileFromHist` for a given rank and fraction: stop at
      the first bucket whose running count reaches the rank. */
  method PercentileScan(h: Hist, idx: nat, f: real) returns (r: Option<real>)
    ensures r == PercentileAt(h, idx, f)
  {
    var count: nat := 0;
    var i := 0;
    while i < |h|
      invariant 0 <= i <= |h|
      invariant count == Cum(h, i)
      invariant FirstReach(h, idx, 0) == FirstReach(h, idx, i)
    {
      CumStep(h, i);
      count := count + h[i].count;
      if count >= idx {
        if count > idx || f == 0.0 {
          return Some(h[i].depth as real);
        } else if i + 1 < |h| {
          return Some(Interpolate(h[i].depth as real, h[i + 1].depth as real, f));
        } else {
          return None;
        }
      }
      i := i + 1;
    }
    r := None;
  }

  /** `percentileFromHist`. */
  method PercentileFromHist(h: Hist, p: nat) returns (r: Option<real>)
    ensures r == Percentile(h, p)
  {
    var size := SumCounts(h);
    var idx := PercentileIndex(size, p);
    var f := PercentileFrac(size, p);
    r := PercentileScan(h, idx, f);
  }

  // ---------------------------------------------------------------------
  // trimmedMeanFromHist

  /** Bases skipped at each end when only the central `c` percent are kept:
      `floor(size · ((100 - c) / 2) / 100)`. */
  function Skip(size: nat, c: nat): nat
    requires c <= 100
  {
    (size * (100 - c)) / 200
  }

  lemma SkipBound(size: nat, c: nat)
    requires c <= 100
    ensures 2 * Skip(size, c) <= size
  {
    MulMono(100 - c, 100, size);
    assert size * (100 - c) == (100 - c) * size;
  }

  /** Mean depth of the bases with rank in `[skip, size - skip)`.  When that
      window is empty (`size == 2·skip`) it is the depth of the base at rank
      `skip`; NaN (`None`) for an empty histogram. */
  function TrimmedMeanWith(h: Hist, skip: nat): Option<real>
    requires 2 * skip <= Total(h)
  {
    var size := Total(h);
    if size == 0 then None
    else if size == 2 * skip then Some(RankDepth(h, skip) as real)
    else Some(WindowSum(h, skip, size - skip) as real / (size - 2 * skip) as real)
  }

  function TrimmedMean(h: Hist, c: nat): Option<real>
    requires c <= 100
  {
    SkipBound(Total(h), c);
    TrimmedMeanWith(h, Skip(Total(h), c))
  }

  lemma DivideOut(d: nat, n: nat)
    requires n > 0
    ensures (d * n) as real / n as real == d as real
  {
    assert (d * n) as real == d as real * n as real;
  }

  /** When the kept window lies in one bucket, the trimmed mean is that
      bucket's depth. */
  lemma TrimmedMeanWithOneBucket(h: Hist, skip: nat, i: nat)
    requires 2 * skip <= Total(h) && i < |h|
    requires Total(h) > 0 && Cum(h, i) <= skip && Total(h) - skip < Cum(h, i) + h[i].count
    ensures TrimmedMeanWith(h, skip) == Some(h[i].depth as real)
  {
    var size := Total(h);
    if size == 2 * skip {
      RankDepthInBucket(h, i, skip);
    } else {
      WindowSumInBucket(h, i, skip, skip, size - skip);
      DivideOut(h[i].depth, size - 2 * skip);
    }
  }

  /** `{1:10, 2:80, 3:10}` with the central 50 percent kept has trimmed mean 2. */
  lemma TrimmedMeanExample()
    ensures TrimmedMean([Bucket(1, 10), Bucket(2, 80), Bucket(3, 10)], 50) == Some(2.0)
  {
    var h := [Bucket(1, 10), Bucket(2, 80), Bucket(3, 10)];
    assert Total(h) == 100 by {
      assert h[1..][1..][1..] == [];
    }
    assert Cum(h, 1) == 10 by {
      assert h[..1][1..] == [];
    }
    CumStep(h, 1);
    assert Skip(100, 50) == 25;
    TrimmedMeanWithOneBucket(h, 25, 1);
  }

  /** Keeping every base gives the plain mean. */
  lemma TrimmedMeanAll(h: Hist)
    ensures TrimmedMean(h, 100) == Mean(h)
  {
    assert Skip(Total(h), 100) == 0;
    WindowSumIsWeightedSum(h, |h|);
    assert h[..|h|] == h;
  }

  /** Every base that is counted has a depth between `lo` and `hi`. */
  lemma {:induction false} RankDepthBetween(h: Hist, r: nat, lo: nat, hi: nat)
    requires r < Total(h)
    requires forall i :: 0 <= i < |h| && h[i].count > 0 ==> lo <= h[i].depth <= hi
    ensures lo <= RankDepth(h, r) <= hi
  {
    if r >= h[0].count {
      forall i | 0 <= i < |h[1..]| && h[1..][i].count > 0
        ensures lo <= h[1..][i].depth <= hi
      {
        assert h[1..][i] == h[i + 1];
      }
      RankDepthBetween(h[1..], r - h[0].count, lo, hi);
    }
  }

  lemma {:induction false} WindowSumBetween(h: Hist, a: nat, b: nat, lo: nat, hi: nat)
    requires a <= b <= Total(h)
    requires forall i :: 0 <= i < |h| && h[i].count > 0 ==> lo <= h[i].depth <= hi
    ensures lo * (b - a) <= WindowSum(h, a, b) <= hi * (b - a)
    decreases b
  {
    if b > a {
      WindowSumBetween(h, a, b - 1, lo, hi);
      RankDepthBetween(h, b - 1, lo, hi);
      MulStep(lo, b - 1 - a, b - a);
      MulStep(hi, b - 1 - a, b - a);
    }
  }

  /** The trimmed mean is a number exactly when some base is counted, and it
      lies between the least and greatest depth present. */
  lemma TrimmedMeanBetween(h: Hist, c: nat, lo: nat, hi: nat)
    requires c <= 100
    requires forall i :: 0 <= i < |h| && h[i].count > 0 ==> lo <= h[i].depth <= hi
    ensures TrimmedMean(h, c).Some? <==> Total(h) > 0
    ensures TrimmedMean(h, c).Some? ==> lo as real <= TrimmedMean(h, c).value <= hi as real
  {
    var size := Total(h);
    SkipBound(size, c);
    var skip := Skip(size, c);
    if size == 0 {
    } else if size == 2 * skip {
      RankDepthBetween(h, skip, lo, hi);
    } else {
      WindowSumBetween(h, skip, size - skip, lo, hi);
      QuotientBetween(lo, hi, WindowSum(h, skip, size - skip), size - 2 * skip);
    }
  }

  /** The second pass of `trimmedMeanFromHist` as written: the products
      `h.first * h.second`, `h.first * (count + h.second - skip)` and
      `h.first * (size - skip - count)` are `unsigned int` products, taken
      modulo 2^32 before they are added to the 64-bit total. */
  function TrimmedWalkAsWritten(h: Hist, size: nat, skip: nat, count: nat, total: nat): Option<real>
    requires 2 * skip <= size
    decreases |h|
  {
    if h == [] then
      if size == 2 * skip then None else Some(total as real / (size - 2 * skip) as real)
    else if count + h[0].count > size - skip then
      if count > skip then
        var t := total + (h[0].depth * ((size - skip - count) % 0x1_0000_0000)) % 0x1_0000_0000;
        if size == 2 * skip then None else Some(t as real / (size - 2 * skip) as real)
      else Some(h[0].depth as real)
    else
      var t :=
        if count > skip then total + (h[0].depth * h[0].count) % 0x1_0000_0000
        else if count + h[0].count > skip then total + (h[0].depth * (count + h[0].count - skip)) % 0x1_0000_0000
        else total;
      TrimmedWalkAsWritten(h[1..], size, skip, count + h[0].count, t)
  }

  /** `trimmedMeanFromHist` as written. */
  function TrimmedMeanAsWritten(h: Hist, c: nat): Option<real>
    requires c <= 100
  {
    SkipBound(Total(h), c);
    TrimmedWalkAsWritten(h, Total(h), Skip(Total(h), c), 0, 0)
  }

  /** 262144 bases at depth 0 and 393216 at depth 65536, central 40 percent:
      the kept ranks hold 65536 bases at depth 0 and 196608 at depth 65536,
      a trimmed mean of 49152; the product 65536·196608 = 3·2^32 wraps to 0
      and the source reports 0. */
  lemma TrimmedMeanAsWrittenWraps()
    ensures TrimmedMeanAsWritten([Bucket(0, 262144), Bucket(65536, 393216)], 40) == Some(0.0)
    ensures TrimmedMean([Bucket(0, 262144), Bucket(65536, 393216)], 40) == Some(49152.0)
  {
    var h := [Bucket(0, 262144), Bucket(65536, 393216)];
    assert h[1..][1..] == [];
    assert Total(h) == 655360;
    assert Skip(655360, 40) == 196608;
    assert h[1..][0] == h[1];
    assert TrimmedMeanAsWritten(h, 40) == Some(0.0);
    assert Trimming(h, 196608, 0, 0, 0) by {
      assert h[..0] == [];
    }
    TrimmingStep(h, 196608, 0, 0, 0);
    TrimmingLast(h, 196608, 1, 262144, 0);
    TrimmingCross(h, 196608, 65536 * 196608);
    DivideOut(49152, 262144);
  }

  /** The state of the second pass after the buckets `h[..i]`: `count` bases
      seen, none beyond the kept window, and `total` the depth sum of the kept
      ranks among them. */
  ghost predicate Trimming(h: Hist, skip: nat, i: nat, count: nat, total: nat) {
    && i <= |h| && 2 * skip <= Total(h)
    && count == Cum(h, i) && count <= Total(h) - skip
    && total == WindowSum(h, skip, if count > skip then count else skip)
  }

  /** A bucket that ends inside the kept window adds its ranks inside the window. */
  lemma TrimmingStep(h: Hist, skip: nat, i: nat, count: nat, total: nat)
    requires Trimming(h, skip, i, count, total) && i < |h|
    requires count + h[i].count <= Total(h) - skip
    ensures Trimming(h, skip, i + 1, count + h[i].count,
      if count > skip then total + h[i].depth * h[i].count
      else if count + h[i].count > skip then total + h[i].depth * (count + h[i].count - skip)
      else total)
  {
    CumStep(h, i);
    if count > skip {
      WindowSumInBucket(h, i, skip, count, count + h[i].count);
    } else if count + h[i].count > skip {
      WindowSumInBucket(h, i, skip, skip, count + h[i].count);
    }
  }

  /** The trimmed mean is the window sum over the kept count. */
  lemma TrimmingCross(h: Hist, skip: nat, w: nat)
    requires 2 * skip < Total(h) && WindowSum(h, skip, Total(h) - skip) == w
    ensures TrimmedMeanWith(h, skip) == Some(w as real / (Total(h) - 2 * skip) as real)
  {
  }

  /** A bucket that crosses the upper end of the window ends the pass. */
  lemma TrimmingLast(h: Hist, skip: nat, i: nat, count: nat, total: nat)
    requires Trimming(h, skip, i, count, total) && i < |h|
    requires count + h[i].count > Total(h) - skip
    ensures count > skip ==> 2 * skip < Total(h)
    ensures count > skip ==> WindowSum(h, skip, Total(h) - skip) == total + h[i].depth * (Total(h) - skip - count)
    ensures count <= skip ==> TrimmedMeanWith(h, skip) == Some(h[i].depth as real)
  {
    CumStep(h, i);
    CumBounds(h, i + 1);
    if count > skip {
      WindowSumInBucket(h, i, skip, count, Total(h) - skip);
    } else {
      TrimmedMeanWithOneBucket(h, skip, i);
    }
  }

  /** A pass that reads every bucket kept every base. */
  lemma TrimmingEnd(h: Hist, skip: nat, count: nat, total: nat)
    requires Trimming(h, skip, |h|, count, total)
    ensures TrimmedMeanWith(h, skip) ==
      if Total(h) - 2 * skip == 0 then None else Some(total as real / (Total(h) - 2 * skip) as real)
  {
    CumBounds(h, |h|);
    assert h[..|h|] == h;
  }

  /** The second pass of `trimmedMeanFromHist` for a given `skip`: add the part
      of each bucket lying inside the kept window and stop at the bucket that
      crosses its upper end; when the whole window lies in that bucket its
      depth is returned directly. */
  method TrimmedScan(h: Hist, skip: nat) returns (r: Option<real>)
    requires 2 * skip <= Total(h)
    ensures r == TrimmedMeanWith(h, skip)
  {
    var size := Total(h);
    var total: nat := 0;
    var count: nat := 0;
    var i := 0;
    while i < |h|
      invariant Trimming(h, skip, i, count, total)
    {
      var b := h[i];
      if count + b.count > size - skip {
        TrimmingLast(h, skip, i, count, total);
        if count > skip {
          total := total + b.depth * (size - skip - count);
          TrimmingCross(h, skip, total);
          return Some(total as real / (size - 2 * skip) as real);
        } else {
          return Some(b.depth as real);
        }
      }
      TrimmingStep(h, skip, i, count, total);
      if count > skip {
        total := total + b.depth * b.count;
      } else if count + b.count > skip {
        total := total + b.depth * (count + b.count - skip);
      }
      count := count + b.count;
      i := i + 1;
    }
    TrimmingEnd(h, skip, count, total);
    if size - 2 * skip == 0 {
      r := None;
    } else {
      r := Some(total as real / (size - 2 * skip) as real);
    }
  }

  /** `trimmedMeanFromHist`. */
  method TrimmedMeanFromHist(h: Hist, c: nat) returns (r: Option<real>)
    requires c <= 100
    ensures r == TrimmedMean(h, c)
  {
    var size := SumCounts(h);
    var skip := Skip(size, c);
    SkipBound(size, c);
    r := TrimmedScan(h, skip);
  }
}
