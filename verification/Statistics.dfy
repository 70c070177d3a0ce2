/** Percentiles, intervals and wrap correction (bench/metrics/stats.py, compute.py). */
module Statistics {
  import opened Basics
  import opened Sorting
  import opened EnergyAttribution

  // ------------------------------------------------------------ percentiles

  predicate RealLe(a: real, b: real) {
    a <= b
  }

  lemma {:induction false} RealOrder()
    ensures TotalPreorder(RealLe)
  {
  }

  function Between(a: real, b: real, f: real): real {
    a + (b - a) * f
  }

  /** The same point with the factors in the other order. */
  function Along(a: real, b: real, f: real): real {
    a + f * (b - a)
  }

  lemma {:induction false} AlongIsBetween(a: real, b: real, f: real)
    ensures Along(a, b, f) == Between(a, b, f)
  {
  }

  lemma {:induction false} BetweenBounds(a: real, b: real, f: real)
    requires a <= b && 0.0 <= f <= 1.0
    ensures a <= Between(a, b, f) <= b
    ensures f == 0.0 ==> Between(a, b, f) == a
  {
    ScaleKeepsOrder(b - a, 0.0, f, 0.0, (b - a) * f);
    ScaleKeepsOrder(b - a, f, 1.0, (b - a) * f, b - a);
  }

  lemma {:induction false} BetweenMonotone(a: real, b: real, f: real, g: real)
    requires a <= b && f <= g
    ensures Between(a, b, f) <= Between(a, b, g)
  {
    ScaleKeepsOrder(b - a, f, g, (b - a) * f, (b - a) * g);
  }

  /** Linear interpolation at a fractional position. */
  function AtRank(s: seq<real>, rank: real): real
    requires s != [] && 0.0 <= rank <= (|s| - 1) as real
  {
    var low := rank.Floor;
    var high := Min(low + 1, |s| - 1);
    Between(s[low], s[high], rank - low as real)
  }

  function Rank(n: nat, fraction: real): (rank: real)
    requires n > 0 && 0.0 <= fraction <= 1.0
    ensures 0.0 <= rank <= (n - 1) as real
  {
    var last := (n - 1) as real;
    ScaleKeepsOrder(last, 0.0, fraction, 0.0, last * fraction);
    ScaleKeepsOrder(last, fraction, 1.0, last * fraction, last);
    last * fraction
  }

  lemma {:induction false} RankMonotone(n: nat, p: real, q: real)
    requires n > 0 && 0.0 <= p <= q <= 1.0
    ensures Rank(n, p) <= Rank(n, q)
  {
    var last := (n - 1) as real;
    ScaleKeepsOrder(last, p, q, last * p, last * q);
  }

  /** compute.py: `pct` is a fraction; an empty series is an error there. */
  function Percentile(s: seq<real>, pct: real): (r: Option<real>)
    requires 0.0 <= pct <= 1.0
    ensures r.None? <==> s == []
  {
    if s == [] then None
    else if |s| == 1 then Some(s[0])
    else Some(AtRank(s, Rank(|s|, pct)))
  }

  /** stats.py: `pct` is out of a hundred, and the two factors are multiplied the other way. */
  function Percentile100(s: seq<real>, pct: real): (r: Option<real>)
    requires 0.0 <= pct <= 100.0
    ensures r.None? <==> s == []
  {
    if s == [] then None
    else if |s| == 1 then Some(s[0])
    else
      var idx := Rank(|s|, pct / 100.0);
      var lo := idx.Floor;
      var hi := Min(lo + 1, |s| - 1);
      Some(Along(s[lo], s[hi], idx - lo as real))
  }

  lemma {:induction false} PercentilesAgree(s: seq<real>, pct: real)
    requires 0.0 <= pct <= 100.0
    ensures Percentile100(s, pct) == Percentile(s, pct / 100.0)
  {
    if |s| > 1 {
      hide Along, Between, Rank;
      var idx := Rank(|s|, pct / 100.0);
      var lo := idx.Floor;
      AlongIsBetween(s[lo], s[Min(lo + 1, |s| - 1)], idx - lo as real);
    }
  }

  lemma {:induction false} AtRankWithin(s: seq<real>, rank: real)
    requires s != [] && Sorted(s, RealLe) && 0.0 <= rank <= (|s| - 1) as real
    ensures s[rank.Floor] <= AtRank(s, rank) <= s[Min(rank.Floor + 1, |s| - 1)]
    ensures rank == rank.Floor as real ==> AtRank(s, rank) == s[rank.Floor]
  {
    hide Between;
    var low := rank.Floor;
    var high := Min(low + 1, |s| - 1);
    assert low < high ==> RealLe(s[low], s[high]);
    BetweenBounds(s[low], s[high], rank - low as real);
  }

  lemma {:induction false} AtRankMonotone(s: seq<real>, p: real, q: real)
    requires s != [] && Sorted(s, RealLe) && 0.0 <= p <= q <= (|s| - 1) as real
    ensures AtRank(s, p) <= AtRank(s, q)
  {
    hide Between;
    AtRankWithin(s, p);
    AtRankWithin(s, q);
    if p.Floor == q.Floor {
      var low := p.Floor;
      var high := Min(low + 1, |s| - 1);
      assert low < high ==> RealLe(s[low], s[high]);
      BetweenMonotone(s[low], s[high], p - low as real, q - low as real);
    } else {
      assert p.Floor + 1 <= q.Floor;
      assert p.Floor + 1 < q.Floor ==> RealLe(s[p.Floor + 1], s[q.Floor]);
    }
  }

  /** Over a sorted series the percentile grows with `pct` and stays between the extremes, which
      it reaches at the two ends. */
  lemma {:induction false} PercentileLaws(s: seq<real>, p: real, q: real)
    requires s != [] && Sorted(s, RealLe) && 0.0 <= p <= q <= 1.0
    ensures Percentile(s, p).value <= Percentile(s, q).value
    ensures s[0] <= Percentile(s, p).value <= s[|s| - 1]
    ensures Percentile(s, 0.0).value == s[0] && Percentile(s, 1.0).value == s[|s| - 1]
  {
    if |s| > 1 {
      hide AtRank;
      var n := (|s| - 1) as real;
      RankMonotone(|s|, p, q);
      RankEnds(|s|);
      AtRankMonotone(s, Rank(|s|, p), Rank(|s|, q));
      AtRankMonotone(s, 0.0, Rank(|s|, p));
      AtRankMonotone(s, Rank(|s|, p), n);
      AtRankWithin(s, 0.0);
      AtRankWithin(s, n);
    }
  }

  lemma {:induction false} RankEnds(n: nat)
    requires n > 0
    ensures Rank(n, 0.0) == 0.0 && Rank(n, 1.0) == (n - 1) as real
  {
  }

  /** What a percentile is: its position (n - 1) * p falls between two neighbours, or on one of them,
      and the value is as far from the lower one as the position is. */
  lemma {:induction false} PercentileIsLinear(s: seq<real>, p: real, k: nat)
    requires k + 1 < |s| && 0.0 <= p <= 1.0
    requires k as real <= (|s| - 1) as real * p <= (k + 1) as real
    ensures Percentile(s, p).value == s[k] + ((|s| - 1) as real * p - k as real) * (s[k + 1] - s[k])
    ensures Percentile100(s, 100.0 * p) == Percentile(s, p)
  {
    var rank := (|s| - 1) as real * p;
    assert Percentile(s, p) == Some(AtRank(s, rank));
    hide AtRank, Rank, Percentile, Percentile100;
    AtRankIsLinear(s, rank, k);
    assert (100.0 * p) / 100.0 == p;
    PercentilesAgree(s, 100.0 * p);
  }

  lemma {:induction false} AtRankIsLinear(s: seq<real>, rank: real, k: nat)
    requires k + 1 < |s| && k as real <= rank <= (k + 1) as real
    ensures AtRank(s, rank) == s[k] + (rank - k as real) * (s[k + 1] - s[k])
  {
    hide Between;
    BetweenEnds(s[k], s[k + 1], rank - k as real);
    if rank == (k + 1) as real {
      assert rank.Floor == k + 1;
      BetweenEnds(s[k + 1], s[Min(k + 2, |s| - 1)], rank - (k + 1) as real);
    } else {
      assert rank.Floor == k;
    }
  }

  lemma {:induction false} BetweenEnds(a: real, b: real, f: real)
    ensures Between(a, b, f) == a + f * (b - a)
    ensures f == 0.0 ==> Between(a, b, f) == a
    ensures f == 1.0 ==> Between(a, b, f) == b
  {
  }

  /** So the median is the middle element, or half-way between the two middle ones. */
  lemma {:induction false} MedianIsMiddle(s: seq<real>)
    requires s != []
    ensures
      var m := |s| / 2;
      Percentile(s, 0.5).value == if |s| % 2 == 1 then s[m] else (s[m - 1] + s[m]) / 2.0
  {
    if |s| > 1 {
      var m := |s| / 2;
      var rank := (|s| - 1) as real * 0.5;
      assert rank == if |s| % 2 == 1 then m as real else (m - 1) as real + 0.5;
      hide Percentile;
      PercentileIsLinear(s, 0.5, m - 1);
      assert rank - (m - 1) as real == if |s| % 2 == 1 then 1.0 else 0.5;
    }
  }

  /** There is only one way to put a list of numbers in order. */
  lemma {:induction false} OrderedIsUnique(a: seq<real>, b: seq<real>)
    requires Sorted(a, RealLe) && Sorted(b, RealLe) && multiset(a) == multiset(b)
    ensures a == b
  {
    SameElements(a, b);
    if a != [] {
      LeastFirst(a, b);
      LeastFirst(b, a);
      WithoutHead(a);
      WithoutHead(b);
      OrderedIsUnique(a[1..], b[1..]);
      assert a == [a[0]] + a[1..] && b == [b[0]] + b[1..];
    }
  }

  lemma {:induction false} LeastFirst(a: seq<real>, b: seq<real>)
    requires a != [] && b != [] && Sorted(a, RealLe) && forall x :: x in a <==> x in b
    ensures a[0] <= b[0]
  {
    assert b[0] in b;
    var j :| 0 <= j < |a| && a[j] == b[0];
    assert 0 < j ==> RealLe(a[0], a[j]);
  }

  lemma {:induction false} WithoutHead(a: seq<real>)
    requires a != []
    ensures multiset(a[1..]) == multiset(a) - multiset{a[0]}
  {
    assert a == [a[0]] + a[1..];
  }

  lemma {:induction false} SortIsOrdered(xs: seq<real>, ordered: seq<real>)
    requires Sorted(ordered, RealLe) && multiset(ordered) == multiset(xs)
    ensures Sort(xs, RealLe) == ordered
  {
    RealOrder();
    SortSorts(xs, RealLe);
    OrderedIsUnique(Sort(xs, RealLe), ordered);
  }

  /** gpu_power_p95_p50_ratio, reported only for a positive median and at least two samples. */
  function BurstRatio(watts: seq<real>): Option<real> {
    if |watts| < 2 then None
    else
      var ordered := Sort(watts, RealLe);
      var p50, p95 := Percentile(ordered, 0.50), Percentile(ordered, 0.95);
      if p50.value > 0.0 then Some(p95.value / p50.value) else None
  }

  /** With the samples in ascending order: reported exactly for two or more with a positive median,
      and then the 95th percentile over the median. */
  lemma {:induction false} BurstRatioMeaning(watts: seq<real>, ordered: seq<real>)
    requires Sorted(ordered, RealLe) && multiset(ordered) == multiset(watts)
    ensures BurstRatio(watts).Some? <==> |watts| >= 2 && Percentile(ordered, 0.5).value > 0.0
    ensures BurstRatio(watts).Some? ==>
      BurstRatio(watts).value * Percentile(ordered, 0.5).value == Percentile(ordered, 0.95).value
  {
    SortIsOrdered(watts, ordered);
    SameElements(watts, ordered);
    hide Sort, Percentile;
    if BurstRatio(watts).Some? {
      RatioTimes(Percentile(ordered, 0.95).value, Percentile(ordered, 0.5).value);
    }
  }

  lemma {:induction false} RatioTimes(x: real, d: real)
    requires d > 0.0
    ensures x / d * d == x
  {
  }

  lemma {:induction false} RatioAtLeastOne(low: real, high: real)
    requires 0.0 < low <= high
    ensures high / low >= 1.0
  {
    var q := high / low;
    assert low * q == high;
    MulKeepsOrder(low, q, 1.0);
  }

  lemma {:induction false} BurstRatioAtLeastOne(watts: seq<real>)
    requires BurstRatio(watts).Some?
    ensures BurstRatio(watts).value >= 1.0
  {
    RealOrder();
    SortSorts(watts, RealLe);
    var ordered := Sort(watts, RealLe);
    PercentileLaws(ordered, 0.50, 0.95);
    hide Sort, Percentile;
    RatioAtLeastOne(Percentile(ordered, 0.50).value, Percentile(ordered, 0.95).value);
  }

  /** ttft_p50_s and ttft_p95_s, withheld unless every request streamed. */
  function TtftPercentiles(ttfts: seq<real>, streamingUsed: bool): Option<(real, real)> {
    if !streamingUsed || ttfts == [] then None
    else
      var ordered := Sort(ttfts, RealLe);
      Some((Percentile(ordered, 0.50).value, Percentile(ordered, 0.95).value))
  }

  /** With the times in ascending order: reported exactly when every request streamed and there was
      one, and then the median and the 95th percentile. */
  lemma {:induction false} TtftMeaning(ttfts: seq<real>, streamingUsed: bool, ordered: seq<real>)
    requires Sorted(ordered, RealLe) && multiset(ordered) == multiset(ttfts)
    ensures TtftPercentiles(ttfts, streamingUsed).Some? <==> streamingUsed && ttfts != []
    ensures TtftPercentiles(ttfts, streamingUsed).Some? ==>
      && Some(TtftPercentiles(ttfts, streamingUsed).value.0) == Percentile(ordered, 0.5)
      && Some(TtftPercentiles(ttfts, streamingUsed).value.1) == Percentile(ordered, 0.95)
  {
    SortIsOrdered(ttfts, ordered);
    hide Sort, Percentile;
  }

  lemma {:induction false} TtftOrdered(ttfts: seq<real>)
    requires TtftPercentiles(ttfts, true).Some?
    ensures TtftPercentiles(ttfts, true).value.0 <= TtftPercentiles(ttfts, true).value.1
  {
    RealOrder();
    SortSorts(ttfts, RealLe);
    PercentileLaws(Sort(ttfts, RealLe), 0.50, 0.95);
  }

  // ------------------------------------------------------------ wrap correction

  /** Microjoules gained over the readings; none when a drop cannot be corrected. */
  function WrapTotal(readings: seq<real>, range: Option<real>): (t: Option<real>)
    requires readings != []
  {
    if |readings| == 1 then Some(0.0)
    else
      var n := |readings| - 1;
      var before := WrapTotal(readings[..n], range);
      var delta := readings[n] - readings[n - 1];
      if before.None? then None
      else if delta >= 0.0 then Some(before.value + delta)
      else if range.None? then None
      else Some(before.value + (delta + range.value))
  }

  /** A counter that never drops needs no correction: the total is the last reading less the first. */
  lemma {:induction false} NoDropNoCorrection(readings: seq<real>, range: Option<real>)
    requires readings != [] && forall i :: 0 <= i < |readings| - 1 ==> readings[i] <= readings[i + 1]
    ensures WrapTotal(readings, range) == Some(readings[|readings| - 1] - readings[0])
  {
    if |readings| > 1 {
      NoDropNoCorrection(readings[..|readings| - 1], range);
    }
  }

  method WrapCorrectedEnergy(readings: seq<real>, range: Option<real>) returns (joules: Option<real>)
    ensures joules == if |readings| < 2 || WrapTotal(readings, range).None? then None
      else Some(WrapTotal(readings, range).value / 1_000_000.0)
    ensures joules.None? <==>
      |readings| < 2 || (range.None? && exists i :: 0 <= i < |readings| - 1 && readings[i + 1] < readings[i])
  {
    if |readings| < 2 {
      return None;
    }
    var total := 0.0;
    for i := 1 to |readings|
      invariant WrapTotal(readings[..i], range) == Some(total)
      invariant range.None? ==> forall k :: 0 <= k < i - 1 ==> readings[k + 1] >= readings[k]
    {
      assert readings[..i + 1][..i] == readings[..i];
      var delta := readings[i] - readings[i - 1];
      if delta < 0.0 {
        if range.None? {
          FirstDropDecides(readings, i);
          assert readings[(i - 1) + 1] < readings[i - 1];
          return None;
        }
        delta := delta + range.value;
      }
      total := total + delta;
    }
    assert readings[..|readings|] == readings;
    joules := Some(total / 1_000_000.0);
  }

  lemma {:induction false} FirstDropDecides(readings: seq<real>, i: nat)
    requires 0 < i < |readings| && readings[i] < readings[i - 1]
    ensures WrapTotal(readings, None).None?
  {
    if i < |readings| - 1 {
      FirstDropDecides(readings[..|readings| - 1], i);
    }
  }

  /** The counter shows the true energy less some whole number of ranges. */
  ghost predicate Wraps(readings: seq<real>, energy: seq<real>, turns: seq<int>, range: real) {
    && |readings| == |energy| == |turns|
    && forall i :: 0 <= i < |readings| ==> Wrapped(readings[i], energy[i], turns[i], range)
  }

  ghost predicate Wrapped(reading: real, energy: real, turns: int, range: real) {
    0.0 <= reading < range && reading == energy - turns as real * range
  }

  lemma {:induction false} OnlyZeroTurns(k: int, range: real, x: real)
    requires range > 0.0 && x == k as real * range && -range < x < range
    ensures x == 0.0
  {
    if k >= 1 {
      ScaleKeepsOrder(range, 1.0, k as real, range, x);
    } else if k <= -1 {
      ScaleKeepsOrder(range, k as real, -1.0, x, -range);
    }
  }

  /** If each step gains less than one full range, the corrected total is the true gain, however
      often the counter wrapped. */
  lemma {:induction false} WrapCorrectionIsExact(readings: seq<real>, energy: seq<real>, turns: seq<int>, range: real)
    requires readings != [] && range > 0.0 && Wraps(readings, energy, turns, range)
    requires forall i :: 0 <= i < |energy| - 1 ==> 0.0 <= energy[i + 1] - energy[i] < range
    ensures WrapTotal(readings, Some(range)) == Some(energy[|energy| - 1] - energy[0])
  {
    if |readings| > 1 {
      var n := |readings| - 1;
      WrapCorrectionIsExact(readings[..n], energy[..n], turns[..n], range);
      assert 0.0 <= energy[(n - 1) + 1] - energy[n - 1] < range;
      assert Wrapped(readings[n - 1], energy[n - 1], turns[n - 1], range);
      assert Wrapped(readings[n], energy[n], turns[n], range);
      WrapStep(readings[n - 1], readings[n], energy[n - 1], energy[n], turns[n - 1], turns[n], range);
      hide Wrapped;
    }
  }

  lemma {:induction false} WrapStep(
      prev: real, cur: real, from: real, to: real, j: int, k: int, range: real)
    requires range > 0.0 && Wrapped(prev, from, j, range) && Wrapped(cur, to, k, range) && 0.0 <= to - from < range
    ensures to - from == if cur - prev >= 0.0 then cur - prev else cur - prev + range
  {
    var turned := k as real * range - j as real * range;
    TurnsBetween(j, k, range, turned);
    if cur - prev >= 0.0 {
      OnlyZeroTurns(k - j, range, turned);
    } else {
      OnlyZeroTurns(k - j - 1, range, turned - range);
    }
  }

  lemma {:induction false} TurnsBetween(j: int, k: int, range: real, turned: real)
    requires turned == k as real * range - j as real * range
    ensures turned == (k - j) as real * range
    ensures turned - range == (k - j - 1) as real * range
  {
    assert (k - j) as real == k as real - j as real;
    assert (k - j - 1) as real == k as real - j as real - 1.0;
  }
}
