/** Per-request energy from the cumulative counter (bench/metrics/costmodel.py, compute.py). */
module EnergyAttribution {
  import opened Basics
  import opened Sorting

  /** One telemetry sample; the counter channel may be missing. */
  datatype Sample = Sample(ts: real, energyMj: Option<real>)

  datatype Reading = Reading(ts: real, mj: real)

  datatype Request = Request(
    promptTokens: int, completionTokens: int, tStart: Option<real>, tEnd: Option<real>)

  predicate NoLater(a: Reading, b: Reading) {
    a.ts <= b.ts
  }

  function CounterReadings(samples: seq<Sample>): (r: seq<Reading>) {
    if samples == [] then []
    else
      (if samples[0].energyMj.Some? then [Reading(samples[0].ts, samples[0].energyMj.value)] else [])
      + CounterReadings(samples[1..])
  }

  function SortedReadings(samples: seq<Sample>): (r: seq<Reading>)
    ensures Sorted(r, NoLater)
    ensures |r| == |CounterReadings(samples)|
  {
    SortSorts(CounterReadings(samples), NoLater);
    Sort(CounterReadings(samples), NoLater)
  }

  /** bisect_left: the first position at or after `from` whose time is not before `ts`. */
  function BisectLeft(rs: seq<Reading>, ts: real, from: nat): (i: nat)
    requires from <= |rs| && Sorted(rs, NoLater)
    requires forall j :: 0 <= j < from ==> rs[j].ts < ts
    ensures from <= i <= |rs|
    ensures forall j :: 0 <= j < i ==> rs[j].ts < ts
    ensures forall j :: i <= j < |rs| ==> rs[j].ts >= ts
    decreases |rs| - from
  {
    if from == |rs| then from
    else if rs[from].ts < ts then BisectLeft(rs, ts, from + 1)
    else
      assert forall j :: from < j < |rs| ==> NoLater(rs[from], rs[j]);
      from
  }

  function OnSegment(ts: real, a: Reading, b: Reading): real
    requires a.ts < b.ts
  {
    var frac := (ts - a.ts) / (b.ts - a.ts);
    a.mj + frac * (b.mj - a.mj)
  }

  /** The division is by a positive time difference even when timestamps repeat. */
  function Interpolate(ts: real, rs: seq<Reading>): (e: Option<real>)
    requires |rs| > 0 && Sorted(rs, NoLater)
    ensures e.Some? <==> InRange(ts, rs)
  {
    if ts < rs[0].ts || ts > rs[|rs| - 1].ts then None
    else
      var idx := BisectLeft(rs, ts, 0);
      if rs[idx].ts == ts then Some(rs[idx].mj)
      else
        Some(OnSegment(ts, rs[idx - 1], rs[idx]))
  }

  predicate InRange(ts: real, rs: seq<Reading>)
    requires |rs| > 0
  {
    rs[0].ts <= ts <= rs[|rs| - 1].ts
  }

  function ItemEnergy(request: Request, rs: seq<Reading>): (e: Option<real>)
    requires |rs| > 0 && Sorted(rs, NoLater)
    ensures e.Some? ==> e.value >= 0.0
  {
    if request.tStart.None? || request.tEnd.None? then None
    else
      var start, end := Interpolate(request.tStart.value, rs), Interpolate(request.tEnd.value, rs);
      if start.None? || end.None? then None
      else
        var joules := (end.value - start.value) / 1000.0;
        if joules >= 0.0 then Some(joules) else None
  }

  function Energies(requests: seq<Request>, rs: seq<Reading>): (r: seq<Option<real>>)
    requires |rs| > 0 && Sorted(rs, NoLater)
    ensures |r| == |requests|
    ensures forall i :: 0 <= i < |requests| ==> r[i] == ItemEnergy(requests[i], rs)
  {
    seq(|requests|, i requires 0 <= i < |requests| => ItemEnergy(requests[i], rs))
  }

  function ItemEnergies(samples: seq<Sample>, requests: seq<Request>): (r: seq<Option<real>>)
    ensures |r| == |requests|
  {
    var rs := SortedReadings(samples);
    if |rs| < 2 then seq(|requests|, _ => None)
    else Energies(requests, rs)
  }

  /** The run's own counter total: last reading minus first, in sample order; None when unusable. */
  function CounterEnergy(samples: seq<Sample>): (j: Option<real>)
    ensures
      var rs := CounterReadings(samples);
      && (j.Some? <==> |rs| >= 2 && rs[0].mj <= rs[|rs| - 1].mj)
      && (j.Some? ==> j.value >= 0.0 && rs[0].mj + 1000.0 * j.value == rs[|rs| - 1].mj)
  {
    var rs := CounterReadings(samples);
    if |rs| < 2 then None
    else
      var joules := (rs[|rs| - 1].mj - rs[0].mj) / 1000.0;
      if joules < 0.0 then None else Some(joules)
  }

  /** counter_vs_integration_pct_diff: how far the integrated power is from a positive counter. */
  function PctDiff(counter: Option<real>, integrated: real): Option<real> {
    if counter.None? || counter.value <= 0.0 then None
    else Some(100.0 * (integrated - counter.value) / counter.value)
  }

  /** The difference is reported exactly for a counter that gained, and the integrated total can be
      recovered from the counter and the percentage; it is 0 exactly when the two agree. */
  lemma {:induction false} PctDiffMeaning(samples: seq<Sample>, integrated: real)
    ensures
      var rs, counter := CounterReadings(samples), CounterEnergy(samples);
      var pct := PctDiff(counter, integrated);
      && (pct.Some? <==> |rs| >= 2 && rs[0].mj < rs[|rs| - 1].mj)
      && (pct.Some? ==> counter.value + counter.value * pct.value / 100.0 == integrated)
      && (pct.Some? ==> (pct.value == 0.0 <==> integrated == counter.value))
  {
    var counter := CounterEnergy(samples);
    hide CounterReadings, CounterEnergy;
    if counter.Some? && counter.value > 0.0 {
      PercentRecovers(counter.value, integrated, 100.0 * (integrated - counter.value) / counter.value);
    }
  }

  lemma {:induction false} PercentRecovers(j: real, total: real, pct: real)
    requires j > 0.0 && pct == 100.0 * (total - j) / j
    ensures j + j * pct / 100.0 == total
    ensures pct == 0.0 <==> total == j
  {
    assert j * pct == 100.0 * (total - j);
  }

  /** How many samples carry a counter value. */
  function Metered(samples: seq<Sample>): nat {
    if samples == [] then 0 else (if samples[0].energyMj.Some? then 1 else 0) + Metered(samples[1..])
  }

  lemma {:induction false} ReadingsStep(samples: seq<Sample>)
    requires samples != []
    ensures
      var rs, rest := CounterReadings(samples), CounterReadings(samples[1..]);
      && (samples[0].energyMj.None? ==> rs == rest && Metered(samples) == Metered(samples[1..]))
      && (samples[0].energyMj.Some? ==>
            && rs == [rs[0]] + rest && Metered(samples) == 1 + Metered(samples[1..])
            && rs[0] == Reading(samples[0].ts, samples[0].energyMj.value))
  {
  }

  /** The readings are as many as the samples with a counter value, and each such sample stands after
      the readings of those before it, with its own time and value. */
  lemma {:induction false} ReadingsAreSamples(samples: seq<Sample>, i: nat)
    ensures |CounterReadings(samples)| == Metered(samples)
    ensures i < |samples| && samples[i].energyMj.Some? ==>
      var rs, k := CounterReadings(samples), Metered(samples[..i]);
      k < |rs| && rs[k].ts == samples[i].ts && Some(rs[k].mj) == samples[i].energyMj
  {
    if samples != [] {
      ReadingsStep(samples);
      ReadingsAreSamples(samples[1..], if i > 0 then i - 1 else 0);
      hide CounterReadings;
      if 0 < i < |samples| {
        assert samples[..i][1..] == samples[1..][..i - 1];
      }
    }
  }

  /** Exactly when a request gets an energy: at least two readings, both its times known and inside
      the sampled range, and a counter that does not fall in between; then it is the rise in joules. */
  lemma {:induction false} AttributedIff(samples: seq<Sample>, requests: seq<Request>, i: nat)
    requires i < |requests|
    ensures
      var q, e, rs := requests[i], ItemEnergies(samples, requests)[i], SortedReadings(samples);
      && (e.Some? <==>
            && |CounterReadings(samples)| >= 2
            && q.tStart.Some? && q.tEnd.Some?
            && InRange(q.tStart.value, rs) && InRange(q.tEnd.value, rs)
            && Interpolate(q.tStart.value, rs).value <= Interpolate(q.tEnd.value, rs).value)
      && (e.Some? ==>
            1000.0 * e.value == Interpolate(q.tEnd.value, rs).value - Interpolate(q.tStart.value, rs).value)
  {
    hide Interpolate, SortedReadings, CounterReadings;
    var rs := SortedReadings(samples);
    if |rs| >= 2 {
      assert ItemEnergies(samples, requests)[i] == ItemEnergy(requests[i], rs);
    }
  }

  /** What interpolation reads: nothing outside the sampled range; between two neighbouring
      readings, the point of the straight line through them. */
  lemma {:induction false} InterpolateIsLinear(ts: real, rs: seq<Reading>, k: nat)
    requires k + 1 < |rs| && Sorted(rs, NoLater) && rs[k].ts < ts < rs[k + 1].ts
    ensures Interpolate(ts, rs).Some?
    ensures (Interpolate(ts, rs).value - rs[k].mj) * (rs[k + 1].ts - rs[k].ts) ==
      (ts - rs[k].ts) * (rs[k + 1].mj - rs[k].mj)
  {
    var idx := BisectLeft(rs, ts, 0);
    assert idx == k + 1;
    assert k > 0 ==> NoLater(rs[0], rs[k]);
    assert k + 1 < |rs| - 1 ==> NoLater(rs[k + 1], rs[|rs| - 1]);
    OnSegmentIsLinear(ts - rs[k].ts, rs[k + 1].ts - rs[k].ts, rs[k + 1].mj - rs[k].mj,
      OnSegment(ts, rs[k], rs[k + 1]) - rs[k].mj);
  }

  lemma {:induction false} OnSegmentIsLinear(x: real, d: real, rise: real, y: real)
    requires d > 0.0 && y == x / d * rise
    ensures y * d == x * rise
  {
    var f := x / d;
    assert f * d == x;
  }

  // ------------------------------------------------------------ interpolation is monotone

  ghost predicate Nondecreasing(rs: seq<Reading>) {
    forall i, j :: 0 <= i < j < |rs| ==> rs[i].mj <= rs[j].mj
  }

  lemma {:induction false} OnSegmentMonotone(t: real, u: real, a: Reading, b: Reading)
    requires a.ts <= t <= u <= b.ts && a.ts < b.ts && a.mj <= b.mj
    ensures a.mj <= OnSegment(t, a, b) <= OnSegment(u, a, b) <= b.mj
  {
    var d, rise := b.ts - a.ts, b.mj - a.mj;
    var f, g := (t - a.ts) / d, (u - a.ts) / d;
    assert OnSegment(t, a, b) == a.mj + f * rise && OnSegment(u, a, b) == a.mj + g * rise;
    FractionOfRise(t - a.ts, d, rise);
    FractionOfRise(u - a.ts, d, rise);
    DivKeepsOrder(t - a.ts, u - a.ts, d);
    MulKeepsOrderWeakly(rise, f, g);
  }

  /** Between its two neighbouring readings the interpolated value lies between their energies. */
  lemma {:induction false} InterpolateBetween(ts: real, rs: seq<Reading>)
    requires |rs| > 0 && Sorted(rs, NoLater) && Nondecreasing(rs) && InRange(ts, rs)
    ensures BisectLeft(rs, ts, 0) < |rs|
    ensures rs[0].mj <= Interpolate(ts, rs).value <= rs[BisectLeft(rs, ts, 0)].mj
    ensures BisectLeft(rs, ts, 0) > 0 ==> rs[BisectLeft(rs, ts, 0) - 1].mj <= Interpolate(ts, rs).value
  {
    var idx := BisectLeft(rs, ts, 0);
    if rs[idx].ts != ts {
      OnSegmentMonotone(ts, ts, rs[idx - 1], rs[idx]);
    }
  }

  /** A later time never reads a smaller energy. */
  lemma {:induction false} InterpolateMonotone(t: real, u: real, rs: seq<Reading>)
    requires |rs| > 0 && Sorted(rs, NoLater) && Nondecreasing(rs)
    requires t <= u && InRange(t, rs) && InRange(u, rs)
    ensures Interpolate(t, rs).value <= Interpolate(u, rs).value
  {
    var i, j := BisectLeft(rs, t, 0), BisectLeft(rs, u, 0);
    InterpolateBetween(t, rs);
    InterpolateBetween(u, rs);
    assert i <= j;
    if i < j {
      assert rs[i].mj <= rs[j - 1].mj;
    } else if rs[i].ts != t {
      OnSegmentMonotone(t, u, rs[i - 1], rs[i]);
    }
  }

  // ------------------------------------------------------------ conservation

  function TotalKnown(energies: seq<Option<real>>): (t: real) {
    if energies == [] then 0.0
    else (if energies[0].Some? then energies[0].value else 0.0) + TotalKnown(energies[1..])
  }

  /** Timed requests run one after another inside [from, until]; untimed ones are ignored. */
  ghost predicate Serialized(requests: seq<Request>, from: real, until: real) {
    if requests == [] then from <= until
    else if requests[0].tStart.None? || requests[0].tEnd.None? then Serialized(requests[1..], from, until)
    else
      && from <= requests[0].tStart.value <= requests[0].tEnd.value
      && Serialized(requests[1..], requests[0].tEnd.value, until)
  }

  /** Every request is timed and each starts where the one before ended. */
  ghost predicate Tiles(requests: seq<Request>, from: real, until: real) {
    if requests == [] then from == until
    else
      && requests[0].tStart == Some(from) && requests[0].tEnd.Some? && from <= requests[0].tEnd.value
      && Tiles(requests[1..], requests[0].tEnd.value, until)
  }

  lemma {:induction false} SerializedBound(requests: seq<Request>, from: real, until: real)
    requires Serialized(requests, from, until)
    ensures from <= until
  {
    if requests != [] {
      var timed := requests[0].tStart.Some? && requests[0].tEnd.Some?;
      SerializedBound(requests[1..], if timed then requests[0].tEnd.value else from, until);
    }
  }

  /** Telescoping: serialized windows never claim more than the counter gained over their span. */
  lemma {:induction false} SerializedTotal(requests: seq<Request>, rs: seq<Reading>, from: real, until: real)
    requires |rs| > 0 && Sorted(rs, NoLater) && Nondecreasing(rs)
    requires InRange(from, rs) && InRange(until, rs) && Serialized(requests, from, until)
    ensures forall i :: 0 <= i < |requests| && requests[i].tStart.Some? && requests[i].tEnd.Some? ==>
      Energies(requests, rs)[i].Some?
    ensures TotalKnown(Energies(requests, rs)) <=
      (Interpolate(until, rs).value - Interpolate(from, rs).value) / 1000.0
    ensures Tiles(requests, from, until) ==>
      TotalKnown(Energies(requests, rs)) == (Interpolate(until, rs).value - Interpolate(from, rs).value) / 1000.0
  {
    SerializedBound(requests, from, until);
    if requests == [] {
      InterpolateMonotone(from, until, rs);
    } else {
      var q, rest := requests[0], requests[1..];
      assert Energies(requests, rs)[1..] == Energies(rest, rs);
      if q.tStart.None? || q.tEnd.None? {
        SerializedTotal(rest, rs, from, until);
      } else {
        SerializedBound(rest, q.tEnd.value, until);
        SerializedTotal(rest, rs, q.tEnd.value, until);
        InterpolateMonotone(from, q.tStart.value, rs);
        InterpolateMonotone(q.tStart.value, q.tEnd.value, rs);
      }
      forall i | 0 <= i < |requests| && requests[i].tStart.Some? && requests[i].tEnd.Some?
        ensures Energies(requests, rs)[i].Some?
      {
        if i > 0 {
          assert requests[i] == rest[i - 1] && Energies(requests, rs)[i] == Energies(rest, rs)[i - 1];
        }
      }
    }
  }

  /** The counter only grows along a time-ordered telemetry trace. */
  ghost predicate GrowingCounter(samples: seq<Sample>) {
    var rs := CounterReadings(samples);
    |rs| >= 2 && Sorted(rs, NoLater) && Nondecreasing(rs)
  }

  function CounterStart(samples: seq<Sample>): real
    requires |CounterReadings(samples)| >= 2
  {
    CounterReadings(samples)[0].ts
  }

  function CounterEnd(samples: seq<Sample>): real
    requires |CounterReadings(samples)| >= 2
  {
    var rs := CounterReadings(samples);
    rs[|rs| - 1].ts
  }

  /** Serialized requests never add up to more than the run's counter energy. */
  lemma {:induction false} AttributionIsConservative(samples: seq<Sample>, requests: seq<Request>)
    requires GrowingCounter(samples)
    requires Serialized(requests, CounterStart(samples), CounterEnd(samples))
    ensures CounterEnergy(samples).Some?
    ensures forall i :: 0 <= i < |requests| && requests[i].tStart.Some? && requests[i].tEnd.Some? ==>
      ItemEnergies(samples, requests)[i].Some? && ItemEnergies(samples, requests)[i].value >= 0.0
    ensures TotalKnown(ItemEnergies(samples, requests)) <= CounterEnergy(samples).value
  {
    var rs := CounterReadings(samples);
    SortKeepsSorted(rs, NoLater);
    var from, until := CounterStart(samples), CounterEnd(samples);
    SerializedBound(requests, from, until);
    SerializedTotal(requests, rs, from, until);
    InterpolateBetween(from, rs);
    InterpolateBetween(until, rs);
    assert rs[BisectLeft(rs, until, 0)].mj <= rs[|rs| - 1].mj;
    assert rs[0].mj <= rs[|rs| - 1].mj;
  }

  /** At a sampled instant the first reading with that timestamp is read. */
  lemma {:induction false} InterpolateAtReading(rs: seq<Reading>, k: nat)
    requires k < |rs| && Sorted(rs, NoLater)
    ensures BisectLeft(rs, rs[k].ts, 0) <= k
    ensures Interpolate(rs[k].ts, rs) == Some(rs[BisectLeft(rs, rs[k].ts, 0)].mj)
  {
    var idx := BisectLeft(rs, rs[k].ts, 0);
    assert idx < k ==> NoLater(rs[idx], rs[k]);
    assert 0 < k ==> NoLater(rs[0], rs[k]);
    assert k < |rs| - 1 ==> NoLater(rs[k], rs[|rs| - 1]);
  }

  /** Requests that tile the sampled range add up to the counter energy exactly when the first
      reading at the final timestamp already carries the final energy: interpolation reads the
      first of several readings that share a timestamp, the run total reads the last. */
  lemma {:induction false} TilingIsExact(samples: seq<Sample>, requests: seq<Request>)
    requires GrowingCounter(samples)
    requires Tiles(requests, CounterStart(samples), CounterEnd(samples))
    ensures
      var rs := CounterReadings(samples);
      TotalKnown(ItemEnergies(samples, requests)) == CounterEnergy(samples).value <==>
      rs[BisectLeft(rs, CounterEnd(samples), 0)].mj == rs[|rs| - 1].mj
  {
    hide Interpolate, BisectLeft, Serialized, Tiles, TotalKnown, CounterReadings, Sort, ItemEnergy, Energies;
    var rs := CounterReadings(samples);
    SortKeepsSorted(rs, NoLater);
    var from, until := CounterStart(samples), CounterEnd(samples);
    TilesAreSerialized(requests, from, until);
    SerializedTotal(requests, rs, from, until);
    AttributionIsConservative(samples, requests);
    InterpolateAtReading(rs, 0);
    InterpolateAtReading(rs, |rs| - 1);
  }

  lemma {:induction false} TilesAreSerialized(requests: seq<Request>, from: real, until: real)
    requires Tiles(requests, from, until)
    ensures Serialized(requests, from, until)
  {
    if requests != [] {
      TilesAreSerialized(requests[1..], requests[0].tEnd.value, until);
    }
  }

  /** The equality can fail: two readings at the last instant, one window over the whole range. */
  lemma {:induction false} TilingCanFallShort()
    ensures
      var samples := [Sample(0.0, Some(0.0)), Sample(1.0, Some(1000.0)), Sample(1.0, Some(3000.0))];
      var requests := [Request(1, 1, Some(0.0), Some(1.0))];
      && GrowingCounter(samples)
      && Tiles(requests, CounterStart(samples), CounterEnd(samples))
      && TotalKnown(ItemEnergies(samples, requests)) < CounterEnergy(samples).value
  {
    var samples := [Sample(0.0, Some(0.0)), Sample(1.0, Some(1000.0)), Sample(1.0, Some(3000.0))];
    var requests := [Request(1, 1, Some(0.0), Some(1.0))];
    var rs := [Reading(0.0, 0.0), Reading(1.0, 1000.0), Reading(1.0, 3000.0)];
    assert samples[1..][1..] == [samples[2]];
    assert samples[1..][1..][1..] == [];
    assert CounterReadings(samples) == rs;
    assert requests[1..] == [];
    assert Tiles(requests, 0.0, 1.0);
    assert BisectLeft(rs, 1.0, 0) == 1;
    TilingIsExact(samples, requests);
    AttributionIsConservative(samples, requests) by {
      TilesAreSerialized(requests, 0.0, 1.0);
    }
  }
}
