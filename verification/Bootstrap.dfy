/** Bootstrap interval on joules per correct answer (bench/metrics/stats.py). */
module Bootstrap {
  import opened Basics
  import opened Sorting
  import opened EnergyAttribution
  import opened Statistics

  const MAX_INVALID_FRACTION: real := 0.05

  function Sum(xs: seq<real>): real {
    if xs == [] then 0.0 else Sum(xs[..|xs| - 1]) + xs[|xs| - 1]
  }

  datatype Pair = Pair(energy: real, correct: real)

  /** Items with both an energy and a score. */
  function Attributable(energies: seq<Option<real>>, corrects: seq<Option<real>>): seq<Pair> {
    if energies == [] || corrects == [] then []
    else
      (if energies[0].Some? && corrects[0].Some? then [Pair(energies[0].value, corrects[0].value)] else [])
      + Attributable(energies[1..], corrects[1..])
  }

  function EnergiesOf(ps: seq<Pair>): (r: seq<real>)
    ensures |r| == |ps| && forall i :: 0 <= i < |ps| ==> r[i] == ps[i].energy
  {
    seq(|ps|, i requires 0 <= i < |ps| => ps[i].energy)
  }

  function ScoresOf(ps: seq<Pair>): (r: seq<real>)
    ensures |r| == |ps| && forall i :: 0 <= i < |ps| ==> r[i] == ps[i].correct
  {
    seq(|ps|, i requires 0 <= i < |ps| => ps[i].correct)
  }

  function Shifted(xs: seq<real>, c: real): (r: seq<real>)
    ensures |r| == |xs| && forall i :: 0 <= i < |xs| ==> r[i] == xs[i] + c
  {
    seq(|xs|, i requires 0 <= i < |xs| => xs[i] + c)
  }

  /** The non-attributed remainder, spread evenly over the items. */
  function RemainderShare(ps: seq<Pair>, total: real): real
    requires ps != []
  {
    (total - Sum(EnergiesOf(ps))) / |ps| as real
  }

  function FullEnergies(ps: seq<Pair>, total: real): (r: seq<real>)
    requires ps != []
    ensures |r| == |ps|
  {
    Shifted(EnergiesOf(ps), RemainderShare(ps, total))
  }

  function Picked(xs: seq<real>, draw: seq<nat>): (r: seq<real>)
    requires forall i :: 0 <= i < |draw| ==> draw[i] < |xs|
    ensures |r| == |draw| && forall i :: 0 <= i < |draw| ==> r[i] == xs[draw[i]]
  {
    seq(|draw|, i requires 0 <= i < |draw| => xs[draw[i]])
  }

  ghost predicate ValidDraws(draws: seq<seq<nat>>, m: nat) {
    forall k :: 0 <= k < |draws| ==> ValidDraw(draws[k], m)
  }

  ghost predicate ValidDraw(draw: seq<nat>, m: nat) {
    |draw| == m && forall i :: 0 <= i < m ==> draw[i] < m
  }

  /** One ratio for every resample that scores at least one correct answer. */
  function Ratios(full: seq<real>, scores: seq<real>, draws: seq<seq<nat>>): (r: seq<real>)
    requires |full| == |scores| && ValidDraws(draws, |full|)
    ensures |r| <= |draws|
  {
    if draws == [] then []
    else
      var before, draw := Ratios(full, scores, draws[..|draws| - 1]), draws[|draws| - 1];
      assert ValidDraw(draw, |full|);
      var correct := RoundHalfEven(Sum(Picked(scores, draw)));
      if correct >= 1 then before + [Sum(Picked(full, draw)) / correct as real] else before
  }

  predicate TooManyInvalid(invalid: nat, boots: nat)
    requires boots > 0
  {
    invalid as real / boots as real > MAX_INVALID_FRACTION
  }

  lemma {:induction false} OneInTwenty(invalid: nat, boots: nat)
    requires boots > 0
    ensures TooManyInvalid(invalid, boots) <==> 20 * invalid > boots
  {
    var q := invalid as real / boots as real;
    assert boots as real * q == invalid as real;
    MulKeepsOrder(boots as real, MAX_INVALID_FRACTION, q);
  }

  function Bounds(ratios: seq<real>): (real, real)
    requires ratios != []
  {
    var ordered := Sort(ratios, RealLe);
    (Percentile100(ordered, 2.5).value, Percentile100(ordered, 97.5).value)
  }

  function Summary(ratios: seq<real>, boots: nat): Option<(real, real)>
    requires boots > 0 && |ratios| <= boots
  {
    if TooManyInvalid(boots - |ratios|, boots) then None
    else
      OneInTwenty(boots - |ratios|, boots);
      Some(Bounds(ratios))
  }

  function Interval(ps: seq<Pair>, total: Option<real>, draws: seq<seq<nat>>): Option<(real, real)>
    requires draws != [] && ValidDraws(draws, |ps|)
  {
    if total.None? || ps == [] then None
    else Summary(Ratios(FullEnergies(ps, total.value), ScoresOf(ps), draws), |draws|)
  }

  /** The draws stand for the generator's output: any index lists of the right shape. */
  method BootstrapJpcCi(
      energies: seq<Option<real>>, corrects: seq<Option<real>>, total: Option<real>, draws: seq<seq<nat>>)
    returns (ci: Option<(real, real)>)
    requires draws != [] && ValidDraws(draws, |Attributable(energies, corrects)|)
    ensures ci == Interval(Attributable(energies, corrects), total, draws)
  {
    hide FullEnergies, ScoresOf, Attributable, Bounds, TooManyInvalid, ValidDraws, Ratios, RemainderShare;
    hide EnergiesOf, Shifted, Sum, Picked, RoundHalfEven, Sort, Percentile100, ValidDraw;
    var ps := Attributable(energies, corrects);
    if total.None? || |ps| == 0 {
      return None;
    }
    var full, scores := FullEnergies(ps, total.value), ScoresOf(ps);
    var ratios, invalid := Resample(full, scores, draws);
    OneInTwenty(invalid, |draws|);
    if TooManyInvalid(invalid, |draws|) {
      return None;
    }
    ci := Some(Bounds(ratios));
  }

  /** The resampling loop: a ratio per valid resample, and a count of the others. */
  method Resample(full: seq<real>, scores: seq<real>, draws: seq<seq<nat>>)
    returns (ratios: seq<real>, invalid: nat)
    requires |full| == |scores| && ValidDraws(draws, |full|)
    ensures ratios == Ratios(full, scores, draws) && invalid == |draws| - |ratios|
  {
    hide Sum, RoundHalfEven;
    ratios, invalid := [], 0;
    for k := 0 to |draws|
      invariant ratios == Ratios(full, scores, draws[..k]) && invalid == k - |ratios|
    {
      hide Picked;
      assert draws[..k + 1][..k] == draws[..k] && ValidDraw(draws[k], |full|);
      var energySum := Total(Picked(full, draws[k]));
      var score := Total(Picked(scores, draws[k]));
      var correct := RoundHalfEven(score);
      if correct >= 1 {
        ratios := ratios + [energySum / correct as real];
      } else {
        invalid := invalid + 1;
      }
    }
    assert draws[..|draws|] == draws;
  }

  method Total(xs: seq<real>) returns (sum: real)
    ensures sum == Sum(xs)
  {
    sum := 0.0;
    for i := 0 to |xs|
      invariant sum == Sum(xs[..i])
    {
      assert xs[..i + 1][..i] == xs[..i];
      sum := sum + xs[i];
    }
    assert xs[..|xs|] == xs;
  }

  // ------------------------------------------------------------ the energies add up

  lemma {:induction false} SumShifted(xs: seq<real>, c: real)
    ensures Sum(Shifted(xs, c)) == Sum(xs) + |xs| as real * c
  {
    if xs != [] {
      var n := |xs| - 1;
      SumShifted(xs[..n], c);
      assert Shifted(xs, c)[..n] == Shifted(xs[..n], c);
      assert |xs| as real == n as real + 1.0;
    }
  }

  /** Spreading the remainder makes the items sum to the run's measured total exactly, and every item
      is given the same share. */
  lemma {:induction false} FullEnergiesSumToTotal(ps: seq<Pair>, total: real)
    requires ps != []
    ensures Sum(FullEnergies(ps, total)) == total
    ensures forall i, j :: 0 <= i < j < |ps| ==>
      FullEnergies(ps, total)[i] - ps[i].energy == FullEnergies(ps, total)[j] - ps[j].energy
  {
    var share, m := RemainderShare(ps, total), |ps| as real;
    SumShifted(EnergiesOf(ps), share);
    ShareTimesCount(total - Sum(EnergiesOf(ps)), m, share);
  }

  lemma {:induction false} ShareTimesCount(rest: real, m: real, share: real)
    requires m > 0.0 && share == rest / m
    ensures m * share == rest
  {
  }

  ghost predicate Nonnegative(xs: seq<real>) {
    forall i :: 0 <= i < |xs| ==> xs[i] >= 0.0
  }

  lemma {:induction false} SumNonnegative(xs: seq<real>)
    requires Nonnegative(xs)
    ensures Sum(xs) >= 0.0
  {
    if xs != [] {
      SumNonnegative(xs[..|xs| - 1]);
    }
  }

  lemma {:induction false} SumAppend(a: seq<real>, b: seq<real>)
    ensures Sum(a + b) == Sum(a) + Sum(b)
  {
    if b == [] {
      assert a + b == a;
    } else {
      assert (a + b)[..|a + b| - 1] == a + b[..|b| - 1];
      SumAppend(a, b[..|b| - 1]);
    }
  }

  /** Dropping unscored items can only lower the attributed sum. */
  lemma {:induction false} AttributedAtMostKnown(energies: seq<Option<real>>, corrects: seq<Option<real>>)
    requires forall i :: 0 <= i < |energies| && energies[i].Some? ==> energies[i].value >= 0.0
    ensures Sum(EnergiesOf(Attributable(energies, corrects))) <= TotalKnown(energies)
    ensures Nonnegative(EnergiesOf(Attributable(energies, corrects)))
    ensures TotalKnown(energies) >= 0.0
  {
    if energies != [] {
      var more := if corrects == [] then [] else corrects[1..];
      AttributedAtMostKnown(energies[1..], more);
      if corrects != [] && energies[0].Some? && corrects[0].Some? {
        PrependPair(Pair(energies[0].value, corrects[0].value), Attributable(energies[1..], more));
      } else if corrects != [] {
        assert [] + Attributable(energies[1..], more) == Attributable(energies[1..], more);
      }
      hide Sum, EnergiesOf;
    }
  }

  lemma {:induction false} PrependPair(p: Pair, rest: seq<Pair>)
    ensures Sum(EnergiesOf([p] + rest)) == p.energy + Sum(EnergiesOf(rest))
    ensures p.energy >= 0.0 && Nonnegative(EnergiesOf(rest)) ==> Nonnegative(EnergiesOf([p] + rest))
  {
    assert EnergiesOf([p] + rest) == [p.energy] + EnergiesOf(rest);
    SumAppend([p.energy], EnergiesOf(rest));
    assert [p.energy][..0] == [];
  }

  /** For serialized requests over a growing counter the remainder is never negative, so no item is
      given a negative energy. */
  lemma {:induction false} RemainderIsNonnegative(
      samples: seq<Sample>, requests: seq<Request>, corrects: seq<Option<real>>)
    requires GrowingCounter(samples)
    requires Serialized(requests, CounterStart(samples), CounterEnd(samples))
    requires Attributable(ItemEnergies(samples, requests), corrects) != []
    ensures
      var ps := Attributable(ItemEnergies(samples, requests), corrects);
      && RemainderShare(ps, CounterEnergy(samples).value) >= 0.0
      && Nonnegative(FullEnergies(ps, CounterEnergy(samples).value))
  {
    hide Serialized, GrowingCounter, CounterEnergy, CounterStart, CounterEnd;
    hide ItemEnergies, Attributable, TotalKnown, Sum;
    AttributionIsConservative(samples, requests);
    var energies := ItemEnergies(samples, requests);
    KnownAreNonnegative(samples, requests);
    AttributedAtMostKnown(energies, corrects);
    var ps, total := Attributable(energies, corrects), CounterEnergy(samples).value;
    DivKeepsOrder(0.0, total - Sum(EnergiesOf(ps)), |ps| as real);
  }

  lemma {:induction false} KnownAreNonnegative(samples: seq<Sample>, requests: seq<Request>)
    ensures forall i :: 0 <= i < |requests| && ItemEnergies(samples, requests)[i].Some? ==>
      ItemEnergies(samples, requests)[i].value >= 0.0
  {
  }

  // ------------------------------------------------------------ what is resampled

  /** How many items have both an energy and a score. */
  function Both(energies: seq<Option<real>>, corrects: seq<Option<real>>): nat {
    if energies == [] || corrects == [] then 0
    else (if energies[0].Some? && corrects[0].Some? then 1 else 0) + Both(energies[1..], corrects[1..])
  }

  /** The pairs are as many as the items with both, and each such item stands after the pairs of
      those before it, with its own energy and score. */
  lemma {:induction false} PairsAreItems(energies: seq<Option<real>>, corrects: seq<Option<real>>, i: nat)
    ensures |Attributable(energies, corrects)| == Both(energies, corrects)
    ensures i < |energies| && i < |corrects| && energies[i].Some? && corrects[i].Some? ==>
      var ps, k := Attributable(energies, corrects), Both(energies[..i], corrects[..i]);
      k < |ps| && Some(ps[k].energy) == energies[i] && Some(ps[k].correct) == corrects[i]
  {
    if energies != [] && corrects != [] {
      PairsAreItems(energies[1..], corrects[1..], if i > 0 then i - 1 else 0);
      if 0 < i < |energies| && i < |corrects| {
        assert energies[..i][1..] == energies[1..][..i - 1] && corrects[..i][1..] == corrects[1..][..i - 1];
      }
    }
  }

  /** How many correct answers a resample holds. */
  function CorrectIn(scores: seq<real>, draw: seq<nat>): int
    requires ValidDraw(draw, |scores|)
  {
    RoundHalfEven(Sum(Picked(scores, draw)))
  }

  /** How many resamples hold at least one. */
  function Scoring(scores: seq<real>, draws: seq<seq<nat>>): nat
    requires ValidDraws(draws, |scores|)
  {
    if draws == [] then 0
    else
      assert ValidDraw(draws[|draws| - 1], |scores|);
      Scoring(scores, draws[..|draws| - 1]) + if CorrectIn(scores, draws[|draws| - 1]) >= 1 then 1 else 0
  }

  /** This is a resample's energy per correct answer. */
  ghost predicate RatioOf(ratio: real, full: seq<real>, scores: seq<real>, draw: seq<nat>)
    requires |full| == |scores| && ValidDraw(draw, |full|)
  {
    ratio * CorrectIn(scores, draw) as real == Sum(Picked(full, draw))
  }

  lemma {:induction false} RatioStep(full: seq<real>, scores: seq<real>, draws: seq<seq<nat>>)
    requires |full| == |scores| && ValidDraws(draws, |full|) && draws != []
    ensures
      var n := |draws| - 1;
      var before, ratios := Ratios(full, scores, draws[..n]), Ratios(full, scores, draws);
      && ValidDraw(draws[n], |full|)
      && (CorrectIn(scores, draws[n]) < 1 ==> ratios == before)
      && (CorrectIn(scores, draws[n]) >= 1 ==>
            && |ratios| == |before| + 1 && ratios[..|before|] == before
            && RatioOf(ratios[|before|], full, scores, draws[n]))
  {
    hide Sum, Picked, RoundHalfEven;
    var draw := draws[|draws| - 1];
    assert ValidDraw(draw, |full|);
    if CorrectIn(scores, draw) >= 1 {
      RatioTimes(Sum(Picked(full, draw)), CorrectIn(scores, draw) as real);
    }
  }

  /** The ratios are as many as the resamples with a correct answer, and each of those stands after
      the ratios of those before it. */
  lemma {:induction false} RatiosAreJoulesPerCorrect(
      full: seq<real>, scores: seq<real>, draws: seq<seq<nat>>, i: nat)
    requires |full| == |scores| && ValidDraws(draws, |full|)
    ensures |Ratios(full, scores, draws)| == Scoring(scores, draws)
    ensures i < |draws| ==> ValidDraw(draws[i], |full|)
    ensures i < |draws| && CorrectIn(scores, draws[i]) >= 1 ==>
      var ratios, k := Ratios(full, scores, draws), Scoring(scores, draws[..i]);
      k < |ratios| && RatioOf(ratios[k], full, scores, draws[i])
  {
    if draws != [] {
      var n := |draws| - 1;
      RatioStep(full, scores, draws);
      RatiosAreJoulesPerCorrect(full, scores, draws[..n], i);
      hide Ratios, CorrectIn, RatioOf, ValidDraw;
      if i < n {
        assert draws[..n][..i] == draws[..i];
      }
    }
  }

  // ------------------------------------------------------------ the interval

  lemma {:induction false} RatiosNonnegative(full: seq<real>, scores: seq<real>, draws: seq<seq<nat>>)
    requires |full| == |scores| && ValidDraws(draws, |full|) && Nonnegative(full)
    ensures Nonnegative(Ratios(full, scores, draws))
  {
    if draws != [] {
      RatiosNonnegative(full, scores, draws[..|draws| - 1]);
      var draw := draws[|draws| - 1];
      assert ValidDraw(draw, |full|);
      SumNonnegative(Picked(full, draw));
      var correct := RoundHalfEven(Sum(Picked(scores, draw)));
      if correct >= 1 {
        DivKeepsOrder(0.0, Sum(Picked(full, draw)), correct as real);
      }
    }
  }

  /** A reported interval is ordered and lies within the resampled ratios. */
  lemma {:induction false} SummaryLaws(ratios: seq<real>, boots: nat)
    requires boots > 0 && |ratios| <= boots && Summary(ratios, boots).Some?
    ensures Summary(ratios, boots).value.0 <= Summary(ratios, boots).value.1
    ensures Nonnegative(ratios) ==> Summary(ratios, boots).value.0 >= 0.0
    ensures ratios != []
  {
    var ordered := Sort(ratios, RealLe);
    RealOrder();
    SortSorts(ratios, RealLe);
    SameElements(ordered, ratios);
    PercentilesAgree(ordered, 2.5);
    PercentilesAgree(ordered, 97.5);
    assert ratios != [];
    PercentileLaws(ordered, 2.5 / 100.0, 97.5 / 100.0);
    assert ordered[0] in ratios;
  }

  /** A reported interval runs from the 2.5th to the 97.5th percentile of the resamples' ratios, put
      in ascending order. */
  lemma {:induction false} IntervalIsPercentiles(
      ps: seq<Pair>, total: Option<real>, draws: seq<seq<nat>>, ordered: seq<real>)
    requires draws != [] && ValidDraws(draws, |ps|) && Interval(ps, total, draws).Some?
    requires Sorted(ordered, RealLe)
    requires total.Some? && ps != [] ==>
      multiset(ordered) == multiset(Ratios(FullEnergies(ps, total.value), ScoresOf(ps), draws))
    ensures total.Some? && ps != []
    ensures Some(Interval(ps, total, draws).value.0) == Percentile(ordered, 0.025)
    ensures Some(Interval(ps, total, draws).value.1) == Percentile(ordered, 0.975)
  {
    var ratios := Ratios(FullEnergies(ps, total.value), ScoresOf(ps), draws);
    hide Ratios, FullEnergies, ScoresOf;
    OneInTwenty(|draws| - |ratios|, |draws|);
    SortIsOrdered(ratios, ordered);
    PercentilesAgree(ordered, 2.5);
    PercentilesAgree(ordered, 97.5);
    hide Sort, Percentile, Percentile100;
  }

  /** The interval exists exactly when there is something to attribute and at most one resample in
      twenty scores nothing; then it is ordered, and non-negative on a sound energy trace. */
  lemma {:induction false} IntervalLaws(ps: seq<Pair>, total: real, draws: seq<seq<nat>>)
    requires ps != [] && draws != [] && ValidDraws(draws, |ps|)
    ensures
      var ratios := Ratios(FullEnergies(ps, total), ScoresOf(ps), draws);
      var ci := Interval(ps, Some(total), draws);
      && (ci.Some? <==> 20 * (|draws| - |ratios|) <= |draws|)
      && (ci.Some? ==> ci.value.0 <= ci.value.1)
      && (ci.Some? && Nonnegative(FullEnergies(ps, total)) ==> ci.value.0 >= 0.0)
  {
    var ratios := Ratios(FullEnergies(ps, total), ScoresOf(ps), draws);
    OneInTwenty(|draws| - |ratios|, |draws|);
    if Interval(ps, Some(total), draws).Some? {
      SummaryLaws(ratios, |draws|);
      if Nonnegative(FullEnergies(ps, total)) {
        RatiosNonnegative(FullEnergies(ps, total), ScoresOf(ps), draws);
      }
    }
  }
}
