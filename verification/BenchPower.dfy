/** The power limit across bench suites (bench/quick.py, bench/sampler.py). */
module BenchPower {
  import opened Basics

  // ------------------------------------------------------------ the ladder

  const POWER_SWEEP_CAPS_W: seq<real> := [0.85, 0.75, 0.65]

  /** The card's supported range in whole watts, when the driver reports it. */
  datatype Range = Range(min: int, max: int)

  function CapFor(fraction: real, stock: int, range: Option<Range>): int {
    var watts := RoundHalfEven(stock as real * fraction);
    if range.Some? then Max(range.value.min, Min(range.value.max, watts)) else watts
  }

  function LadderOf(n: nat, stock: int, range: Option<Range>): (caps: seq<int>)
    requires n <= |POWER_SWEEP_CAPS_W|
  {
    if n == 0 then []
    else
      var caps, watts := LadderOf(n - 1, stock, range), CapFor(POWER_SWEEP_CAPS_W[n - 1], stock, range);
      if watts >= stock || watts in caps then caps else caps + [watts]
  }

  function Ladder(stock: int, range: Option<Range>): seq<int> {
    LadderOf(|POWER_SWEEP_CAPS_W|, stock, range)
  }

  method DerivePowerSweepCaps(stock: int, range: Option<Range>) returns (caps: seq<int>)
    ensures caps == Ladder(stock, range)
  {
    hide CapFor;
    caps := [];
    for i := 0 to |POWER_SWEEP_CAPS_W|
      invariant caps == LadderOf(i, stock, range)
    {
      var watts := CapFor(POWER_SWEEP_CAPS_W[i], stock, range);
      if watts >= stock || watts in caps {
        continue;
      }
      caps := caps + [watts];
    }
  }

  lemma {:induction false} CapsDescend(k: nat, stock: int, range: Option<Range>)
    requires k + 1 < |POWER_SWEEP_CAPS_W| && stock >= 0
    ensures CapFor(POWER_SWEEP_CAPS_W[k + 1], stock, range) <= CapFor(POWER_SWEEP_CAPS_W[k], stock, range)
  {
    var s := stock as real;
    if k == 0 {
      RoundMonotone(s * 0.75, s * 0.85);
    } else {
      RoundMonotone(s * 0.65, s * 0.75);
    }
  }

  ghost predicate Descending(caps: seq<int>, stock: int, floor: int) {
    && (forall i, j :: 0 <= i < j < |caps| ==> caps[i] > caps[j])
    && (forall i :: 0 <= i < |caps| ==> floor <= caps[i] < stock)
  }

  lemma {:induction false} LadderDescends(n: nat, stock: int, range: Option<Range>)
    requires 0 < n <= |POWER_SWEEP_CAPS_W| && stock >= 0
    ensures Descending(LadderOf(n, stock, range), stock, CapFor(POWER_SWEEP_CAPS_W[n - 1], stock, range))
  {
    hide CapFor;
    if n == 1 {
      assert LadderOf(0, stock, range) == [];
    } else {
      LadderDescends(n - 1, stock, range);
      CapsDescend(n - 2, stock, range);
    }
  }

  lemma {:induction false} LadderFromFractions(n: nat, stock: int, range: Option<Range>, watts: int)
    requires n <= |POWER_SWEEP_CAPS_W| && watts in LadderOf(n, stock, range)
    ensures exists k :: 0 <= k < n && watts == CapFor(POWER_SWEEP_CAPS_W[k], stock, range)
  {
    hide CapFor;
    if n > 0 {
      if watts in LadderOf(n - 1, stock, range) {
        LadderFromFractions(n - 1, stock, range, watts);
      } else {
        assert watts == CapFor(POWER_SWEEP_CAPS_W[n - 1], stock, range);
      }
    }
  }

  /** The rungs strictly descend, lie below stock and fit the supported range, and they are exactly
      the distinct wattages of the fractions that come out below stock. */
  lemma {:induction false} LadderShape(stock: int, range: Option<Range>)
    requires stock >= 0
    ensures
      var caps := Ladder(stock, range);
      && |caps| <= |POWER_SWEEP_CAPS_W|
      && (forall i, j :: 0 <= i < j < |caps| ==> caps[i] > caps[j])
      && (forall watts :: watts in caps <==>
            && watts < stock
            && exists k :: 0 <= k < |POWER_SWEEP_CAPS_W| && watts == CapFor(POWER_SWEEP_CAPS_W[k], stock, range))
      && (range.Some? && range.value.min <= range.value.max ==>
            forall watts :: watts in caps ==> range.value.min <= watts <= range.value.max)
  {
    LadderDescends(|POWER_SWEEP_CAPS_W|, stock, range);
    var caps := Ladder(stock, range);
    forall watts | watts in caps
      ensures exists k :: 0 <= k < |POWER_SWEEP_CAPS_W| && watts == CapFor(POWER_SWEEP_CAPS_W[k], stock, range)
    {
      LadderFromFractions(|POWER_SWEEP_CAPS_W|, stock, range, watts);
    }
    forall k | 0 <= k < |POWER_SWEEP_CAPS_W| && CapFor(POWER_SWEEP_CAPS_W[k], stock, range) < stock
      ensures CapFor(POWER_SWEEP_CAPS_W[k], stock, range) in caps
    {
      LadderComplete(|POWER_SWEEP_CAPS_W|, stock, range, k);
    }
    LadderLength(|POWER_SWEEP_CAPS_W|, stock, range);
  }

  lemma {:induction false} LadderLength(n: nat, stock: int, range: Option<Range>)
    requires n <= |POWER_SWEEP_CAPS_W|
    ensures |LadderOf(n, stock, range)| <= n
  {
    if n > 0 {
      LadderLength(n - 1, stock, range);
    }
  }

  /** No rung is dropped needlessly: every fraction whose watts lie below stock is on the ladder. */
  lemma {:induction false} LadderComplete(n: nat, stock: int, range: Option<Range>, k: nat)
    requires k < n <= |POWER_SWEEP_CAPS_W| && CapFor(POWER_SWEEP_CAPS_W[k], stock, range) < stock
    ensures CapFor(POWER_SWEEP_CAPS_W[k], stock, range) in LadderOf(n, stock, range)
  {
    if k < n - 1 {
      LadderComplete(n - 1, stock, range, k);
    }
  }

  // ------------------------------------------------------------ the card through the sampler

  datatype Card = Card(defaultMw: nat, range: Range)

  /** How one limit write goes: refused, applied but unreadable afterwards, or confirmed. */
  datatype SetIo = Refused | Unconfirmed | Confirmed

  function Watts(mw: nat): nat {
    mw / 1000
  }

  function WholeWatts(mw: nat): nat {
    Watts(mw) * 1000
  }

  class LocalNvmlSampler {
    const card: Card
    var limitMw: nat

    constructor (card: Card, limitMw: nat)
      ensures this.card == card && this.limitMw == limitMw
    {
      this.card, this.limitMw := card, limitMw;
    }

    /** The whole watts within one watt below the limit; none exactly on a driver failure. */
    method GetPowerLimit(readable: bool) returns (watts: Option<nat>)
      ensures watts.Some? <==> readable
      ensures watts.Some? ==> watts.value * 1000 <= limitMw < (watts.value + 1) * 1000
    {
      watts := if readable then Some(limitMw / 1000) else None;
    }

    method GetPowerLimitDefault(readable: bool) returns (watts: Option<nat>)
      ensures watts.Some? <==> readable
      ensures watts.Some? ==> watts.value * 1000 <= card.defaultMw < (watts.value + 1) * 1000
    {
      watts := if readable then Some(card.defaultMw / 1000) else None;
    }

    method SetPowerLimit(watts: nat, io: SetIo) returns (confirmed: Option<nat>)
      modifies this
      ensures limitMw == if io == Refused then old(limitMw) else watts * 1000
      ensures confirmed == if io == Confirmed then Some(watts) else None
    {
      if io == Refused {
        return None;
      }
      limitMw := watts * 1000;
      if io == Unconfirmed {
        return None;
      }
      confirmed := Some(limitMw / 1000);
    }
  }

  // ------------------------------------------------------------ suites

  /** What the driver lets a sweep read, how many points it may measure, and how each cap's write
      goes; fewer writes than caps means a measurement raised or the process died there. */
  datatype Sweep = Sweep(
    defaultReadable: bool, currentReadable: bool, rangeReadable: bool, maxPoints: Option<nat>, writes: seq<SetIo>)

  datatype Ending = Finally(restore: SetIo) | HardKilled

  datatype Suite = Suite(
    restoreToDefault: bool, factoryReadable: bool, observedReadable: bool, sweep: Option<Sweep>, ending: Ending)

  /** The sweep's stock: the factory default, or the current limit when that cannot be read. */
  function StockOf(card: Card, limitMw: nat, sweep: Sweep): Option<nat> {
    if sweep.defaultReadable then Some(Watts(card.defaultMw))
    else if sweep.currentReadable then Some(Watts(limitMw))
    else None
  }

  function CapsOf(card: Card, limitMw: nat, sweep: Sweep): seq<int> {
    var stock := StockOf(card, limitMw, sweep);
    if stock.None? then []
    else
      var caps := Ladder(stock.value, if sweep.rangeReadable then Some(card.range) else None);
      if sweep.maxPoints.Some? && sweep.maxPoints.value < |caps| then caps[..sweep.maxPoints.value] else caps
  }

  /** The limit after trying these caps in order, stopping at the first that is not confirmed. */
  function AfterCaps(limitMw: int, caps: seq<int>, writes: seq<SetIo>): int
    decreases |caps|
  {
    if caps == [] || writes == [] then limitMw
    else
      match writes[0]
      case Refused => limitMw
      case Unconfirmed => caps[0] * 1000
      case Confirmed => AfterCaps(caps[0] * 1000, caps[1..], writes[1..])
  }

  function RestoreTarget(card: Card, limitMw: nat, suite: Suite): Option<nat> {
    var observed := if suite.observedReadable then Some(Watts(limitMw)) else None;
    var original := if suite.factoryReadable then Some(Watts(card.defaultMw)) else observed;
    if !suite.restoreToDefault && observed.Some? then observed else original
  }

  /** The limit just before the `finally`. */
  function Swept(card: Card, limitMw: nat, suite: Suite): int {
    if suite.sweep.None? then limitMw
    else AfterCaps(limitMw, CapsOf(card, limitMw, suite.sweep.value), suite.sweep.value.writes)
  }

  function AfterSuite(card: Card, limitMw: nat, suite: Suite): int {
    var swept := Swept(card, limitMw, suite);
    match suite.ending
    case HardKilled => swept
    case Finally(restore) =>
      var target := RestoreTarget(card, limitMw, suite);
      if target.None? || restore == Refused then swept else target.value * 1000
  }

  // ------------------------------------------------------------ the limits a card can be left at

  /** Rungs derived from the factory default, with the range known or unknown. */
  predicate Rung(card: Card, watts: int) {
    watts in Ladder(Watts(card.defaultMw), None) || watts in Ladder(Watts(card.defaultMw), Some(card.range))
  }

  predicate Allowed(card: Card, initial: nat, mw: int) {
    || mw == initial
    || mw == WholeWatts(initial)
    || mw == WholeWatts(card.defaultMw)
    || (mw % 1000 == 0 && Rung(card, mw / 1000))
  }

  predicate SaneCard(card: Card) {
    0 <= card.range.min <= card.range.max
  }

  lemma {:induction false} RungsNonnegative(stock: nat, range: Option<Range>)
    requires range.Some? ==> 0 <= range.value.min <= range.value.max
    ensures forall i :: 0 <= i < |Ladder(stock, range)| ==> Ladder(stock, range)[i] >= 0
  {
    LadderDescends(|POWER_SWEEP_CAPS_W|, stock, range);
    RoundMonotone(0.0, stock as real * 0.65);
    RoundExact(0);
  }

  lemma {:induction false} CapsAllowed(card: Card, initial: nat, limitMw: int, caps: seq<int>, writes: seq<SetIo>)
    requires Allowed(card, initial, limitMw) && limitMw >= 0
    requires forall i :: 0 <= i < |caps| ==> Rung(card, caps[i]) && caps[i] >= 0
    ensures Allowed(card, initial, AfterCaps(limitMw, caps, writes)) && AfterCaps(limitMw, caps, writes) >= 0
    decreases |caps|
  {
    if caps != [] && writes != [] {
      assert caps[0] * 1000 / 1000 == caps[0] && caps[0] * 1000 % 1000 == 0;
      if writes[0] == Confirmed {
        CapsAllowed(card, initial, caps[0] * 1000, caps[1..], writes[1..]);
      }
    }
  }

  lemma {:induction false} WholeWattsStable(card: Card, initial: nat, mw: nat)
    requires Allowed(card, initial, mw)
    ensures Allowed(card, initial, WholeWatts(mw))
  {
    assert WholeWatts(WholeWatts(initial)) == WholeWatts(initial);
    assert WholeWatts(WholeWatts(card.defaultMw)) == WholeWatts(card.defaultMw);
    if mw % 1000 == 0 {
      assert WholeWatts(mw) == mw;
    }
  }

  lemma {:induction false} SuiteStaysAllowed(card: Card, initial: nat, limitMw: nat, suite: Suite)
    requires SaneCard(card) && Allowed(card, initial, limitMw)
    requires suite.sweep.Some? ==> suite.sweep.value.defaultReadable
    ensures AfterSuite(card, limitMw, suite) >= 0
    ensures Allowed(card, initial, AfterSuite(card, limitMw, suite))
  {
    WholeWattsStable(card, initial, limitMw);
    if suite.sweep.Some? {
      var range := if suite.sweep.value.rangeReadable then Some(card.range) else None;
      RungsNonnegative(Watts(card.defaultMw), range);
      CapsAllowed(card, initial, limitMw, CapsOf(card, limitMw, suite.sweep.value), suite.sweep.value.writes);
    }
  }

  function AfterSuites(card: Card, initial: nat, suites: seq<Suite>): int {
    if suites == [] then initial
    else
      var before := AfterSuites(card, initial, suites[..|suites| - 1]);
      if before < 0 then before else AfterSuite(card, before, suites[|suites| - 1])
  }

  /** Over any history of completed, failed and hard-killed suites whose sweeps can read the factory
      default, the card is only ever left at its initial limit, that limit in whole watts, the
      default, or a rung of the default's own ladder: aborted runs never walk it further down. */
  lemma {:induction false} HistoryStaysAllowed(card: Card, initial: nat, suites: seq<Suite>)
    requires SaneCard(card)
    requires forall i :: 0 <= i < |suites| && suites[i].sweep.Some? ==> suites[i].sweep.value.defaultReadable
    ensures AfterSuites(card, initial, suites) >= 0
    ensures Allowed(card, initial, AfterSuites(card, initial, suites))
  {
    if suites != [] {
      HistoryStaysAllowed(card, initial, suites[..|suites| - 1]);
      SuiteStaysAllowed(card, initial, AfterSuites(card, initial, suites[..|suites| - 1]), suites[|suites| - 1]);
    }
  }

  /** Writing back the limit that was read loses less than a watt, once: the card then shows whole
      watts, and reading and writing it again changes nothing. */
  lemma {:induction false} ReadBackLosesLessThanAWatt(mw: nat)
    ensures WholeWatts(mw) <= mw < WholeWatts(mw) + 1000
    ensures WholeWatts(mw) == mw <==> mw % 1000 == 0
    ensures WholeWatts(WholeWatts(mw)) == WholeWatts(mw)
  {
  }

  /** The limit the policy promises can be read. */
  predicate PolicyReadable(suite: Suite) {
    if suite.restoreToDefault then suite.factoryReadable else suite.observedReadable
  }

  /** A suite that reaches its `finally` leaves the card where its policy says, the factory default
      or the whole watts it found, exactly when the restore is not refused or the sweep had already
      left it there. */
  lemma {:induction false} CompletedSuite(card: Card, limitMw: nat, suite: Suite)
    requires suite.ending.Finally? && PolicyReadable(suite)
    ensures
      var home := WholeWatts(if suite.restoreToDefault then card.defaultMw else limitMw);
      AfterSuite(card, limitMw, suite) == home <==>
        suite.ending.restore != Refused || Swept(card, limitMw, suite) == home
  {
  }

  /** A rung is the fraction of stock in the nearest whole watts; a known range moves it to the nearer
      end only when it lies outside. */
  lemma {:induction false} RungIsNearest(fraction: real, stock: int, range: Option<Range>)
    ensures
      var watts, rung := CapFor(fraction, stock, None), CapFor(fraction, stock, range);
      && -0.5 <= watts as real - fraction * stock as real <= 0.5
      && (range.Some? && range.value.min <= range.value.max ==>
            && range.value.min <= rung <= range.value.max
            && (range.value.min <= watts <= range.value.max ==> rung == watts)
            && (watts < range.value.min ==> rung == range.value.min)
            && (watts > range.value.max ==> rung == range.value.max))
  {
  }

  /** Where a sweep leaves the card: at the last cap whose write landed, confirmed or not, and at the
      limit found when none did. */
  lemma {:induction false} SweepLeaves(limitMw: int, caps: seq<int>, writes: seq<SetIo>)
    ensures
      var m := Measured(caps, writes);
      AfterCaps(limitMw, caps, writes) ==
        if m < |caps| && m < |writes| && writes[m] == Unconfirmed then caps[m] * 1000
        else if m > 0 then caps[m - 1] * 1000
        else limitMw
    decreases |caps|
  {
    if caps != [] && writes != [] && writes[0] == Confirmed {
      SweepLeaves(caps[0] * 1000, caps[1..], writes[1..]);
    }
  }

  /** When the limit the policy promises could not be read, the other captured one is written back;
      with neither the card stays where the sweep left it. */
  lemma {:induction false} FallbackSuite(card: Card, limitMw: nat, suite: Suite)
    requires suite.ending.Finally? && suite.ending.restore != Refused && !PolicyReadable(suite)
    ensures AfterSuite(card, limitMw, suite) ==
      if suite.restoreToDefault && suite.observedReadable then WholeWatts(limitMw)
      else if !suite.restoreToDefault && suite.factoryReadable then WholeWatts(card.defaultMw)
      else Swept(card, limitMw, suite)
  {
  }

  /** The rungs a sweep tries are the first of the ladder below the default, or below the limit found
      when the default cannot be read: all of them, or as many as it may measure. */
  lemma {:induction false} SweepTriesFirstRungs(card: Card, limitMw: nat, sweep: Sweep)
    ensures !sweep.defaultReadable && !sweep.currentReadable ==> CapsOf(card, limitMw, sweep) == []
    ensures sweep.defaultReadable || sweep.currentReadable ==>
      var stock := if sweep.defaultReadable then card.defaultMw / 1000 else limitMw / 1000;
      var ladder := Ladder(stock, if sweep.rangeReadable then Some(card.range) else None);
      var caps := CapsOf(card, limitMw, sweep);
      && caps <= ladder
      && |caps| == if sweep.maxPoints.Some? then Min(sweep.maxPoints.value, |ladder|) else |ladder|
  {
    hide Ladder;
  }

  ghost predicate AllCompleted(suites: seq<Suite>) {
    forall i :: 0 <= i < |suites| ==>
      suites[i].ending.Finally? && suites[i].ending.restore != Refused && PolicyReadable(suites[i])
  }

  predicate AnyManaged(suites: seq<Suite>) {
    exists i :: 0 <= i < |suites| && suites[i].restoreToDefault
  }

  /** No drift over any history of completed suites, whatever their sweeps read, write or measure:
      the card ends at the factory default if any of them managed it, and otherwise at the whole
      watts of the limit the first one found. */
  lemma {:induction false} CompletedHistory(card: Card, initial: nat, suites: seq<Suite>)
    requires AllCompleted(suites)
    ensures AfterSuites(card, initial, suites) ==
      if suites == [] then initial
      else if AnyManaged(suites) then WholeWatts(card.defaultMw)
      else WholeWatts(initial)
  {
    if suites != [] {
      hide AfterSuite, Swept;
      var n := |suites| - 1;
      var init, last := suites[..n], suites[n];
      CompletedHistory(card, initial, init);
      assert AnyManaged(suites) <==> AnyManaged(init) || last.restoreToDefault by {
        if AnyManaged(init) {
          var i :| 0 <= i < n && init[i].restoreToDefault;
          assert suites[i].restoreToDefault;
        }
        if AnyManaged(suites) {
          var i :| 0 <= i < |suites| && suites[i].restoreToDefault;
          assert i < n ==> init[i].restoreToDefault;
        }
      }
      var before := AfterSuites(card, initial, init);
      CompletedSuite(card, before, last);
      ReadBackLosesLessThanAWatt(initial);
      ReadBackLosesLessThanAWatt(card.defaultMw);
      hide WholeWatts;
    }
  }

  /** The readable default is what stops the walk: without it, two suites killed after their first
      cap leave a 450 W card at 325 W, a rung of no ladder of the default. */
  lemma {:induction false} UnreadableDefaultWalksDown()
    ensures
      var card := Card(450_000, Range(100, 450));
      var killed := Suite(true, false, true, Some(Sweep(false, true, false, None, [Confirmed])), HardKilled);
      && AfterSuites(card, 450_000, [killed]) == 382_000
      && AfterSuites(card, 450_000, [killed, killed]) == 325_000
      && !Allowed(card, 450_000, 325_000)
  {
    var card := Card(450_000, Range(100, 450));
    var killed := Suite(true, false, true, Some(Sweep(false, true, false, None, [Confirmed])), HardKilled);
    FirstRung(450, None, 382);
    FirstRung(382, None, 325);
    assert [killed, killed][..1] == [killed] && [killed][..0] == [];
    FullLadder450();
  }

  lemma {:induction false} FirstRung(stock: int, range: Option<Range>, watts: int)
    requires CapFor(0.85, stock, range) == watts < stock
    ensures Ladder(stock, range) != [] && Ladder(stock, range)[0] == watts
  {
    assert LadderOf(1, stock, range) == [watts];
    assert LadderOf(1, stock, range) <= LadderOf(2, stock, range) <= LadderOf(3, stock, range);
  }

  lemma {:induction false} FullLadder450()
    ensures Ladder(450, None) == [382, 338, 292] == Ladder(450, Some(Range(100, 450)))
  {
    assert CapFor(0.85, 450, None) == 382 && CapFor(0.75, 450, None) == 338 && CapFor(0.65, 450, None) == 292;
    assert LadderOf(1, 450, None) == [382] && LadderOf(2, 450, None) == [382, 338];
    var range := Some(Range(100, 450));
    assert LadderOf(1, 450, range) == [382] && LadderOf(2, 450, range) == [382, 338];
  }

  // ------------------------------------------------------------ the suite, step by step

  /** How many caps the card confirms: those before the first write that is not confirmed. */
  function Measured(caps: seq<int>, writes: seq<SetIo>): (n: nat)
    ensures n <= |caps| && n <= |writes|
    ensures forall i :: 0 <= i < n ==> writes[i] == Confirmed
    ensures n < |caps| && n < |writes| ==> writes[n] != Confirmed
    decreases |caps|
  {
    if caps == [] || writes == [] || writes[0] != Confirmed then 0 else 1 + Measured(caps[1..], writes[1..])
  }

  lemma {:induction false} SweepStep(limitMw: int, caps: seq<int>, writes: seq<SetIo>, i: nat)
    requires i < |caps| && i < |writes|
    ensures AfterCaps(limitMw, caps[i..], writes[i..]) ==
      match writes[i]
      case Refused => limitMw
      case Unconfirmed => caps[i] * 1000
      case Confirmed => AfterCaps(caps[i] * 1000, caps[i + 1..], writes[i + 1..])
    ensures Measured(caps[i..], writes[i..]) ==
      if writes[i] == Confirmed then 1 + Measured(caps[i + 1..], writes[i + 1..]) else 0
  {
    assert caps[i..][1..] == caps[i + 1..] && writes[i..][1..] == writes[i + 1..];
  }

  lemma {:induction false} SweepOver(limitMw: int, caps: seq<int>, writes: seq<SetIo>)
    requires caps == [] || writes == []
    ensures AfterCaps(limitMw, caps, writes) == limitMw && Measured(caps, writes) == 0
  {
  }

  /** The measuring loop: it stops at the first cap that is not confirmed. */
  method MeasureCaps(sampler: LocalNvmlSampler, caps: seq<int>, writes: seq<SetIo>) returns (confirmed: seq<int>)
    requires forall i :: 0 <= i < |caps| ==> caps[i] >= 0
    modifies sampler
    ensures sampler.limitMw == AfterCaps(old(sampler.limitMw), caps, writes)
    ensures confirmed == caps[..Measured(caps, writes)]
  {
    hide AfterCaps, Measured;
    confirmed := [];
    for i := 0 to |caps|
      invariant i <= |writes| && confirmed == caps[..i]
      invariant AfterCaps(sampler.limitMw, caps[i..], writes[i..]) == AfterCaps(old(sampler.limitMw), caps, writes)
      invariant Measured(caps, writes) == i + Measured(caps[i..], writes[i..])
    {
      if i == |writes| {
        SweepOver(sampler.limitMw, caps[i..], writes[i..]);
        return;
      }
      SweepStep(sampler.limitMw, caps, writes, i);
      var watts := sampler.SetPowerLimit(caps[i], writes[i]);
      if watts.None? {
        return;
      }
      confirmed := confirmed + [watts.value];
    }
    SweepOver(sampler.limitMw, caps[|caps|..], writes[|caps|..]);
  }

  method RunPowerSweep(sampler: LocalNvmlSampler, sweep: Sweep) returns (confirmed: seq<int>)
    requires SaneCard(sampler.card)
    modifies sampler
    ensures sampler.limitMw == AfterCaps(
      old(sampler.limitMw), CapsOf(sampler.card, old(sampler.limitMw), sweep), sweep.writes)
    ensures
      var caps := CapsOf(sampler.card, old(sampler.limitMw), sweep);
      confirmed == caps[..Measured(caps, sweep.writes)]
  {
    hide Ladder, LadderOf, CapFor;
    confirmed := [];
    var stock := sampler.GetPowerLimitDefault(sweep.defaultReadable);
    if stock.None? {
      stock := sampler.GetPowerLimit(sweep.currentReadable);
    }
    if stock.None? {
      SweepOver(sampler.limitMw, [], sweep.writes);
      return;
    }
    var range := if sweep.rangeReadable then Some(sampler.card.range) else None;
    var caps := DerivePowerSweepCaps(stock.value, range);
    RungsNonnegative(stock.value, range);
    if sweep.maxPoints.Some? && sweep.maxPoints.value < |caps| {
      caps := caps[..sweep.maxPoints.value];
    }
    confirmed := MeasureCaps(sampler, caps, sweep.writes);
  }

  /** Both restore candidates are captured before the sweep; the restore itself is the `finally`. */
  method RunBenchSuite(sampler: LocalNvmlSampler, suite: Suite)
    requires SaneCard(sampler.card)
    modifies sampler
    ensures sampler.limitMw == AfterSuite(sampler.card, old(sampler.limitMw), suite)
  {
    hide CapsOf, AfterCaps, Ladder, Measured;
    var factory := sampler.GetPowerLimitDefault(suite.factoryReadable);
    var observed := sampler.GetPowerLimit(suite.observedReadable);
    var original := factory;
    if original.None? {
      original := observed;
    }
    if suite.sweep.Some? {
      var _ := RunPowerSweep(sampler, suite.sweep.value);
    }
    if suite.ending.HardKilled? {
      return;
    }
    var target := original;
    if !suite.restoreToDefault && observed.Some? {
      target := observed;
    }
    if target.Some? {
      var _ := sampler.SetPowerLimit(target.value, suite.ending.restore);
    }
  }
}
