/** Bracketing scheduled jobs with the recommended power cap (powercap.py, profiler.py). */
module PowerCap {
  import opened Basics

  datatype Policy = Preserve | Managed

  datatype Write = Written | Denied | WriteFailed

  /** What the outside does during one apply: the clock, the recommendation a fetch would bring
      (none when the server has none or the fetch fails), whether the limit can be read, and how
      the write goes. */
  datatype ApplyIo = ApplyIo(gpu: bool, clock: real, recommendation: Option<real>, readable: bool, write: Write)

  datatype RestoreIo = RestoreIo(defaultReadable: bool, write: Write)

  datatype Status =
    | Applied | Restored | NoRecommendation | SkippedNoPermission | SkippedNoGpu | SkippedError | NothingToRestore

  datatype Cache = Cache(cap: Option<real>, at: Option<real>)

  /** The driver works in whole milliwatts. */
  function ToMw(watts: real): int {
    RoundHalfEven(watts * 1000.0)
  }

  function ToWatts(mw: int): real {
    mw as real / 1000.0
  }

  lemma {:induction false} MilliwattsRoundTrip(mw: int)
    ensures ToMw(ToWatts(mw)) == mw
  {
    assert mw as real / 1000.0 * 1000.0 == mw as real;
    RoundExact(mw);
  }

  lemma {:induction false} MilliwattsNearest(watts: real)
    ensures -0.5 <= ToMw(watts) as real - 1000.0 * watts <= 0.5
  {
  }

  // ------------------------------------------------------------ specification

  function Expired(cache: Cache, clock: real, ttl: real): bool {
    cache.at.None? || clock - cache.at.value >= ttl
  }

  function Refreshed(cache: Cache, io: ApplyIo, ttl: real): Cache {
    if Expired(cache, io.clock, ttl) then Cache(io.recommendation, Some(io.clock)) else cache
  }

  /** Card limit, saved prior limit and cache after an apply. */
  datatype State = State(limitMw: int, prior: Option<real>, cache: Cache)

  function ApplyStatus(s: State, io: ApplyIo, ttl: real): Status {
    if !io.gpu then SkippedNoGpu
    else if Refreshed(s.cache, io, ttl).cap.None? then NoRecommendation
    else if !io.readable then SkippedError
    else
      match io.write
      case Written => Applied
      case Denied => SkippedNoPermission
      case WriteFailed => SkippedError
  }

  function AfterApply(s: State, io: ApplyIo, ttl: real): State {
    var cache := if io.gpu then Refreshed(s.cache, io, ttl) else s.cache;
    if ApplyStatus(s, io, ttl) == Applied then State(ToMw(cache.cap.value), Some(ToWatts(s.limitMw)), cache)
    else s.(cache := cache)
  }

  /** The saved limit is cleared before the write, whatever the write does. */
  function AfterRestore(s: State, io: RestoreIo, policy: Policy, defaultMw: int): State {
    if s.prior.None? || io.write != Written then s.(prior := None)
    else
      var target := if policy == Managed && io.defaultReadable then ToWatts(defaultMw) else s.prior.value;
      State(ToMw(target), None, s.cache)
  }

  /** One job: a whole bracket, or a kill between apply and restore (the next process starts with
      no saved limit and no cache). */
  datatype Job = Bracket(apply: ApplyIo, restore: RestoreIo) | KilledAfter(apply: ApplyIo)

  function AfterJob(s: State, job: Job, policy: Policy, ttl: real, defaultMw: int): State {
    match job
    case Bracket(apply, restore) => AfterRestore(AfterApply(s, apply, ttl), restore, policy, defaultMw)
    case KilledAfter(apply) => State(AfterApply(s, apply, ttl).limitMw, None, Cache(None, None))
  }

  function AfterJobs(s: State, jobs: seq<Job>, policy: Policy, ttl: real, defaultMw: int): State {
    if jobs == [] then s
    else AfterJob(AfterJobs(s, jobs[..|jobs| - 1], policy, ttl, defaultMw), jobs[|jobs| - 1], policy, ttl, defaultMw)
  }

  /** Exactly when an apply writes a cap, and what it leaves: with a GPU, a recommendation, fetched
      now unless one fetched less than a lifetime ago is held, a readable limit and a write that goes
      through, the card is within half a milliwatt of it and the limit found is saved. */
  lemma {:induction false} AppliedIff(s: State, io: ApplyIo, ttl: real)
    ensures
      var held := s.cache.at.Some? && io.clock - s.cache.at.value < ttl;
      var cap := if held then s.cache.cap else io.recommendation;
      var s' := AfterApply(s, io, ttl);
      && (ApplyStatus(s, io, ttl) == Applied <==> io.gpu && cap.Some? && io.readable && io.write == Written)
      && (ApplyStatus(s, io, ttl) == Applied ==>
            && -0.5 <= s'.limitMw as real - 1000.0 * cap.value <= 0.5
            && s'.prior == Some(s.limitMw as real / 1000.0))
      && (ApplyStatus(s, io, ttl) != Applied ==> s'.limitMw == s.limitMw && s'.prior == s.prior)
  {
  }

  // ------------------------------------------------------------ one bracket

  /** Between jobs nothing is saved, so a restore only ever undoes its own apply. */
  lemma {:induction false} NothingSavedBetweenJobs(s: State, jobs: seq<Job>, policy: Policy, ttl: real, defaultMw: int)
    requires s.prior.None?
    ensures AfterJobs(s, jobs, policy, ttl, defaultMw).prior.None?
  {
    if jobs != [] {
      NothingSavedBetweenJobs(s, jobs[..|jobs| - 1], policy, ttl, defaultMw);
    }
  }

  /** Under "preserve" a bracket ends at the limit it found exactly when it changed nothing, or
      its restore write went through, or the cap was that limit already. */
  lemma {:induction false} PreserveBracket(s: State, apply: ApplyIo, restore: RestoreIo, ttl: real, defaultMw: int)
    requires s.prior.None?
    ensures
      var s1 := AfterApply(s, apply, ttl);
      AfterJob(s, Bracket(apply, restore), Preserve, ttl, defaultMw).limitMw == s.limitMw <==>
        || ApplyStatus(s, apply, ttl) != Applied
        || restore.write == Written
        || s1.limitMw == s.limitMw
  {
    MilliwattsRoundTrip(s.limitMw);
  }

  /** Under "managed" an applied bracket whose restore goes through ends at the factory default
      when that is readable, whatever limit it found, and at the found limit otherwise. */
  lemma {:induction false} ManagedBracket(s: State, apply: ApplyIo, restore: RestoreIo, ttl: real, defaultMw: int)
    requires s.prior.None? && ApplyStatus(s, apply, ttl) == Applied && restore.write == Written
    ensures AfterJob(s, Bracket(apply, restore), Managed, ttl, defaultMw).limitMw ==
      if restore.defaultReadable then defaultMw else s.limitMw
  {
    MilliwattsRoundTrip(s.limitMw);
    MilliwattsRoundTrip(defaultMw);
  }

  // ------------------------------------------------------------ whole histories

  ghost predicate RestoresSucceed(jobs: seq<Job>) {
    forall i :: 0 <= i < |jobs| && jobs[i].Bracket? ==> jobs[i].restore.write == Written
  }

  ghost predicate DefaultReadable(jobs: seq<Job>) {
    forall i :: 0 <= i < |jobs| && jobs[i].Bracket? ==> jobs[i].restore.defaultReadable
  }

  predicate NoKills(jobs: seq<Job>) {
    forall i :: 0 <= i < |jobs| ==> jobs[i].Bracket?
  }

  /** Without kills a preserved limit survives any number of jobs. */
  lemma {:induction false} PreserveHistory(s: State, jobs: seq<Job>, ttl: real, defaultMw: int)
    requires s.prior.None? && NoKills(jobs) && RestoresSucceed(jobs)
    ensures AfterJobs(s, jobs, Preserve, ttl, defaultMw).limitMw == s.limitMw
  {
    if jobs != [] {
      var init, last := jobs[..|jobs| - 1], jobs[|jobs| - 1];
      PreserveHistory(s, init, ttl, defaultMw);
      NothingSavedBetweenJobs(s, init, Preserve, ttl, defaultMw);
      PreserveBracket(AfterJobs(s, init, Preserve, ttl, defaultMw), last.apply, last.restore, ttl, defaultMw);
    }
  }

  /** A killed job's cap outlives it under "preserve": every later bracket hands it on, while under
      "managed" the first applied bracket puts the card back to the default for good. */
  lemma {:induction false} LeftoverCap(
      s: State, killed: ApplyIo, later: seq<Job>, ttl: real, defaultMw: int)
    requires s.prior.None? && NoKills(later) && RestoresSucceed(later) && DefaultReadable(later)
    ensures
      var left := AfterJob(s, KilledAfter(killed), Preserve, ttl, defaultMw);
      && AfterJobs(left, later, Preserve, ttl, defaultMw).limitMw == left.limitMw
      && AfterJobs(left, later, Managed, ttl, defaultMw).limitMw ==
           if AnyApplied(left, later, ttl, defaultMw) then defaultMw else left.limitMw
  {
    var left := AfterJob(s, KilledAfter(killed), Preserve, ttl, defaultMw);
    PreserveHistory(left, later, ttl, defaultMw);
    ManagedHistory(left, later, ttl, defaultMw);
  }

  /** Some bracket of a managed history actually applied a cap. */
  predicate AnyApplied(s: State, jobs: seq<Job>, ttl: real, defaultMw: int) {
    exists i :: 0 <= i < |jobs| &&
      ApplyStatus(AfterJobs(s, jobs[..i], Managed, ttl, defaultMw), jobs[i].apply, ttl) == Applied
  }

  lemma {:induction false} ManagedHistory(s: State, jobs: seq<Job>, ttl: real, defaultMw: int)
    requires s.prior.None? && NoKills(jobs) && RestoresSucceed(jobs) && DefaultReadable(jobs)
    ensures AfterJobs(s, jobs, Managed, ttl, defaultMw).limitMw ==
      if AnyApplied(s, jobs, ttl, defaultMw) then defaultMw else s.limitMw
  {
    if jobs != [] {
      var n := |jobs| - 1;
      var init, last := jobs[..n], jobs[n];
      ManagedHistory(s, init, ttl, defaultMw);
      NothingSavedBetweenJobs(s, init, Managed, ttl, defaultMw);
      var before := AfterJobs(s, init, Managed, ttl, defaultMw);
      if ApplyStatus(before, last.apply, ttl) == Applied {
        ManagedBracket(before, last.apply, last.restore, ttl, defaultMw);
      }
      AppliedSplits(s, jobs, n, ttl, defaultMw);
    }
  }

  lemma {:induction false} AppliedSplits(s: State, jobs: seq<Job>, n: nat, ttl: real, defaultMw: int)
    requires n + 1 == |jobs|
    ensures AnyApplied(s, jobs, ttl, defaultMw) <==>
      || AnyApplied(s, jobs[..n], ttl, defaultMw)
      || ApplyStatus(AfterJobs(s, jobs[..n], Managed, ttl, defaultMw), jobs[n].apply, ttl) == Applied
  {
    hide AfterJobs, ApplyStatus;
    var init := jobs[..n];
    assert forall i :: 0 <= i < n ==> init[..i] == jobs[..i] && init[i] == jobs[i];
    if AnyApplied(s, init, ttl, defaultMw) {
      var i :| 0 <= i < n
        && ApplyStatus(AfterJobs(s, init[..i], Managed, ttl, defaultMw), init[i].apply, ttl) == Applied;
      assert ApplyStatus(AfterJobs(s, jobs[..i], Managed, ttl, defaultMw), jobs[i].apply, ttl) == Applied;
    }
    if AnyApplied(s, jobs, ttl, defaultMw) {
      var i :| 0 <= i < |jobs|
        && ApplyStatus(AfterJobs(s, jobs[..i], Managed, ttl, defaultMw), jobs[i].apply, ttl) == Applied;
      assert i < n ==> ApplyStatus(AfterJobs(s, init[..i], Managed, ttl, defaultMw), init[i].apply, ttl) == Applied;
    }
  }

  // ------------------------------------------------------------ histories with kills

  /** The job finds this state when its turn in the history comes. */
  function Found(s: State, jobs: seq<Job>, k: nat, policy: Policy, ttl: real, defaultMw: int): State
    requires k < |jobs|
  {
    AfterJobs(s, jobs[..k], policy, ttl, defaultMw)
  }

  predicate AppliedAt(s: State, jobs: seq<Job>, k: nat, policy: Policy, ttl: real, defaultMw: int)
    requires k < |jobs|
  {
    ApplyStatus(Found(s, jobs, k, policy, ttl, defaultMw), jobs[k].apply, ttl) == Applied
  }

  /** In any history, kills included, every applied bracket whose restore goes through ends at the
      limit it found under "preserve", and at the readable default under "managed". */
  lemma {:induction false} EveryBracketEnds(
      s: State, jobs: seq<Job>, k: nat, policy: Policy, ttl: real, defaultMw: int)
    requires s.prior.None? && k < |jobs| && jobs[k].Bracket? && jobs[k].restore.write == Written
    requires AppliedAt(s, jobs, k, policy, ttl, defaultMw)
    ensures AfterJobs(s, jobs[..k + 1], policy, ttl, defaultMw).limitMw ==
      if policy == Managed && jobs[k].restore.defaultReadable then defaultMw
      else Found(s, jobs, k, policy, ttl, defaultMw).limitMw
  {
    assert jobs[..k + 1][..k] == jobs[..k];
    NothingSavedBetweenJobs(s, jobs[..k], policy, ttl, defaultMw);
    var before := Found(s, jobs, k, policy, ttl, defaultMw);
    if policy == Managed {
      ManagedBracket(before, jobs[k].apply, jobs[k].restore, ttl, defaultMw);
    } else {
      PreserveBracket(before, jobs[k].apply, jobs[k].restore, ttl, defaultMw);
    }
  }

  /** A job that decides the limit for those after it: one that applied a cap and was killed, or any
      that applied one under "managed". */
  predicate Decides(s: State, jobs: seq<Job>, k: nat, policy: Policy, ttl: real, defaultMw: int)
    requires k < |jobs|
  {
    AppliedAt(s, jobs, k, policy, ttl, defaultMw) && (policy == Managed || jobs[k].KilledAfter?)
  }

  lemma {:induction false} UndecidedKeeps(s: State, job: Job, policy: Policy, ttl: real, defaultMw: int)
    requires s.prior.None? && (job.Bracket? ==> job.restore.write == Written)
    requires ApplyStatus(s, job.apply, ttl) != Applied || (policy == Preserve && job.Bracket?)
    ensures AfterJob(s, job, policy, ttl, defaultMw).limitMw == s.limitMw
  {
    if job.Bracket? && policy == Preserve {
      PreserveBracket(s, job.apply, job.restore, ttl, defaultMw);
    }
  }

  /** With restore writes going through, a history with no deciding job leaves the limit alone. */
  lemma {:induction false} NoneDecides(s: State, jobs: seq<Job>, policy: Policy, ttl: real, defaultMw: int)
    requires s.prior.None? && RestoresSucceed(jobs)
    requires forall k :: 0 <= k < |jobs| ==> !Decides(s, jobs, k, policy, ttl, defaultMw)
    ensures AfterJobs(s, jobs, policy, ttl, defaultMw).limitMw == s.limitMw
  {
    if jobs != [] {
      hide AfterJob, ApplyStatus;
      var n := |jobs| - 1;
      var init := jobs[..n];
      forall k | 0 <= k < n ensures !Decides(s, init, k, policy, ttl, defaultMw) {
        assert init[..k] == jobs[..k] && !Decides(s, jobs, k, policy, ttl, defaultMw);
      }
      NoneDecides(s, init, policy, ttl, defaultMw);
      NothingSavedBetweenJobs(s, init, policy, ttl, defaultMw);
      assert !Decides(s, jobs, n, policy, ttl, defaultMw);
      UndecidedKeeps(AfterJobs(s, init, policy, ttl, defaultMw), jobs[n], policy, ttl, defaultMw);
    }
  }

  /** The cap a job asks for, in the driver's milliwatts. */
  function CapMw(s: State, apply: ApplyIo, ttl: real): int
    requires ApplyStatus(s, apply, ttl) == Applied
  {
    ToMw(Refreshed(s.cache, apply, ttl).cap.value)
  }

  /** Otherwise the last deciding job alone fixes where the card ends: at the cap it left behind if
      it was killed, at the default if it was a managed bracket. */
  lemma {:induction false} LastDecides(
      s: State, jobs: seq<Job>, k: nat, policy: Policy, ttl: real, defaultMw: int)
    requires s.prior.None? && RestoresSucceed(jobs) && DefaultReadable(jobs)
    requires k < |jobs| && Decides(s, jobs, k, policy, ttl, defaultMw)
    requires forall j :: k < j < |jobs| ==> !Decides(s, jobs, j, policy, ttl, defaultMw)
    ensures AfterJobs(s, jobs, policy, ttl, defaultMw).limitMw ==
      if jobs[k].KilledAfter? then CapMw(Found(s, jobs, k, policy, ttl, defaultMw), jobs[k].apply, ttl)
      else defaultMw
    decreases |jobs|
  {
    var n := |jobs| - 1;
    var init := jobs[..n];
    NothingSavedBetweenJobs(s, init, policy, ttl, defaultMw);
    if k == n {
      assert jobs[..n + 1] == jobs;
      if jobs[k].Bracket? {
        EveryBracketEnds(s, jobs, k, policy, ttl, defaultMw);
      }
    } else {
      hide AfterJob, ApplyStatus, CapMw;
      forall j | 0 <= j < n
        ensures Decides(s, init, j, policy, ttl, defaultMw) <==> Decides(s, jobs, j, policy, ttl, defaultMw)
      {
        assert init[..j] == jobs[..j];
      }
      assert init[..k] == jobs[..k];
      LastDecides(s, init, k, policy, ttl, defaultMw);
      assert !Decides(s, jobs, n, policy, ttl, defaultMw);
      UndecidedKeeps(AfterJobs(s, init, policy, ttl, defaultMw), jobs[n], policy, ttl, defaultMw);
    }
  }

  // ------------------------------------------------------------ how often the server is asked

  /** Cache and number of fetches after applies at these clock readings. */
  function Fetched(ios: seq<ApplyIo>, ttl: real): (Cache, nat) {
    if ios == [] then (Cache(None, None), 0)
    else
      var (cache, fetches) := Fetched(ios[..|ios| - 1], ttl);
      var io := ios[|ios| - 1];
      if !io.gpu then (cache, fetches)
      else (Refreshed(cache, io, ttl), fetches + if Expired(cache, io.clock, ttl) then 1 else 0)
  }

  lemma {:induction false} OneMoreFetch(fetches: nat, ttl: real, first: real, previous: real, now: real)
    requires fetches > 0 && (fetches - 1) as real * ttl <= previous - first && now - previous >= ttl
    ensures fetches as real * ttl <= now - first
  {
    assert fetches as real == (fetches - 1) as real + 1.0;
  }

  /** Fetches made so far, the last of them at `cache.at`, fit in the time since `first`. */
  ghost predicate Spaced(cache: Cache, fetches: nat, ttl: real, first: real, now: real) {
    && (cache.at.None? <==> fetches == 0)
    && (fetches > 0 ==> (fetches - 1) as real * ttl <= cache.at.value - first && cache.at.value <= now)
  }

  lemma {:induction false} SpacedStep(
      cache: Cache, fetches: nat, ttl: real, first: real, now: real, io: ApplyIo)
    requires Spaced(cache, fetches, ttl, first, now) && first <= io.clock && now <= io.clock && ttl > 0.0
    ensures
      var more := if Expired(cache, io.clock, ttl) then 1 else 0;
      Spaced(Refreshed(cache, io, ttl), fetches + more, ttl, first, io.clock)
  {
    if fetches == 0 {
      assert (0 as real) * ttl == 0.0;
    } else if Expired(cache, io.clock, ttl) {
      OneMoreFetch(fetches, ttl, first, cache.at.value, io.clock);
    }
  }

  lemma {:induction false} FetchesAreSpaced(ios: seq<ApplyIo>, ttl: real)
    requires ttl > 0.0 && ios != []
    requires forall i, j :: 0 <= i < j < |ios| ==> ios[i].clock <= ios[j].clock
    ensures Spaced(Fetched(ios, ttl).0, Fetched(ios, ttl).1, ttl, ios[0].clock, ios[|ios| - 1].clock)
  {
    hide Spaced;
    var init, last := ios[..|ios| - 1], ios[|ios| - 1];
    var (cache, fetches) := Fetched(init, ttl);
    var now := if init == [] then last.clock else init[|init| - 1].clock;
    if init == [] {
      NothingFetched(ttl, last.clock);
    } else {
      FetchesAreSpaced(init, ttl);
      assert init[0] == ios[0];
    }
    SpacedStep(cache, fetches, ttl, ios[0].clock, now, last);
    SpacedLater(cache, fetches, ttl, ios[0].clock, now, last.clock);
  }

  lemma {:induction false} NothingFetched(ttl: real, now: real)
    ensures Spaced(Cache(None, None), 0, ttl, now, now)
  {
  }

  lemma {:induction false} SpacedLater(cache: Cache, fetches: nat, ttl: real, first: real, now: real, later: real)
    requires Spaced(cache, fetches, ttl, first, now) && now <= later
    ensures Spaced(cache, fetches, ttl, first, later)
  {
  }

  /** With a clock that does not run backwards the server is asked at most 1 + floor(span / ttl)
      times, failures included. */
  lemma {:induction false} FetchBound(ios: seq<ApplyIo>, ttl: real)
    requires ttl > 0.0 && ios != []
    requires forall i, j :: 0 <= i < j < |ios| ==> ios[i].clock <= ios[j].clock
    ensures Fetched(ios, ttl).1 <= 1 + ((ios[|ios| - 1].clock - ios[0].clock) / ttl).Floor
  {
    FetchesAreSpaced(ios, ttl);
    var fetches := Fetched(ios, ttl).1;
    var span := ios[|ios| - 1].clock - ios[0].clock;
    if fetches > 0 {
      WholeQuotient(fetches - 1, span, ttl);
    } else {
      assert (0 as real) * ttl == 0.0;
      assert |ios| > 1 ==> ios[0].clock <= ios[|ios| - 1].clock;
      WholeQuotient(0, span, ttl);
    }
  }

  /** No recommendation is used beyond its lifetime: after an apply that sees a GPU, what the cache
      holds was fetched by this apply or an earlier one less than a lifetime ago, and it is what that
      fetch brought, a failed one included. */
  lemma {:induction false} CapIsRecent(ios: seq<ApplyIo>, ttl: real) returns (i: nat)
    requires ttl > 0.0 && ios != [] && ios[|ios| - 1].gpu
    ensures
      var last := ios[|ios| - 1];
      && i < |ios| && ios[i].gpu
      && last.clock - ios[i].clock < ttl
      && Fetched(ios, ttl).0 == Cache(ios[i].recommendation, Some(ios[i].clock))
  {
    var n := |ios| - 1;
    if Fetched(ios, ttl).0 == Cache(ios[n].recommendation, Some(ios[n].clock)) {
      i := n;
    } else {
      i := CacheOrigin(ios[..n], ttl);
    }
  }

  /** Whatever is cached was brought by some apply that saw a GPU. */
  lemma {:induction false} CacheOrigin(ios: seq<ApplyIo>, ttl: real) returns (i: nat)
    requires Fetched(ios, ttl).0.at.Some?
    ensures i < |ios| && ios[i].gpu
    ensures Fetched(ios, ttl).0 == Cache(ios[i].recommendation, Some(ios[i].clock))
  {
    var n := |ios| - 1;
    if ios[n].gpu && Expired(Fetched(ios[..n], ttl).0, ios[n].clock, ttl) {
      i := n;
    } else {
      i := CacheOrigin(ios[..n], ttl);
    }
  }

  /** And none is fetched again within it. */
  lemma {:induction false} FetchedOnlyWhenDue(ios: seq<ApplyIo>, ttl: real)
    requires ios != []
    ensures
      var (cache, fetches) := Fetched(ios[..|ios| - 1], ttl);
      var io := ios[|ios| - 1];
      Fetched(ios, ttl).1 ==
        fetches + if io.gpu && (cache.at.None? || io.clock - cache.at.value >= ttl) then 1 else 0
  {
  }

  lemma {:induction false} WholeQuotient(n: nat, span: real, ttl: real)
    requires ttl > 0.0 && n as real * ttl <= span
    ensures n <= (span / ttl).Floor
  {
    DivKeepsOrder(n as real * ttl, span, ttl);
    assert n as real * ttl / ttl == n as real;
  }

  // ------------------------------------------------------------ the objects

  class Gpu {
    var limitMw: int
    const defaultMw: int

    constructor (limitMw: int, defaultMw: int)
      ensures this.limitMw == limitMw && this.defaultMw == defaultMw
    {
      this.limitMw, this.defaultMw := limitMw, defaultMw;
    }
  }

  class PowerCapManager {
    const gpu: Gpu
    const policy: Policy
    const ttl: real
    var prior: Option<real>
    var cache: Cache

    function Current(): State
      reads this, gpu
    {
      State(gpu.limitMw, prior, cache)
    }

    constructor (gpu: Gpu, policy: Policy, ttl: real)
      ensures this.gpu == gpu && this.policy == policy && this.ttl == ttl
      ensures prior.None? && cache == Cache(None, None)
    {
      this.gpu, this.policy, this.ttl := gpu, policy, ttl;
      prior, cache := None, Cache(None, None);
    }

    method RecommendedCap(io: ApplyIo) returns (cap: Option<real>)
      modifies this`cache
      ensures cache == Refreshed(old(cache), io, ttl) && cap == cache.cap
    {
      if cache.at.None? || io.clock - cache.at.value >= ttl {
        cache := Cache(io.recommendation, Some(io.clock));
      }
      cap := cache.cap;
    }

    method Apply(io: ApplyIo) returns (status: Status)
      modifies this, gpu
      ensures Current() == AfterApply(old(Current()), io, ttl)
      ensures status == ApplyStatus(old(Current()), io, ttl)
    {
      if !io.gpu {
        return SkippedNoGpu;
      }
      var cap := RecommendedCap(io);
      if cap.None? {
        return NoRecommendation;
      }
      if !io.readable {
        return SkippedError;
      }
      var found := ToWatts(gpu.limitMw);
      match io.write {
        case Denied => return SkippedNoPermission;
        case WriteFailed => return SkippedError;
        case Written =>
          gpu.limitMw := ToMw(cap.value);
          prior := Some(found);
          return Applied;
      }
    }

    method Restore(io: RestoreIo) returns (status: Status)
      modifies this`prior, gpu
      ensures Current() == AfterRestore(old(Current()), io, policy, gpu.defaultMw)
      ensures status == Restored <==> old(prior).Some? && io.write == Written
    {
      var found := prior;
      prior := None;
      if found.None? {
        return NothingToRestore;
      }
      var target := found.value;
      if policy == Managed && io.defaultReadable {
        target := ToWatts(gpu.defaultMw);
      }
      if io.write != Written {
        return SkippedError;
      }
      gpu.limitMw := ToMw(target);
      status := Restored;
    }
  }
}
