/** One attempt of one placement: its acks, its brackets, the card's limit and its time bound
    (executor.py). */
module JobRun {
  import opened Basics
  import PowerCap

  datatype AckKind = Started | Finished | Failed

  datatype Event =
    | Ack(kind: AckKind, version: int, workflowId: Option<string>)
    | ProfilerStart
    | CapApply
    | AdapterRun
    | CapRestore
    | ProfilerStop
    | Report

  /** How a call made during an attempt ends: it returns, raises an ordinary exception, raises one
      that `except Exception` does not catch, or the process dies in it. */
  datatype Outcome = Returns | Raises | Interrupted | Dies

  /** How far an attempt gets; one that runs makes four calls that may not return.  A death of the
      adapter's run stands for every death after the cap is applied and before its restore is
      written; where exactly it falls only shortens the log. */
  datatype Fate =
    | UnknownJob
    | UnknownFramework
    | PreflightFails
    | Runs(start: Outcome, run: Outcome, ok: bool, stop: Outcome, report: Outcome)

  /** An attempt and what its power-cap bracket meets, if a cap is wired. */
  datatype Attempt = Attempt(
    version: int, workflowId: Option<string>, fate: Fate, apply: PowerCap.ApplyIo, restore: PowerCap.RestoreIo)

  /** How an attempt leaves the loop: normally, by an exception that ends the process, or dead. */
  datatype End = Completed | Escaped | Killed

  /** A call with no handler around it. */
  function Unguarded(o: Outcome): End {
    match o
    case Returns => Completed
    case Raises => Escaped
    case Interrupted => Escaped
    case Dies => Killed
  }

  function EndOf(a: Attempt): End {
    match a.fate
    case UnknownJob => Completed
    case UnknownFramework => Completed
    case PreflightFails => Completed
    case Runs(start, run, _, stop, report) =>
      if start != Returns then Unguarded(start)
      else if run == Interrupted || run == Dies then Unguarded(run)
      else if stop != Returns then Unguarded(stop)
      else Unguarded(report)
  }

  function EventsOf(a: Attempt, wired: bool): seq<Event> {
    match a.fate
    case UnknownJob => []
    case UnknownFramework => []
    case PreflightFails => [Ack(Failed, a.version, a.workflowId)]
    case Runs(start, run, ok, stop, report) =>
      [Ack(Started, a.version, a.workflowId)]
      + if start != Returns then []
        else Bracket(run, wired) + if run == Dies || run == Interrupted then [] else Closing(a)
  }

  /** Profiler start to cap restore: the restore is missing only if the process dies before it. */
  function Bracket(run: Outcome, wired: bool): seq<Event> {
    [ProfilerStart]
    + (if wired then [CapApply] else [])
    + [AdapterRun]
    + (if wired && run != Dies then [CapRestore] else [])
  }

  /** Profiler stop to the last ack, as far as the calls return. */
  function Closing(a: Attempt): seq<Event>
    requires a.fate.Runs?
  {
    if a.fate.stop != Returns then []
    else if a.fate.report != Returns then [ProfilerStop]
    else
      [ProfilerStop, Report,
       Ack(if a.fate.ok && a.fate.run == Returns then Finished else Failed, a.version, a.workflowId)]
  }

  /** What the attempt is to the card: nothing, or one job of the power-cap manager. */
  function JobOf(a: Attempt, wired: bool): Option<PowerCap.Job> {
    if !wired || !a.fate.Runs? || a.fate.start != Returns then None
    else if a.fate.run == Dies then Some(PowerCap.KilledAfter(a.apply))
    else Some(PowerCap.Bracket(a.apply, a.restore))
  }

  function CardAfter(
    s: PowerCap.State, a: Attempt, wired: bool, policy: PowerCap.Policy, ttl: real, defaultMw: int): PowerCap.State
  {
    var job := JobOf(a, wired);
    if job.None? then s else PowerCap.AfterJob(s, job.value, policy, ttl, defaultMw)
  }

  // ------------------------------------------------------------ one process lifetime

  /** The loop over due attempts: the first that does not complete is the last one made. */
  function LogOf(attempts: seq<Attempt>, wired: bool): seq<Event> {
    if attempts == [] then []
    else EventsOf(attempts[0], wired) + if EndOf(attempts[0]) == Completed then LogOf(attempts[1..], wired) else []
  }

  function LifeEnd(attempts: seq<Attempt>): End {
    if attempts == [] then Completed
    else if EndOf(attempts[0]) != Completed then EndOf(attempts[0])
    else LifeEnd(attempts[1..])
  }

  function JobsOf(attempts: seq<Attempt>, wired: bool): seq<PowerCap.Job> {
    if attempts == [] then []
    else
      (if JobOf(attempts[0], wired).Some? then [JobOf(attempts[0], wired).value] else [])
      + if EndOf(attempts[0]) == Completed then JobsOf(attempts[1..], wired) else []
  }

  lemma {:induction false} LogOfStep(attempts: seq<Attempt>, i: nat, wired: bool)
    requires i < |attempts|
    ensures LogOf(attempts[i..], wired) == EventsOf(attempts[i], wired)
      + if EndOf(attempts[i]) == Completed then LogOf(attempts[i + 1..], wired) else []
  {
    hide EventsOf, EndOf;
    assert attempts[i..][1..] == attempts[i + 1..];
  }

  lemma {:induction false} LogOfNone(wired: bool)
    ensures LogOf([], wired) == []
  {
  }

  // ------------------------------------------------------------ an observer of the log

  /** What an observer knows: no job open, or one job with its brackets. */
  datatype View =
    | Quiet
    | Open(version: int, workflowId: Option<string>, profiling: bool, capped: bool, ran: bool, reported: bool)
    | Broken

  /** The rules a well-bracketed log must follow, event by event. */
  function Observe(v: View, e: Event): View {
    match e
    case Ack(Started, version, wid) => if v.Quiet? then Open(version, wid, false, false, false, false) else Broken
    case ProfilerStart => if v.Open? && !v.profiling && !v.ran then v.(profiling := true) else Broken
    case CapApply => if v.Open? && v.profiling && !v.capped && !v.ran then v.(capped := true) else Broken
    case AdapterRun => if v.Open? && v.profiling && !v.ran then v.(ran := true) else Broken
    case CapRestore => if v.Open? && v.profiling && v.capped && v.ran then v.(capped := false) else Broken
    case ProfilerStop => if v.Open? && v.profiling && v.ran && !v.capped then v.(profiling := false) else Broken
    case Report => if v.Open? && v.ran && !v.profiling && !v.reported then v.(reported := true) else Broken
    case Ack(kind, version, wid) =>
      if v.Quiet? && kind == Failed then Quiet
      else if v.Open? && v.reported && !v.profiling && !v.capped && v.version == version && v.workflowId == wid
      then Quiet
      else Broken
  }

  function ObserveAll(v: View, log: seq<Event>): View {
    if log == [] then v else Observe(ObserveAll(v, log[..|log| - 1]), log[|log| - 1])
  }

  lemma {:induction false} ObserveConcat(v: View, a: seq<Event>, b: seq<Event>)
    ensures ObserveAll(v, a + b) == ObserveAll(ObserveAll(v, a), b)
  {
    if b == [] {
      assert a + b == a;
    } else {
      assert (a + b)[..|a + b| - 1] == a + b[..|b| - 1];
      ObserveConcat(v, a, b[..|b| - 1]);
    }
  }

  lemma {:induction false} ObserveNone(v: View)
    ensures ObserveAll(v, []) == v
  {
  }

  lemma {:induction false} ObserveOne(v: View, e: Event)
    ensures ObserveAll(v, [e]) == Observe(v, e)
  {
    assert [e][..0] == [];
  }

  lemma {:induction false} ObserveCons(v: View, e: Event, rest: seq<Event>)
    ensures ObserveAll(v, [e] + rest) == ObserveAll(Observe(v, e), rest)
  {
    ObserveConcat(v, [e], rest);
    ObserveOne(v, e);
  }

  /** The view in mid-job: profiling, and capped when the restore was not reached. */
  function InJob(a: Attempt, profiling: bool, capped: bool, ran: bool): View {
    Open(a.version, a.workflowId, profiling, capped, ran, false)
  }

  lemma {:induction false} BracketObserved(a: Attempt, run: Outcome, wired: bool)
    ensures ObserveAll(InJob(a, false, false, false), Bracket(run, wired)) ==
      InJob(a, true, wired && run == Dies, true)
  {
    var v := InJob(a, false, false, false);
    var apply, restore := if wired then [CapApply] else [], if wired && run != Dies then [CapRestore] else [];
    ObserveConcat(v, [ProfilerStart] + apply + [AdapterRun], restore);
    ObserveConcat(v, [ProfilerStart] + apply, [AdapterRun]);
    ObserveConcat(v, [ProfilerStart], apply);
    ObserveOne(v, ProfilerStart);
    ObserveOne(InJob(a, true, false, false), CapApply);
    ObserveOne(InJob(a, true, wired, false), AdapterRun);
    ObserveOne(InJob(a, true, wired, true), CapRestore);
  }

  lemma {:induction false} ClosingObserved(a: Attempt)
    requires a.fate.Runs?
    ensures ObserveAll(InJob(a, true, false, true), Closing(a)) ==
      if a.fate.stop != Returns then InJob(a, true, false, true)
      else if a.fate.report != Returns then InJob(a, false, false, true)
      else Quiet
  {
    var v := InJob(a, true, false, true);
    var ack := Ack(if a.fate.ok && a.fate.run == Returns then Finished else Failed, a.version, a.workflowId);
    assert [ProfilerStop, Report, ack] == [ProfilerStop] + ([Report] + [ack]);
    ObserveCons(v, ProfilerStop, [Report] + [ack]);
    ObserveCons(Observe(v, ProfilerStop), Report, [ack]);
    ObserveOne(Observe(Observe(v, ProfilerStop), Report), ack);
    ObserveOne(v, ProfilerStop);
  }

  /** The process dies between the cap's apply and its restore. */
  predicate DiesCapped(a: Attempt) {
    a.fate.Runs? && a.fate.start == Returns && a.fate.run == Dies
  }

  /** One attempt never breaks a rule; it leaves no job open exactly when it completes, and leaves
      the cap applied exactly when the process died between apply and restore. */
  lemma {:induction false} AttemptIsBracketed(a: Attempt, wired: bool)
    ensures
      var v := ObserveAll(Quiet, EventsOf(a, wired));
      && !v.Broken?
      && (v.Quiet? <==> EndOf(a) == Completed)
      && (v.Open? ==> (v.capped <==> wired && DiesCapped(a)))
  {
    ObserveNone(Quiet);
    if a.fate.PreflightFails? {
      ObserveOne(Quiet, Ack(Failed, a.version, a.workflowId));
    } else if a.fate.Runs? {
      var started := Ack(Started, a.version, a.workflowId);
      var v := InJob(a, false, false, false);
      ObserveOne(Quiet, started);
      ObserveNone(v);
      if a.fate.start == Returns {
        var rest := if a.fate.run == Dies || a.fate.run == Interrupted then [] else Closing(a);
        BracketObserved(a, a.fate.run, wired);
        ClosingObserved(a);
        ObserveNone(InJob(a, true, wired && a.fate.run == Dies, true));
        hide ObserveAll, Bracket, Closing;
        ObserveCons(Quiet, started, Bracket(a.fate.run, wired) + rest);
        ObserveConcat(v, Bracket(a.fate.run, wired), rest);
      }
    }
  }

  /** Every call the attempt makes after its `started` ack comes back, the adapter's perhaps by an
      ordinary exception. */
  predicate Contained(a: Attempt) {
    a.fate.Runs? ==>
      && a.fate.start == Returns
      && (a.fate.run == Returns || a.fate.run == Raises)
      && a.fate.stop == Returns
      && a.fate.report == Returns
  }

  /** Whatever the four calls do, no process lifetime breaks a bracketing rule; and every job that
      started is closed, by one ack for its workflow and version before the next one starts, if and
      only if none of those calls escapes. */
  lemma {:induction false} LogIsBracketed(attempts: seq<Attempt>, wired: bool)
    ensures
      var v := ObserveAll(Quiet, LogOf(attempts, wired));
      && !v.Broken?
      && (v.Quiet? <==> forall i :: 0 <= i < |attempts| ==> Contained(attempts[i]))
      && (v.Quiet? <==> LifeEnd(attempts) == Completed)
  {
    if attempts == [] {
      ObserveNone(Quiet);
    } else {
      var a, rest := attempts[0], attempts[1..];
      AttemptIsBracketed(a, wired);
      CompletesIff(a);
      LogIsBracketed(rest, wired);
      hide ObserveAll, EventsOf, EndOf, Contained;
      var later := if EndOf(a) == Completed then LogOf(rest, wired) else [];
      ObserveConcat(Quiet, EventsOf(a, wired), later);
      ObserveNone(ObserveAll(Quiet, EventsOf(a, wired)));
      assert forall i :: 0 < i < |attempts| ==> attempts[i] == rest[i - 1];
      assert attempts[0] == a;
      assert forall i :: 0 <= i < |rest| ==> rest[i] == attempts[i + 1];
    }
  }

  lemma {:induction false} CompletesIff(a: Attempt)
    ensures EndOf(a) == Completed <==> Contained(a)
  {
  }

  /** `_execute` is documented never to raise: here the profiler fails to start and the job that was
      acked as started is never closed. */
  lemma {:induction false} ProfilerCanEscape(a: Attempt, wired: bool)
    requires a.fate.Runs? && a.fate.start == Raises
    ensures EndOf(a) == Escaped && EventsOf(a, wired) == [Ack(Started, a.version, a.workflowId)]
    ensures ObserveAll(Quiet, EventsOf(a, wired)).Open?
  {
    AttemptIsBracketed(a, wired);
  }

  // ------------------------------------------------------------ counting

  function Count(log: seq<Event>, e: Event): nat {
    if log == [] then 0 else Count(log[..|log| - 1], e) + if log[|log| - 1] == e then 1 else 0
  }

  function One(b: bool): nat {
    if b then 1 else 0
  }

  /** In any log that breaks no rule the brackets balance, but for the one job still open. */
  lemma {:induction false} BracketsBalance(log: seq<Event>)
    requires !ObserveAll(Quiet, log).Broken?
    ensures
      var v := ObserveAll(Quiet, log);
      && Count(log, ProfilerStart) == Count(log, ProfilerStop) + One(v.Open? && v.profiling)
      && Count(log, CapApply) == Count(log, CapRestore) + One(v.Open? && v.capped)
      && Count(log, AdapterRun) == Count(log, Report) + One(v.Open? && v.ran && !v.reported)
      && (v.Open? && v.reported ==> v.ran)
  {
    if log != [] {
      BracketsBalance(log[..|log| - 1]);
    }
  }

  lemma {:induction false} CountConcat(a: seq<Event>, b: seq<Event>, e: Event)
    ensures Count(a + b, e) == Count(a, e) + Count(b, e)
  {
    if b == [] {
      assert a + b == a;
    } else {
      assert (a + b)[..|a + b| - 1] == a + b[..|b| - 1];
      CountConcat(a, b[..|b| - 1], e);
    }
  }

  lemma {:induction false} CountCons(e: Event, d: Event, rest: seq<Event>)
    ensures Count([d] + rest, e) == One(d == e) + Count(rest, e)
  {
    CountConcat([d], rest, e);
    assert [d][..0] == [];
  }

  lemma {:induction false} CountNothing(e: Event)
    ensures Count([], e) == 0
  {
  }

  lemma {:induction false} BracketCounts(wired: bool, e: Event)
    requires e == ProfilerStart || e == AdapterRun || e == CapApply
    ensures Count(Bracket(Returns, wired), e) == One(e != CapApply || wired)
  {
    var apply, restore := if wired then [CapApply] else [], if wired then [CapRestore] else [];
    hide Count;
    CountNothing(e);
    CountCons(e, CapApply, []);
    CountCons(e, CapRestore, []);
    CountCons(e, AdapterRun, []);
    CountCons(e, ProfilerStart, []);
    CountConcat([ProfilerStart], apply, e);
    CountConcat([ProfilerStart] + apply, [AdapterRun], e);
    CountConcat([ProfilerStart] + apply + [AdapterRun], restore, e);
    assert [CapApply] + [] == [CapApply] && [CapRestore] + [] == [CapRestore];
    assert [AdapterRun] + [] == [AdapterRun] && [ProfilerStart] + [] == [ProfilerStart];
  }

  lemma {:induction false} ClosingCounts(a: Attempt, e: Event)
    requires a.fate.Runs? && EndOf(a) == Completed && (e == ProfilerStart || e == AdapterRun || e == CapApply)
    ensures Count(Closing(a), e) == 0
  {
    var ack := Ack(if a.fate.ok && a.fate.run == Returns then Finished else Failed, a.version, a.workflowId);
    assert Closing(a) == [ProfilerStop] + ([Report] + ([ack] + []));
    hide Count;
    CountNothing(e);
    CountCons(e, ack, []);
    CountCons(e, Report, [ack] + []);
    CountCons(e, ProfilerStop, [Report] + ([ack] + []));
  }

  /** A job that completes starts its profiler and runs its adapter once and, with a cap wired,
      applies it once. */
  lemma {:induction false} RunsExactlyOnce(a: Attempt, wired: bool, e: Event)
    requires a.fate.Runs? && EndOf(a) == Completed && (e == ProfilerStart || e == AdapterRun || e == CapApply)
    ensures Count(EventsOf(a, wired), e) == One(e != CapApply || wired)
  {
    var started := Ack(Started, a.version, a.workflowId);
    assert Bracket(a.fate.run, wired) == Bracket(Returns, wired);
    hide Count, Bracket, Closing;
    BracketCounts(wired, e);
    ClosingCounts(a, e);
    CountCons(e, started, Bracket(Returns, wired) + Closing(a));
    CountConcat(Bracket(Returns, wired), Closing(a), e);
  }

  /** Every completed job is profiled, run and reported exactly once and, with a cap wired, capped
      and uncapped exactly once, whether or not its adapter raised. */
  lemma {:induction false} BracketedExactlyOnce(a: Attempt, wired: bool)
    requires a.fate.Runs? && EndOf(a) == Completed
    ensures
      var log := EventsOf(a, wired);
      && Count(log, AdapterRun) == Count(log, Report) == 1
      && Count(log, CapApply) == Count(log, CapRestore) == One(wired)
      && Count(log, ProfilerStart) == Count(log, ProfilerStop) == 1
  {
    AttemptIsBracketed(a, wired);
    BracketsBalance(EventsOf(a, wired));
    RunsExactlyOnce(a, wired, ProfilerStart);
    RunsExactlyOnce(a, wired, AdapterRun);
    RunsExactlyOnce(a, wired, CapApply);
  }

  /** A completed job is acked finished exactly when its adapter returned and said ok, and failed
      otherwise, once; a failed preflight is acked failed only, and an unknown job not at all. */
  lemma {:induction false} AckSaysOutcome(a: Attempt, wired: bool, kind: AckKind)
    requires EndOf(a) == Completed
    ensures Count(EventsOf(a, wired), Ack(kind, a.version, a.workflowId)) ==
      match a.fate
      case Runs(_, run, ok, _, _) => One(kind == Started || (kind == Finished <==> run == Returns && ok))
      case PreflightFails => One(kind == Failed)
      case _ => 0
  {
    var e := Ack(kind, a.version, a.workflowId);
    CountNothing(e);
    if a.fate.PreflightFails? {
      CountCons(e, Ack(Failed, a.version, a.workflowId), []);
      assert [Ack(Failed, a.version, a.workflowId)] + [] == [Ack(Failed, a.version, a.workflowId)];
    } else if a.fate.Runs? {
      var started := Ack(Started, a.version, a.workflowId);
      var last := Ack(if a.fate.ok && a.fate.run == Returns then Finished else Failed, a.version, a.workflowId);
      assert Closing(a) == [ProfilerStop] + ([Report] + ([last] + []));
      NoAckInBracket(a.fate.run, wired, e);
      hide Count, Bracket, Closing;
      CountCons(e, last, []);
      CountCons(e, Report, [last] + []);
      CountCons(e, ProfilerStop, [Report] + ([last] + []));
      CountCons(e, started, Bracket(a.fate.run, wired) + Closing(a));
      CountConcat(Bracket(a.fate.run, wired), Closing(a), e);
    }
  }

  lemma {:induction false} NoAckInBracket(run: Outcome, wired: bool, e: Event)
    requires e.Ack?
    ensures Count(Bracket(run, wired), e) == 0
  {
    NoneCounted(Bracket(run, wired), e);
  }

  lemma {:induction false} NoneCounted(log: seq<Event>, e: Event)
    requires e !in log
    ensures Count(log, e) == 0
  {
    if log != [] {
      NoneCounted(log[..|log| - 1], e);
    }
  }

  /** A process killed between any two events leaves a log that breaks no rule up to that point. */
  lemma {:induction false} KilledLogIsAPrefix(attempts: seq<Attempt>, wired: bool, n: nat)
    requires n <= |LogOf(attempts, wired)|
    ensures !ObserveAll(Quiet, LogOf(attempts, wired)[..n]).Broken?
  {
    hide LogOf, EventsOf, Observe;
    LogIsBracketed(attempts, wired);
    var log := LogOf(attempts, wired);
    ObserveConcat(Quiet, log[..n], log[n..]);
    assert log == log[..n] + log[n..];
    StaysBroken(log[n..]);
  }

  lemma {:induction false} StaysBroken(log: seq<Event>)
    ensures ObserveAll(Broken, log) == Broken
  {
    if log != [] {
      StaysBroken(log[..|log| - 1]);
    }
  }

  // ------------------------------------------------------------ the card's limit

  /** Under "preserve" an attempt leaves the card at the limit it found exactly when it applied no
      cap, or the process lived to restore it and the restore write went through, or the cap was that
      limit already.  Exceptions of either kind do not matter. */
  lemma {:induction false} CapIsUndoneIff(s: PowerCap.State, a: Attempt, ttl: real, defaultMw: int)
    requires s.prior.None?
    ensures CardAfter(s, a, true, PowerCap.Preserve, ttl, defaultMw).limitMw == s.limitMw <==>
      || JobOf(a, true).None?
      || PowerCap.ApplyStatus(s, a.apply, ttl) != PowerCap.Applied
      || (!DiesCapped(a) && a.restore.write == PowerCap.Written)
      || PowerCap.AfterApply(s, a.apply, ttl).limitMw == s.limitMw
  {
    if JobOf(a, true).Some? && !DiesCapped(a) {
      PowerCap.PreserveBracket(s, a.apply, a.restore, ttl, defaultMw);
    }
  }

  function CardAfterAll(
    s: PowerCap.State, attempts: seq<Attempt>, wired: bool, policy: PowerCap.Policy, ttl: real, defaultMw: int)
    : PowerCap.State
    decreases |attempts|
  {
    if attempts == [] then s
    else
      var s1 := CardAfter(s, attempts[0], wired, policy, ttl, defaultMw);
      if EndOf(attempts[0]) != Completed then s1
      else CardAfterAll(s1, attempts[1..], wired, policy, ttl, defaultMw)
  }

  lemma {:induction false} JobsFromFront(
      s: PowerCap.State, job: PowerCap.Job, jobs: seq<PowerCap.Job>, policy: PowerCap.Policy, ttl: real, defaultMw: int)
    ensures PowerCap.AfterJobs(s, [job] + jobs, policy, ttl, defaultMw) ==
      PowerCap.AfterJobs(PowerCap.AfterJob(s, job, policy, ttl, defaultMw), jobs, policy, ttl, defaultMw)
  {
    hide PowerCap.AfterJob;
    var all, n := [job] + jobs, |jobs|;
    assert all[..n] == if n == 0 then [] else [job] + jobs[..n - 1];
    if n > 0 {
      JobsFromFront(s, job, jobs[..n - 1], policy, ttl, defaultMw);
    } else {
      assert PowerCap.AfterJobs(s, [], policy, ttl, defaultMw) == s;
    }
  }

  /** A lifetime is to the card the history of its power-cap jobs. */
  lemma {:induction false} LifetimeIsJobs(
      s: PowerCap.State, attempts: seq<Attempt>, wired: bool, policy: PowerCap.Policy, ttl: real, defaultMw: int)
    ensures CardAfterAll(s, attempts, wired, policy, ttl, defaultMw) ==
      PowerCap.AfterJobs(s, JobsOf(attempts, wired), policy, ttl, defaultMw)
    decreases |attempts|
  {
    hide PowerCap.AfterJob, JobOf, EndOf;
    if attempts != [] {
      var a := attempts[0];
      var s1 := CardAfter(s, a, wired, policy, ttl, defaultMw);
      var later := if EndOf(a) == Completed then JobsOf(attempts[1..], wired) else [];
      LifetimeIsJobs(s1, attempts[1..], wired, policy, ttl, defaultMw);
      if JobOf(a, wired).Some? {
        JobsFromFront(s, JobOf(a, wired).value, later, policy, ttl, defaultMw);
      } else {
        assert [] + later == later;
      }
    }
  }

  /** The card over successive processes, each with an empty cache and no saved limit. */
  function LimitAfter(
    limitMw: int, lives: seq<seq<Attempt>>, wired: bool, policy: PowerCap.Policy, ttl: real, defaultMw: int): int
  {
    if lives == [] then limitMw
    else
      var before := LimitAfter(limitMw, lives[..|lives| - 1], wired, policy, ttl, defaultMw);
      CardAfterAll(Fresh(before), lives[|lives| - 1], wired, policy, ttl, defaultMw).limitMw
  }

  function Fresh(limitMw: int): PowerCap.State {
    PowerCap.State(limitMw, None, PowerCap.Cache(None, None))
  }

  /** No process dies between a cap's apply and its restore, and every restore write goes through. */
  ghost predicate Survive(lives: seq<seq<Attempt>>, wired: bool) {
    forall i :: 0 <= i < |lives| ==>
      PowerCap.NoKills(JobsOf(lives[i], wired)) && PowerCap.RestoresSucceed(JobsOf(lives[i], wired))
  }

  /** However processes end, by exceptions escaping any of the calls or by dying anywhere but
      between a cap's apply and its restore, a preserved limit survives all of them. */
  lemma {:induction false} EscapesLeaveNoCap(
      limitMw: int, lives: seq<seq<Attempt>>, wired: bool, ttl: real, defaultMw: int)
    requires Survive(lives, wired)
    ensures LimitAfter(limitMw, lives, wired, PowerCap.Preserve, ttl, defaultMw) == limitMw
  {
    if lives != [] {
      hide PowerCap.NoKills, PowerCap.RestoresSucceed, CardAfterAll, JobsOf;
      var init, last := lives[..|lives| - 1], lives[|lives| - 1];
      EscapesLeaveNoCap(limitMw, init, wired, ttl, defaultMw);
      LifetimeIsJobs(Fresh(limitMw), last, wired, PowerCap.Preserve, ttl, defaultMw);
      PowerCap.PreserveHistory(Fresh(limitMw), JobsOf(last, wired), ttl, defaultMw);
    }
  }

  // ------------------------------------------------------------ the daemon

  class Daemon {
    const cap: PowerCap.PowerCapManager?
    var events: seq<Event>

    constructor (cap: PowerCap.PowerCapManager?)
      ensures this.cap == cap && events == []
    {
      this.cap, events := cap, [];
    }

    method Log(e: Event)
      modifies this
      ensures events == old(events) + [e]
    {
      events := events + [e];
    }

    /** Profiler start, cap, and the adapter's run with its handlers: the restore is the `finally`,
        which runs on every way out of the run but the process's death. */
    method RunGuarded(a: Attempt) returns (end: End, returned: bool)
      requires a.fate.Runs? && a.fate.start == Returns
      modifies this, if cap == null then {} else {cap, cap.gpu}
      ensures events == old(events) + Bracket(a.fate.run, cap != null)
      ensures end == (match a.fate.run case Dies => Killed case Interrupted => Escaped case _ => Completed)
      ensures returned <==> a.fate.run == Returns
      ensures cap != null ==>
        var after := CardAfter(old(cap.Current()), a, true, cap.policy, cap.ttl, cap.gpu.defaultMw);
        cap.gpu.limitMw == after.limitMw && (end != Killed ==> cap.Current() == after)
    {
      hide PowerCap.ApplyStatus, PowerCap.Refreshed, PowerCap.ToMw, PowerCap.ToWatts;
      Log(ProfilerStart);
      if cap != null {
        Log(CapApply);
        var _ := cap.Apply(a.apply);
      }
      Log(AdapterRun);
      if a.fate.run == Dies {
        return Killed, false;
      }
      if cap != null {
        Log(CapRestore);
        var _ := cap.Restore(a.restore);
      }
      end, returned := if a.fate.run == Interrupted then Escaped else Completed, a.fate.run == Returns;
    }

    /** Profiler stop, report and last ack; neither of the first two calls has a handler. */
    method Close(a: Attempt, returned: bool) returns (end: End)
      requires a.fate.Runs? && (returned <==> a.fate.run == Returns)
      modifies this
      ensures events == old(events) + Closing(a)
      ensures end == if a.fate.stop != Returns then Unguarded(a.fate.stop) else Unguarded(a.fate.report)
    {
      if a.fate.stop != Returns {
        return Unguarded(a.fate.stop);
      }
      Log(ProfilerStop);
      if a.fate.report != Returns {
        return Unguarded(a.fate.report);
      }
      Log(Report);
      Log(Ack(if a.fate.ok && returned then Finished else Failed, a.version, a.workflowId));
      return Completed;
    }

    /** One attempt.  The first early return after the `started` ack is an exception of
        `profiler.start`, which has no handler. */
    method Execute(a: Attempt) returns (end: End)
      modifies this, if cap == null then {} else {cap, cap.gpu}
      ensures end == EndOf(a) && events == old(events) + EventsOf(a, cap != null)
      ensures cap != null ==>
        var after := CardAfter(old(cap.Current()), a, true, cap.policy, cap.ttl, cap.gpu.defaultMw);
        cap.gpu.limitMw == after.limitMw && (end != Killed ==> cap.Current() == after)
    {
      hide Bracket, Closing, PowerCap.AfterJob;
      if a.fate.UnknownJob? || a.fate.UnknownFramework? {
        return Completed;
      }
      if a.fate.PreflightFails? {
        Log(Ack(Failed, a.version, a.workflowId));
        return Completed;
      }
      Log(Ack(Started, a.version, a.workflowId));
      if a.fate.start != Returns {
        return Unguarded(a.fate.start);
      }
      ghost var started := Ack(Started, a.version, a.workflowId);
      var returned: bool;
      end, returned := RunGuarded(a);
      assert events == old(events) + ([started] + Bracket(a.fate.run, cap != null));
      hide CardAfter;
      if end == Completed {
        end := Close(a, returned);
        assert events == old(events) + ([started] + (Bracket(a.fate.run, cap != null) + Closing(a)));
      } else {
        assert events == old(events) + ([started] + (Bracket(a.fate.run, cap != null) + []));
      }
    }

    /** The loop over due placements: an exception that escapes an attempt leaves it for good. */
    method Live(attempts: seq<Attempt>) returns (end: End)
      modifies this, if cap == null then {} else {cap, cap.gpu}
      ensures end == LifeEnd(attempts) && events == old(events) + LogOf(attempts, cap != null)
      ensures cap != null ==>
        var after := CardAfterAll(old(cap.Current()), attempts, true, cap.policy, cap.ttl, cap.gpu.defaultMw);
        cap.gpu.limitMw == after.limitMw
    {
      hide EventsOf, EndOf, CardAfter, LogOf;
      LogOfNone(cap != null);
      for i := 0 to |attempts|
        invariant events + LogOf(attempts[i..], cap != null) == old(events) + LogOf(attempts, cap != null)
        invariant LifeEnd(attempts[i..]) == LifeEnd(attempts)
        invariant cap != null ==>
          CardAfterAll(cap.Current(), attempts[i..], true, cap.policy, cap.ttl, cap.gpu.defaultMw) ==
          CardAfterAll(old(cap.Current()), attempts, true, cap.policy, cap.ttl, cap.gpu.defaultMw)
      {
        assert attempts[i..][1..] == attempts[i + 1..];
        LogOfStep(attempts, i, cap != null);
        end := Execute(attempts[i]);
        if end != Completed {
          return;
        }
      }
      end := Completed;
    }
  }

  // ------------------------------------------------------------ time bounds

  /** Times are in microseconds. */
  const MIN_WINDOW_TIMEOUT := 60_000_000

  /** A due job's window end, its local deadline, and its own declared timeout. */
  datatype Window = Window(end: Option<int>, deadline: Option<int>, declared: Option<int>)

  function LimitOf(w: Window): Option<int> {
    if w.end.Some? then w.end else w.deadline
  }

  /** The timeout the adapter is given; `now` is the tick's start for every job of the tick. */
  function TimeoutOf(w: Window, now: int): Option<int> {
    if w.declared.Some? then w.declared
    else if LimitOf(w).None? then None
    else Some(Max(LimitOf(w).value - now, MIN_WINDOW_TIMEOUT))
  }

  /** The bound a job is given: its own declared timeout; else what is left of its window, or of its
      local deadline without one, but never below the floor; and none without any of the three. */
  lemma {:induction false} TimeoutIs(end: Option<int>, deadline: Option<int>, declared: Option<int>, now: int)
    ensures
      var timeout := TimeoutOf(Window(end, deadline, declared), now);
      && (timeout.None? <==> end.None? && deadline.None? && declared.None?)
      && (declared.Some? ==> timeout == declared)
      && (declared.None? && timeout.Some? ==>
            && timeout.value >= 60_000_000
            && (timeout.value > 60_000_000 ==>
                  if end.Some? then now + timeout.value == end.value else now + timeout.value == deadline.value)
            && (timeout.value == 60_000_000 ==>
                  if end.Some? then end.value <= now + timeout.value else deadline.value <= now + timeout.value))
  {
  }

  function TotalTime(runtimes: seq<int>): int {
    if runtimes == [] then 0 else TotalTime(runtimes[..|runtimes| - 1]) + runtimes[|runtimes| - 1]
  }

  /** Adapters honour the timeouts they are given. */
  ghost predicate Honoured(windows: seq<Window>, runtimes: seq<int>, now: int) {
    && |runtimes| == |windows|
    && forall k :: 0 <= k < |windows| ==>
         && windows[k].declared.None? && LimitOf(windows[k]).Some?
         && 0 <= runtimes[k] <= TimeoutOf(windows[k], now).value
  }

  function Budgets(windows: seq<Window>, now: int): (b: seq<int>)
    requires forall k :: 0 <= k < |windows| ==> LimitOf(windows[k]).Some?
    ensures |b| == |windows|
    ensures forall k :: 0 <= k < |windows| ==> b[k] == Max(LimitOf(windows[k]).value - now, MIN_WINDOW_TIMEOUT)
  {
    seq(|windows|, k requires 0 <= k < |windows| => Max(LimitOf(windows[k]).value - now, MIN_WINDOW_TIMEOUT))
  }

  lemma {:induction false} TotalMonotone(a: seq<int>, b: seq<int>)
    requires |a| == |b| && forall k :: 0 <= k < |a| ==> 0 <= a[k] <= b[k]
    ensures 0 <= TotalTime(a) <= TotalTime(b)
  {
    if a != [] {
      TotalMonotone(a[..|a| - 1], b[..|b| - 1]);
    }
  }

  /** The time that passes before each job's run starts, and after the run before it ended: the
      schedule pull and the drains, preflight, fingerprint, acks, profiler, cap and report. */
  ghost predicate Delays(delays: seq<int>, windows: seq<Window>) {
    |delays| == |windows| && forall k :: 0 <= k < |delays| ==> delays[k] >= 0
  }

  /** When the k-th run of the tick is over. */
  function FinishOf(delays: seq<int>, runtimes: seq<int>, now: int, k: nat): int
    requires k < |delays| && k < |runtimes|
  {
    now + TotalTime(delays[..k + 1]) + TotalTime(runtimes[..k + 1])
  }

  /** The k-th job of a tick is over by now plus the delays and budgets up to it; it overruns its
      limit or the floor by no more than those delays and the runs before it. */
  lemma {:induction false} FinishBound(
      windows: seq<Window>, delays: seq<int>, runtimes: seq<int>, now: int, k: nat)
    requires Honoured(windows, runtimes, now) && Delays(delays, windows) && k < |windows|
    ensures
      var finish := FinishOf(delays, runtimes, now, k);
      && finish <= now + TotalTime(delays[..k + 1]) + TotalTime(Budgets(windows, now)[..k + 1])
      && finish - Max(LimitOf(windows[k]).value, now + MIN_WINDOW_TIMEOUT) <=
           TotalTime(delays[..k + 1]) + TotalTime(runtimes[..k])
  {
    TotalMonotone(runtimes[..k + 1], Budgets(windows, now)[..k + 1]);
    assert runtimes[..k + 1][..k] == runtimes[..k];
  }

  /** The bound is tight: every job may use all of its budget, so any job can end past its window,
      by all the delays so far and a floor for each job before it, although no adapter broke its
      timeout. */
  lemma {:induction false} JobsCanOverrun(windows: seq<Window>, delays: seq<int>, now: int, k: nat)
    requires forall i :: 0 <= i < |windows| ==> windows[i].declared.None? && LimitOf(windows[i]).Some?
    requires Delays(delays, windows) && k < |windows|
    ensures
      var runtimes := Budgets(windows, now);
      && Honoured(windows, runtimes, now)
      && FinishOf(delays, runtimes, now, k) >=
           LimitOf(windows[k]).value + TotalTime(delays[..k + 1]) + k * MIN_WINDOW_TIMEOUT
      && (k == 0 ==> FinishOf(delays, runtimes, now, 0) >= now + delays[0] + MIN_WINDOW_TIMEOUT)
  {
    var runtimes := Budgets(windows, now);
    assert runtimes[..k + 1][..k] == runtimes[..k];
    assert delays[..k + 1][..k] == delays[..k];
    TotalAtLeast(runtimes[..k]);
  }

  /** Exactly when a tick guarantees a job's window: whatever honest runtimes come, the k-th job is
      over by its limit if and only if it is the first one, its run starts with no delay after the
      tick's start, and the limit is then at least the floor away. */
  lemma {:induction false} WindowIsKeptIff(windows: seq<Window>, delays: seq<int>, now: int, k: nat)
    requires forall i :: 0 <= i < |windows| ==> windows[i].declared.None? && LimitOf(windows[i]).Some?
    requires Delays(delays, windows) && k < |windows|
    ensures
      (forall runtimes :: Honoured(windows, runtimes, now) ==>
         FinishOf(delays, runtimes, now, k) <= LimitOf(windows[k]).value) <==>
      k == 0 && delays[0] == 0 && LimitOf(windows[0]).value - now >= MIN_WINDOW_TIMEOUT
  {
    JobsCanOverrun(windows, delays, now, k);
    assert delays[..k + 1][..k] == delays[..k];
    DelaysAddUp(delays[..k]);
    if k == 0 && delays[0] == 0 && LimitOf(windows[0]).value - now >= MIN_WINDOW_TIMEOUT {
      forall runtimes | Honoured(windows, runtimes, now)
        ensures FinishOf(delays, runtimes, now, 0) <= LimitOf(windows[0]).value
      {
        FinishBound(windows, delays, runtimes, now, 0);
      }
    }
  }

  lemma {:induction false} DelaysAddUp(delays: seq<int>)
    requires forall k :: 0 <= k < |delays| ==> delays[k] >= 0
    ensures TotalTime(delays) >= 0
  {
    if delays != [] {
      DelaysAddUp(delays[..|delays| - 1]);
    }
  }

  /** A job first in its tick, ten minutes before its window ends: half a minute of draining before
      its run, and a run that keeps to its timeout, end it half a minute late. */
  lemma {:induction false} DrainingDelaysTheFirstJob(now: int)
    ensures
      var windows := [Window(Some(now + 600_000_000), None, None)];
      && Honoured(windows, [600_000_000], now)
      && FinishOf([30_000_000], [600_000_000], now, 0) == LimitOf(windows[0]).value + 30_000_000
  {
    assert [30_000_000][..1] == [30_000_000] && [600_000_000][..1] == [600_000_000];
    assert [30_000_000][..0] == [] && [600_000_000][..0] == [];
  }

  lemma {:induction false} TotalAtLeast(runtimes: seq<int>)
    requires forall i :: 0 <= i < |runtimes| ==> runtimes[i] >= MIN_WINDOW_TIMEOUT
    ensures TotalTime(runtimes) >= |runtimes| * MIN_WINDOW_TIMEOUT
  {
    if runtimes != [] {
      TotalAtLeast(runtimes[..|runtimes| - 1]);
    }
  }
}
