/** The execution loop: which placements are attempted, when, and how often (executor.py). */
module Scheduling {
  import opened Basics
  import opened Sorting

  /** A timezone-aware time: the instant and the offset it was written with.  Two moments have the
      same ISO text exactly when both parts agree; comparisons look at the instant only. */
  datatype Moment = Moment(at: int, offset: int)

  datatype Placement = Placement(
    workflowId: Option<string>, start: Option<Moment>, end: Option<Moment>, feasible: bool)

  datatype Schedule = Schedule(version: int, validUntil: Option<Moment>, placements: seq<Placement>)

  /** What the local catalog knows of a workflow. */
  datatype Job = Job(deadline: Option<Moment>)

  type Catalog = map<Option<string>, Job>

  datatype Mode = Normal | Fallback

  datatype Key = Key(workflowId: Option<string>, start: Option<Moment>)

  function KeyOf(p: Placement): Key {
    Key(p.workflowId, p.start)
  }

  function ModeAt(s: Schedule, now: Moment): Mode {
    if s.validUntil.None? || now.at <= s.validUntil.value.at then Normal else Fallback
  }

  /** The planned start, or in fallback mode as late as still meets the deadline. */
  function TargetStart(p: Placement, mode: Mode, catalog: Catalog): Option<int> {
    var planned := if p.start.Some? then Some(p.start.value.at) else None;
    if mode == Normal then planned
    else
      var deadline :=
        if p.workflowId in catalog && catalog[p.workflowId].deadline.Some? then catalog[p.workflowId].deadline
        else p.end;
      if deadline.Some? && p.start.Some? && p.end.Some? then
        Some(deadline.value.at - (p.end.value.at - p.start.value.at))
      else planned
  }

  // ------------------------------------------------------------ ordering

  datatype Entry = Entry(target: int, placement: Placement)

  /** Code-point order on strings. */
  predicate StringLe(a: string, b: string) {
    a == "" || (b != "" && (a[0] < b[0] || (a[0] == b[0] && StringLe(a[1..], b[1..]))))
  }

  function Name(p: Placement): string {
    if p.workflowId.Some? then p.workflowId.value else ""
  }

  predicate EntryLe(a: Entry, b: Entry) {
    a.target < b.target || (a.target == b.target && StringLe(Name(a.placement), Name(b.placement)))
  }

  lemma {:induction false} StringLeTotal(a: string, b: string)
    ensures StringLe(a, b) || StringLe(b, a)
  {
    if a != "" && b != "" {
      StringLeTotal(a[1..], b[1..]);
    }
  }

  lemma {:induction false} StringLeTransitive(a: string, b: string, c: string)
    requires StringLe(a, b) && StringLe(b, c)
    ensures StringLe(a, c)
  {
    if a != "" && a[0] == b[0] == c[0] {
      StringLeTransitive(a[1..], b[1..], c[1..]);
    }
  }

  lemma {:induction false} DifferenceMoves(a: string, b: string, k: nat)
    requires a != [] && b != [] && a[0] == b[0] && k < |a[1..]| && k < |b[1..]|
    ensures FirstDifference(a[1..], b[1..], k) <==> FirstDifference(a, b, k + 1)
  {
    assert a[..k + 1] == [a[0]] + a[1..][..k] && b[..k + 1] == [b[0]] + b[1..][..k];
    if a[..k + 1] == b[..k + 1] {
      assert a[..k + 1][1..] == a[1..][..k] && b[..k + 1][1..] == b[1..][..k];
    }
  }

  /** A string comes no later than another that it begins, or that is larger where they first
      differ. */
  lemma {:induction false} StringLeMeaning(a: string, b: string)
    ensures StringLe(a, b) <==> a <= b || exists k :: 0 <= k < |a| && k < |b| && FirstDifference(a, b, k)
  {
    if a != "" && b != "" && a[0] == b[0] {
      StringLeMeaning(a[1..], b[1..]);
      assert !FirstDifference(a, b, 0);
      hide FirstDifference;
      assert a == [a[0]] + a[1..] && b == [b[0]] + b[1..];
      if k :| 0 <= k < |a[1..]| && k < |b[1..]| && FirstDifference(a[1..], b[1..], k) {
        DifferenceMoves(a, b, k);
      }
      if k :| 0 <= k < |a| && k < |b| && FirstDifference(a, b, k) {
        DifferenceMoves(a, b, k - 1);
      }
    } else if a != "" && b != "" {
      assert a[0] < b[0] <==> FirstDifference(a, b, 0);
      assert forall k :: 0 < k < |a| && k < |b| ==> a[..k][0] != b[..k][0];
    }
  }

  predicate FirstDifference(a: string, b: string, k: nat)
    requires k < |a| && k < |b|
  {
    a[..k] == b[..k] && a[k] < b[k]
  }

  lemma {:induction false} EntryOrder()
    ensures TotalPreorder(EntryLe)
  {
    forall a: Entry, b: Entry ensures EntryLe(a, b) || EntryLe(b, a) {
      StringLeTotal(Name(a.placement), Name(b.placement));
    }
    forall a: Entry, b: Entry, c: Entry | EntryLe(a, b) && EntryLe(b, c) ensures EntryLe(a, c) {
      if a.target == b.target == c.target {
        StringLeTransitive(Name(a.placement), Name(b.placement), Name(c.placement));
      }
    }
  }

  // ------------------------------------------------------------ what is pending and due

  predicate Startable(p: Placement, executed: set<Key>) {
    p.feasible && p.start.Some? && KeyOf(p) !in executed
  }

  function Candidates(ps: seq<Placement>, executed: set<Key>, mode: Mode, catalog: Catalog): (es: seq<Entry>)
    ensures forall i :: 0 <= i < |es| ==>
      && es[i].placement in ps && Startable(es[i].placement, executed)
      && Some(es[i].target) == TargetStart(es[i].placement, mode, catalog)
    ensures forall i :: 0 <= i < |ps| && Startable(ps[i], executed) ==>
      TargetStart(ps[i], mode, catalog).Some? && Entry(TargetStart(ps[i], mode, catalog).value, ps[i]) in es
  {
    if ps == [] then []
    else
      var p, rest := ps[|ps| - 1], Candidates(ps[..|ps| - 1], executed, mode, catalog);
      if !Startable(p, executed) then rest
      else
        var target := TargetStart(p, mode, catalog);
        if target.None? then rest else rest + [Entry(target.value, p)]
  }

  function PendingOf(s: Schedule, executed: set<Key>, mode: Mode, catalog: Catalog): seq<Entry> {
    Sort(Candidates(s.placements, executed, mode, catalog), EntryLe)
  }

  function Arrived(es: seq<Entry>, now: Moment): (r: seq<Entry>)
    ensures forall i :: 0 <= i < |r| ==> r[i] in es && r[i].target <= now.at
    ensures forall i :: 0 <= i < |es| && es[i].target <= now.at ==> es[i] in r
  {
    if es == [] then []
    else
      (if now.at >= es[0].target then [es[0]] else []) + Arrived(es[1..], now)
  }

  lemma {:induction false} ArrivedSorted(es: seq<Entry>, now: Moment)
    requires Sorted(es, EntryLe)
    ensures Sorted(Arrived(es, now), EntryLe)
  {
    if es != [] {
      hide EntryLe;
      ArrivedSorted(es[1..], now);
      var rest := Arrived(es[1..], now);
      forall j | 0 <= j < |rest| ensures EntryLe(es[0], rest[j]) {
        var k :| 0 <= k < |es[1..]| && es[1..][k] == rest[j];
        assert es[k + 1] == rest[j];
      }
    }
  }

  // ------------------------------------------------------------ a tick as a state transition

  datatype State = State(current: Option<Schedule>, version: int, executed: set<Key>)

  /** One tick's world: the clock, the schedule pulled if one came with status 200, the catalog. */
  datatype Input = Input(now: Moment, pulled: Option<Schedule>, catalog: Catalog)

  datatype Attempt = Attempt(tick: nat, now: Moment, mode: Mode, catalog: Catalog, entry: Entry)

  const FRESH := State(None, -1, {})

  function Adopted(s: State, pulled: Option<Schedule>): State {
    if pulled.None? then s else s.(current := pulled, version := pulled.value.version)
  }

  function DueAt(s: State, input: Input): seq<Entry> {
    var s1 := Adopted(s, input.pulled);
    if s1.current.None? then []
    else
      var mode := ModeAt(s1.current.value, input.now);
      Arrived(PendingOf(s1.current.value, s1.executed, mode, input.catalog), input.now)
  }

  function Keys(es: seq<Entry>): set<Key> {
    set i | 0 <= i < |es| :: KeyOf(es[i].placement)
  }

  function Ticked(s: State, input: Input): State {
    var s1 := Adopted(s, input.pulled);
    s1.(executed := s1.executed + Keys(DueAt(s, input)))
  }

  function RunState(inputs: seq<Input>): State {
    if inputs == [] then FRESH else Ticked(RunState(inputs[..|inputs| - 1]), inputs[|inputs| - 1])
  }

  /** One attempt per entry, in the entries' order. */
  function AttemptsFor(tick: nat, now: Moment, mode: Mode, catalog: Catalog, due: seq<Entry>): (r: seq<Attempt>)
    ensures |r| == |due|
    ensures forall i :: 0 <= i < |r| ==> r[i] == Attempt(tick, now, mode, catalog, due[i])
  {
    seq(|due|, i requires 0 <= i < |due| => Attempt(tick, now, mode, catalog, due[i]))
  }

  function AttemptsOf(tick: nat, s: State, input: Input): (r: seq<Attempt>)
    ensures |r| == |DueAt(s, input)|
    ensures forall i :: 0 <= i < |r| ==> r[i].tick == tick && r[i].entry == DueAt(s, input)[i]
  {
    var s1 := Adopted(s, input.pulled);
    var mode := if s1.current.Some? then ModeAt(s1.current.value, input.now) else Normal;
    AttemptsFor(tick, input.now, mode, input.catalog, DueAt(s, input))
  }

  /** Everything attempted in one process lifetime, in order. */
  function RunLog(inputs: seq<Input>): seq<Attempt> {
    if inputs == [] then []
    else
      var init := inputs[..|inputs| - 1];
      RunLog(init) + AttemptsOf(|init|, RunState(init), inputs[|inputs| - 1])
  }

  // ------------------------------------------------------------ main results

  lemma {:induction false} DueMeaning(s: State, input: Input)
    ensures Sorted(DueAt(s, input), EntryLe)
    ensures forall i :: 0 <= i < |DueAt(s, input)| ==>
      var e := DueAt(s, input)[i];
      var s1 := Adopted(s, input.pulled);
      && s1.current.Some? && e.placement in s1.current.value.placements
      && Startable(e.placement, s.executed) && e.target <= input.now.at
      && Some(e.target) == TargetStart(e.placement, ModeAt(s1.current.value, input.now), input.catalog)
  {
    var s1 := Adopted(s, input.pulled);
    if s1.current.Some? {
      hide EntryLe, Startable, TargetStart, ModeAt;
      var mode := ModeAt(s1.current.value, input.now);
      var candidates := Candidates(s1.current.value.placements, s1.executed, mode, input.catalog);
      EntryOrder();
      SortSorts(candidates, EntryLe);
      SameElements(Sort(candidates, EntryLe), candidates);
      ArrivedSorted(Sort(candidates, EntryLe), input.now);
    }
  }

  function LoggedKeys(log: seq<Attempt>): set<Key> {
    set i | 0 <= i < |log| :: KeyOf(log[i].entry.placement)
  }

  lemma {:induction false} LoggedKeysConcat(a: seq<Attempt>, b: seq<Attempt>)
    ensures LoggedKeys(a + b) == LoggedKeys(a) + LoggedKeys(b)
  {
    var all := a + b;
    assert forall i :: 0 <= i < |a| ==> all[i] == a[i];
    assert forall i :: 0 <= i < |b| ==> all[|a| + i] == b[i];
  }

  lemma {:induction false} AttemptedKeys(tick: nat, s: State, input: Input)
    ensures LoggedKeys(AttemptsOf(tick, s, input)) == Keys(DueAt(s, input))
  {
    var attempts, due := AttemptsOf(tick, s, input), DueAt(s, input);
    assert forall i :: 0 <= i < |due| ==> attempts[i].entry == due[i];
  }

  lemma {:induction false} RunExtends(inputs: seq<Input>, input: Input)
    ensures RunState(inputs + [input]) == Ticked(RunState(inputs), input)
    ensures RunLog(inputs + [input]) == RunLog(inputs) + AttemptsOf(|inputs|, RunState(inputs), input)
  {
    assert (inputs + [input])[..|inputs|] == inputs;
  }

  lemma {:induction false} LogTicks(inputs: seq<Input>)
    ensures forall i :: 0 <= i < |RunLog(inputs)| ==> RunLog(inputs)[i].tick < |inputs|
  {
    if inputs != [] {
      hide RunState, DueAt, AttemptsOf;
      var init, last := inputs[..|inputs| - 1], inputs[|inputs| - 1];
      LogTicks(init);
      TicksAppended(RunLog(init), AttemptsOf(|init|, RunState(init), last), |init|);
    }
  }

  lemma {:induction false} TicksAppended(before: seq<Attempt>, more: seq<Attempt>, tick: nat)
    requires forall i :: 0 <= i < |before| ==> before[i].tick < tick
    requires forall i :: 0 <= i < |more| ==> more[i].tick == tick
    ensures forall i :: 0 <= i < |before + more| ==> (before + more)[i].tick <= tick
  {
  }

  /** The executed set is exactly the keys of the log. */
  lemma {:induction false} LogKeys(inputs: seq<Input>)
    ensures RunState(inputs).executed == LoggedKeys(RunLog(inputs))
  {
    if inputs != [] {
      hide DueAt, AttemptsOf, LoggedKeys;
      var init, last := inputs[..|inputs| - 1], inputs[|inputs| - 1];
      LogKeys(init);
      AttemptedKeys(|init|, RunState(init), last);
      LoggedKeysConcat(RunLog(init), AttemptsOf(|init|, RunState(init), last));
    }
  }

  lemma {:induction false} LogBefore(inputs: seq<Input>, i: nat)
    requires inputs != [] && i < |RunLog(inputs[..|inputs| - 1])|
    ensures i < |RunLog(inputs)| && RunLog(inputs)[i] == RunLog(inputs[..|inputs| - 1])[i]
    ensures RunLog(inputs)[i].tick < |inputs| - 1
  {
    LogTicks(inputs[..|inputs| - 1]);
  }

  /** An attempt that is not an earlier one is an entry of the last tick's due list. */
  lemma {:induction false} LogLast(inputs: seq<Input>, i: nat) returns (k: nat)
    requires i < |RunLog(inputs)| && inputs != [] && i >= |RunLog(inputs[..|inputs| - 1])|
    ensures RunLog(inputs)[i].tick == |inputs| - 1
    ensures
      var init := inputs[..|inputs| - 1];
      var due := DueAt(RunState(init), inputs[|inputs| - 1]);
      k == i - |RunLog(init)| && k < |due| && RunLog(inputs)[i].entry == due[k]
  {
    hide RunLog, RunState, DueAt, AttemptsOf;
    var init, last := inputs[..|inputs| - 1], inputs[|inputs| - 1];
    assert inputs == init + [last];
    RunExtends(init, last);
    k := i - |RunLog(init)|;
    assert RunLog(inputs)[i] == AttemptsOf(|init|, RunState(init), last)[k];
  }

  /** No key is attempted in two different ticks, through any schedules adopted in between. */
  lemma {:induction false} OncePerTick(inputs: seq<Input>, i: nat, j: nat)
    requires i < j < |RunLog(inputs)| && RunLog(inputs)[i].tick != RunLog(inputs)[j].tick
    ensures KeyOf(RunLog(inputs)[i].entry.placement) != KeyOf(RunLog(inputs)[j].entry.placement)
  {
    var init, last := inputs[..|inputs| - 1], inputs[|inputs| - 1];
    var old_ := RunLog(init);
    if j < |old_| {
      OncePerTick(init, i, j);
    } else {
      LogKeys(init);
      LogTicks(init);
      DueMeaning(RunState(init), last);
      assert KeyOf(old_[i].entry.placement) in LoggedKeys(old_);
    }
  }

  /** Every attempt is of a feasible, placed job whose time has come. */
  lemma {:induction false} AttemptsAreDue(inputs: seq<Input>, i: nat)
    requires i < |RunLog(inputs)|
    ensures
      var a := RunLog(inputs)[i];
      && a.entry.placement.feasible && a.entry.placement.start.Some?
      && a.entry.target <= a.now.at
      && Some(a.entry.target) == TargetStart(a.entry.placement, a.mode, a.catalog)
  {
    var init, last := inputs[..|inputs| - 1], inputs[|inputs| - 1];
    if i < |RunLog(init)| {
      AttemptsAreDue(init, i);
    } else {
      DueMeaning(RunState(init), last);
    }
  }

  /** Within a tick attempts follow (target, workflow id). */
  lemma {:induction false} AttemptsInOrder(inputs: seq<Input>, i: nat, j: nat)
    requires i < j < |RunLog(inputs)|
    ensures RunLog(inputs)[i].tick <= RunLog(inputs)[j].tick
    ensures
      var a, b := RunLog(inputs)[i], RunLog(inputs)[j];
      a.tick == b.tick ==>
        || a.entry.target < b.entry.target
        || (a.entry.target == b.entry.target && StringLe(Name(a.entry.placement), Name(b.entry.placement)))
  {
    var init, last := inputs[..|inputs| - 1], inputs[|inputs| - 1];
    if j < |RunLog(init)| {
      AttemptsInOrder(init, i, j);
    } else {
      LogTicks(init);
      DueMeaning(RunState(init), last);
    }
  }

  /** Nothing that is due is skipped: after a tick everything still pending under the same catalog
      lies strictly ahead, in normal and in fallback mode alike. */
  lemma {:induction false} NothingDueIsSkipped(s: State, input: Input)
    requires Ticked(s, input).current.Some?
    ensures
      var s' := Ticked(s, input);
      var mode := ModeAt(s'.current.value, input.now);
      forall i :: 0 <= i < |PendingOf(s'.current.value, s'.executed, mode, input.catalog)| ==>
        PendingOf(s'.current.value, s'.executed, mode, input.catalog)[i].target > input.now.at
  {
    var s1, s' := Adopted(s, input.pulled), Ticked(s, input);
    var schedule := s'.current.value;
    var mode := ModeAt(schedule, input.now);
    var before := Candidates(schedule.placements, s.executed, mode, input.catalog);
    var after := Candidates(schedule.placements, s'.executed, mode, input.catalog);
    EntryOrder();
    SortSorts(before, EntryLe);
    SameElements(Sort(before, EntryLe), before);
    SortSorts(after, EntryLe);
    SameElements(Sort(after, EntryLe), after);
    var pending := PendingOf(schedule, s'.executed, mode, input.catalog);
    forall i | 0 <= i < |pending| ensures pending[i].target > input.now.at {
      var e := pending[i];
      assert e in after;
      assert e.placement in schedule.placements && Startable(e.placement, s'.executed);
      assert e in before && e in Sort(before, EntryLe);
      DueIsExecuted(DueAt(s, input), e);
      assert e !in DueAt(s, input);
    }
  }

  /** What the tick reports as the next start: the head of what is then pending. */
  function NextTarget(s: State, input: Input): Option<int> {
    if s.current.None? then None
    else
      var pending := PendingOf(s.current.value, s.executed, ModeAt(s.current.value, input.now), input.catalog);
      if pending == [] then None else Some(pending[0].target)
  }

  /** The reported next start is the earliest target of everything still to be attempted, and lies
      strictly ahead; nothing is reported only when nothing is left. */
  lemma {:induction false} NextIsEarliest(s: State, input: Input, p: Placement)
    requires Ticked(s, input).current.Some?
    requires p in Ticked(s, input).current.value.placements && Startable(p, Ticked(s, input).executed)
    ensures
      var s' := Ticked(s, input);
      var target := TargetStart(p, ModeAt(s'.current.value, input.now), input.catalog);
      && NextTarget(s', input).Some?
      && target.Some? && input.now.at < NextTarget(s', input).value <= target.value
  {
    hide DueAt, TargetStart, Startable;
    NothingDueIsSkipped(s, input);
    var s' := Ticked(s, input);
    var mode := ModeAt(s'.current.value, input.now);
    var all := Candidates(s'.current.value.placements, s'.executed, mode, input.catalog);
    EntryOrder();
    SortSorts(all, EntryLe);
    SameElements(Sort(all, EntryLe), all);
    var e := Entry(TargetStart(p, mode, input.catalog).value, p);
    assert e in all && e in Sort(all, EntryLe);
    var i :| 0 <= i < |Sort(all, EntryLe)| && Sort(all, EntryLe)[i] == e;
    assert i > 0 ==> EntryLe(Sort(all, EntryLe)[0], e);
  }

  /** And it is some such placement's own target. */
  lemma {:induction false} NextIsSomeones(s: State, input: Input) returns (p: Placement)
    requires NextTarget(s, input).Some?
    ensures s.current.Some? && p in s.current.value.placements && Startable(p, s.executed)
    ensures TargetStart(p, ModeAt(s.current.value, input.now), input.catalog) == NextTarget(s, input)
  {
    hide TargetStart, Startable, EntryLe;
    var mode := ModeAt(s.current.value, input.now);
    var all := Candidates(s.current.value.placements, s.executed, mode, input.catalog);
    SameOnceSorted(all);
    var first := Sort(all, EntryLe)[0];
    assert first in Sort(all, EntryLe);
    p := first.placement;
  }

  lemma {:induction false} DueIsExecuted(due: seq<Entry>, e: Entry)
    ensures e in due ==> KeyOf(e.placement) in Keys(due)
  {
  }

  // ------------------------------------------------------------ what a tick attempts, spelled out

  /** When a fallback job must have ended: its local deadline, or else its planned end. */
  function DeadlineOf(p: Placement, catalog: Catalog): int
    requires p.end.Some?
  {
    if p.workflowId in catalog && catalog[p.workflowId].deadline.Some? then catalog[p.workflowId].deadline.value.at
    else p.end.value.at
  }

  /** A placement's turn has come at its planned start while the schedule is valid, and after that
      when its planned length, begun now, would end no earlier than its deadline. */
  ghost predicate TurnHasCome(p: Placement, s: Schedule, now: Moment, catalog: Catalog)
    requires p.start.Some?
  {
    if s.validUntil.None? || now.at <= s.validUntil.value.at || p.end.None? then p.start.value.at <= now.at
    else DeadlineOf(p, catalog) <= now.at + (p.end.value.at - p.start.value.at)
  }

  /** The k-th tick brought this schedule, and none since up to the t-th has brought another. */
  ghost predicate InForce(s: Schedule, inputs: seq<Input>, k: nat, t: nat) {
    && k <= t < |inputs|
    && inputs[k].pulled == Some(s)
    && forall j :: k < j <= t ==> inputs[j].pulled.None?
  }

  ghost predicate IsDue(due: seq<Entry>, p: Placement) {
    exists i :: 0 <= i < |due| && due[i].placement == p
  }

  lemma {:induction false} DueIff(s: State, input: Input, p: Placement)
    requires Adopted(s, input.pulled).current.Some?
    requires p in Adopted(s, input.pulled).current.value.placements
    ensures IsDue(DueAt(s, input), p) <==>
      && p.feasible && p.start.Some? && Key(p.workflowId, p.start) !in s.executed
      && TurnHasCome(p, Adopted(s, input.pulled).current.value, input.now, input.catalog)
  {
    var schedule := Adopted(s, input.pulled).current.value;
    var mode := ModeAt(schedule, input.now);
    DueMeaning(s, input);
    hide EntryLe, Sort;
    if Startable(p, s.executed) && TurnHasCome(p, schedule, input.now, input.catalog) {
      var target := TargetStart(p, mode, input.catalog).value;
      assert target <= input.now.at;
      DueIsFound(s, input, p, target);
    }
  }

  lemma {:induction false} DueIsFound(s: State, input: Input, p: Placement, target: int)
    requires Adopted(s, input.pulled).current.Some? && Startable(p, s.executed) && target <= input.now.at
    requires
      var schedule := Adopted(s, input.pulled).current.value;
      p in schedule.placements && TargetStart(p, ModeAt(schedule, input.now), input.catalog) == Some(target)
    ensures IsDue(DueAt(s, input), p)
  {
    hide EntryLe, ModeAt, TargetStart, Startable;
    var schedule, e := Adopted(s, input.pulled).current.value, Entry(target, p);
    var candidates := Candidates(schedule.placements, s.executed, ModeAt(schedule, input.now), input.catalog);
    SameOnceSorted(candidates);
    assert e in candidates && e in Sort(candidates, EntryLe);
    assert e in DueAt(s, input);
  }

  lemma {:induction false} SameOnceSorted(es: seq<Entry>)
    ensures forall e :: e in Sort(es, EntryLe) <==> e in es
  {
    EntryOrder();
    SortSorts(es, EntryLe);
    SameElements(Sort(es, EntryLe), es);
  }

  /** The log up to the t-th tick is the log of the ticks before it. */
  lemma {:induction false} LogPrefix(inputs: seq<Input>, t: nat, i: nat)
    requires t <= |inputs| && i < |RunLog(inputs)|
    ensures i < |RunLog(inputs[..t])| <==> RunLog(inputs)[i].tick < t
    ensures i < |RunLog(inputs[..t])| ==> RunLog(inputs[..t])[i] == RunLog(inputs)[i]
  {
    if t == |inputs| {
      assert inputs[..t] == inputs;
      LogTicks(inputs);
    } else {
      hide RunLog;
      var init := inputs[..|inputs| - 1];
      assert init[..t] == inputs[..t];
      if i < |RunLog(init)| {
        LogBefore(inputs, i);
        LogPrefix(init, t, i);
      } else {
        var _ := LogLast(inputs, i);
        LogGrows(init, t);
      }
    }
  }

  lemma {:induction false} LogGrows(inputs: seq<Input>, t: nat)
    requires t <= |inputs|
    ensures |RunLog(inputs[..t])| <= |RunLog(inputs)|
  {
    if t == |inputs| {
      assert inputs[..t] == inputs;
    } else {
      hide RunState, AttemptsOf;
      var init := inputs[..|inputs| - 1];
      assert init[..t] == inputs[..t];
      LogGrows(init, t);
    }
  }

  ghost predicate AttemptedAt(log: seq<Attempt>, t: nat, p: Placement) {
    exists i :: 0 <= i < |log| && log[i].tick == t && log[i].entry.placement == p
  }

  lemma {:induction false} AttemptedIffDue(inputs: seq<Input>, t: nat, p: Placement)
    requires t < |inputs|
    ensures AttemptedAt(RunLog(inputs), t, p) <==> IsDue(DueAt(RunState(inputs[..t]), inputs[t]), p)
  {
    hide RunLog, RunState, DueAt;
    var init, n := inputs[..|inputs| - 1], |inputs| - 1;
    var log, due := RunLog(inputs), DueAt(RunState(inputs[..t]), inputs[t]);
    if t < n {
      assert init[..t] == inputs[..t] && init[t] == inputs[t];
      AttemptedIffDue(init, t, p);
      if AttemptedAt(log, t, p) {
        var i :| 0 <= i < |log| && log[i].tick == t && log[i].entry.placement == p;
        LogPrefix(inputs, n, i);
        assert RunLog(init)[i] == log[i];
      }
      if AttemptedAt(RunLog(init), t, p) {
        var i :| 0 <= i < |RunLog(init)| && RunLog(init)[i].tick == t && RunLog(init)[i].entry.placement == p;
        LogBefore(inputs, i);
      }
    } else {
      if AttemptedAt(log, t, p) {
        var i :| 0 <= i < |log| && log[i].tick == t && log[i].entry.placement == p;
        LogPrefix(inputs, n, i);
        var k := LogLast(inputs, i);
        assert due[k].placement == p;
      }
      if IsDue(due, p) {
        var k :| 0 <= k < |due| && due[k].placement == p;
        DueIsLogged(inputs, k);
        var _ := LogLast(inputs, |RunLog(init)| + k);
      }
    }
  }

  lemma {:induction false} CurrentStep(inputs: seq<Input>, t: nat)
    requires t < |inputs|
    ensures RunState(inputs[..t + 1]).current ==
      if inputs[t].pulled.Some? then inputs[t].pulled else RunState(inputs[..t]).current
    ensures RunState(inputs[..t + 1]).version ==
      if inputs[t].pulled.Some? then inputs[t].pulled.value.version else RunState(inputs[..t]).version
    ensures t == 0 ==> RunState(inputs[..t]).current.None?
  {
    hide DueAt, Keys;
    assert inputs[..t + 1] == inputs[..t] + [inputs[t]];
    RunExtends(inputs[..t], inputs[t]);
  }

  /** The schedule a tick works on is the last one pulled, this tick's pull included. */
  lemma {:induction false} LatestPull(inputs: seq<Input>, s: Schedule, k: nat, t: nat)
    requires InForce(s, inputs, k, t)
    ensures RunState(inputs[..t + 1]).current == Some(s) && RunState(inputs[..t + 1]).version == s.version
    decreases t
  {
    hide RunState;
    CurrentStep(inputs, t);
    if k < t {
      LatestPull(inputs, s, k, t - 1);
    }
  }

  lemma {:induction false} PullFor(inputs: seq<Input>, t: nat) returns (k: nat)
    requires t < |inputs| && RunState(inputs[..t + 1]).current.Some?
    ensures InForce(RunState(inputs[..t + 1]).current.value, inputs, k, t)
    decreases t
  {
    hide RunState;
    CurrentStep(inputs, t);
    if inputs[t].pulled.Some? {
      k := t;
    } else {
      k := PullFor(inputs, t - 1);
    }
  }

  /** Exactly what the t-th tick of a run attempts: of the placements listed by the last schedule
      pulled, the feasible ones with a start whose turn has come, unless an earlier tick attempted
      the same workflow with the same start, instant and offset. */
  lemma {:induction false} AttemptedIff(inputs: seq<Input>, t: nat, k: nat, s: Schedule, p: Placement)
    requires InForce(s, inputs, k, t) && p in s.placements
    ensures AttemptedAt(RunLog(inputs), t, p) <==>
      && p.feasible && p.start.Some?
      && TurnHasCome(p, s, inputs[t].now, inputs[t].catalog)
      && forall i :: 0 <= i < |RunLog(inputs)| && RunLog(inputs)[i].tick < t ==>
           var q := RunLog(inputs)[i].entry.placement;
           q.workflowId != p.workflowId || q.start != p.start
  {
    hide RunLog, DueAt, TurnHasCome;
    var state := RunState(inputs[..t]);
    LatestPull(inputs, s, k, t);
    assert inputs[..t + 1][..t] == inputs[..t];
    hide RunState;
    AttemptedIffDue(inputs, t, p);
    DueIff(state, inputs[t], p);
    LogKeys(inputs[..t]);
    var before, log := RunLog(inputs[..t]), RunLog(inputs);
    forall i | 0 <= i < |log|
      ensures i < |before| <==> log[i].tick < t
      ensures i < |before| ==> before[i] == log[i]
    {
      LogPrefix(inputs, t, i);
    }
    LogGrows(inputs, t);
  }

  /** What the log must say of an attempt made by a tick with this input under this schedule: the
      tick's clock and catalog, a listed placement, the mode by the schedule's validity, and the
      target: the planned start, or in fallback mode the deadline less the planned length. */
  ghost predicate Records(a: Attempt, input: Input, s: Schedule) {
    var p := a.entry.placement;
    && a.now == input.now && a.catalog == input.catalog && p in s.placements
    && (a.mode == Normal <==> s.validUntil.None? || input.now.at <= s.validUntil.value.at)
    && p.start.Some?
    && a.entry.target ==
         if a.mode == Normal || p.end.None? then p.start.value.at
         else DeadlineOf(p, input.catalog) - (p.end.value.at - p.start.value.at)
  }

  lemma {:induction false} RecordOf(tick: nat, s: State, input: Input, k: nat)
    requires k < |AttemptsOf(tick, s, input)|
    ensures
      var a, current := AttemptsOf(tick, s, input)[k], Ticked(s, input).current;
      a.tick == tick && current.Some? && Records(a, input, current.value)
  {
    hide DueAt;
    DueMeaning(s, input);
  }

  /** Every attempt of a run is recorded as its tick met it, under the last schedule pulled. */
  lemma {:induction false} AttemptRecord(inputs: seq<Input>, i: nat) returns (k: nat, s: Schedule)
    requires i < |RunLog(inputs)|
    ensures
      var a := RunLog(inputs)[i];
      InForce(s, inputs, k, a.tick) && Records(a, inputs[a.tick], s)
  {
    hide RunLog, AttemptsOf, DueAt, Records, RunState, Ticked;
    LogTicks(inputs);
    var t := RunLog(inputs)[i].tick;
    LogPrefix(inputs, t, i);
    LogPrefix(inputs, t + 1, i);
    assert inputs[..t + 1] == inputs[..t] + [inputs[t]];
    RunExtends(inputs[..t], inputs[t]);
    RecordOf(t, RunState(inputs[..t]), inputs[t], i - |RunLog(inputs[..t])|);
    s := RunState(inputs[..t + 1]).current.value;
    k := PullFor(inputs, t);
  }

  // ------------------------------------------------------------ how often a key is attempted

  function Count(es: seq<Entry>, key: Key): nat {
    if es == [] then 0 else (if KeyOf(es[0].placement) == key then 1 else 0) + Count(es[1..], key)
  }

  /** How many listings of a key are startable and due. */
  function DueListings(
    ps: seq<Placement>, key: Key, executed: set<Key>, mode: Mode, catalog: Catalog, now: Moment): nat
  {
    if ps == [] then 0
    else
      var p := ps[|ps| - 1];
      var target := TargetStart(p, mode, catalog);
      DueListings(ps[..|ps| - 1], key, executed, mode, catalog, now)
      + if KeyOf(p) == key && Startable(p, executed) && target.Some? && target.value <= now.at then 1 else 0
  }

  lemma {:induction false} CountAppend(a: seq<Entry>, b: seq<Entry>, key: Key)
    ensures Count(a + b, key) == Count(a, key) + Count(b, key)
  {
    if a == [] {
      assert a + b == b;
    } else {
      assert (a + b)[1..] == a[1..] + b;
      CountAppend(a[1..], b, key);
    }
  }

  lemma {:induction false} CountInsert(e: Entry, es: seq<Entry>, now: Moment, key: Key)
    ensures Count(Arrived(Insert(e, es, EntryLe), now), key) == Count(Arrived([e] + es, now), key)
  {
    if es != [] && !EntryLe(e, es[0]) {
      hide Count, Arrived, EntryLe;
      CountInsert(e, es[1..], now, key);
      assert ([es[0]] + Insert(e, es[1..], EntryLe))[1..] == Insert(e, es[1..], EntryLe);
      ArrivedCons(es[0], Insert(e, es[1..], EntryLe), now, key);
      ArrivedCons(e, es, now, key);
      ArrivedCons(e, es[1..], now, key);
      ArrivedCons(es[0], es[1..], now, key);
      assert es == [es[0]] + es[1..];
    }
  }

  lemma {:induction false} ArrivedCons(e: Entry, es: seq<Entry>, now: Moment, key: Key)
    ensures Count(Arrived([e] + es, now), key) ==
      (if e.target <= now.at && KeyOf(e.placement) == key then 1 else 0) + Count(Arrived(es, now), key)
  {
    assert ([e] + es)[1..] == es;
    var head := if e.target <= now.at then [e] else [];
    CountAppend(head, Arrived(es, now), key);
    assert Count([e], key) == (if KeyOf(e.placement) == key then 1 else 0) by {
      assert [e][1..] == [];
    }
  }

  lemma {:induction false} CountSort(es: seq<Entry>, now: Moment, key: Key)
    ensures Count(Arrived(Sort(es, EntryLe), now), key) == Count(Arrived(es, now), key)
  {
    if es != [] {
      CountSort(es[1..], now, key);
      CountInsert(es[0], Sort(es[1..], EntryLe), now, key);
      ArrivedCons(es[0], Sort(es[1..], EntryLe), now, key);
      ArrivedCons(es[0], es[1..], now, key);
      assert es == [es[0]] + es[1..];
    }
  }

  lemma {:induction false} ArrivedAppend(a: seq<Entry>, b: seq<Entry>, now: Moment)
    ensures Arrived(a + b, now) == Arrived(a, now) + Arrived(b, now)
  {
    if a == [] {
      assert a + b == b;
    } else {
      assert (a + b)[1..] == a[1..] + b;
      ArrivedAppend(a[1..], b, now);
    }
  }

  lemma {:induction false} CountSnoc(es: seq<Entry>, e: Entry, now: Moment, key: Key)
    ensures Count(Arrived(es + [e], now), key) ==
      Count(Arrived(es, now), key) + if e.target <= now.at && KeyOf(e.placement) == key then 1 else 0
  {
    ArrivedAppend(es, [e], now);
    CountAppend(Arrived(es, now), Arrived([e], now), key);
    ArrivedCons(e, [], now, key);
    assert [e] + [] == [e];
  }

  lemma {:induction false} CountCandidates(
      ps: seq<Placement>, key: Key, executed: set<Key>, mode: Mode, catalog: Catalog, now: Moment)
    ensures Count(Arrived(Candidates(ps, executed, mode, catalog), now), key) ==
      DueListings(ps, key, executed, mode, catalog, now)
  {
    if ps != [] {
      hide TargetStart, Count, Arrived;
      var p, init := ps[|ps| - 1], Candidates(ps[..|ps| - 1], executed, mode, catalog);
      CountCandidates(ps[..|ps| - 1], key, executed, mode, catalog, now);
      var target := TargetStart(p, mode, catalog);
      if target.Some? {
        CountSnoc(init, Entry(target.value, p), now, key);
      }
    }
  }

  /** A tick attempts a key exactly as many times as the schedule lists it startable and due: the
      due list is computed once, before anything is marked executed. */
  lemma {:induction false} AttemptsPerListing(s: State, input: Input, key: Key)
    requires Adopted(s, input.pulled).current.Some?
    ensures
      var schedule := Adopted(s, input.pulled).current.value;
      Count(DueAt(s, input), key) == DueListings(
        schedule.placements, key, s.executed, ModeAt(schedule, input.now), input.catalog, input.now)
  {
    var schedule := Adopted(s, input.pulled).current.value;
    var mode := ModeAt(schedule, input.now);
    CountSort(Candidates(schedule.placements, s.executed, mode, input.catalog), input.now, key);
    CountCandidates(schedule.placements, key, s.executed, mode, input.catalog, input.now);
  }

  /** A schedule that lists no key twice. */
  ghost predicate KeysDistinct(ps: seq<Placement>) {
    forall i, j :: 0 <= i < j < |ps| ==> KeyOf(ps[i]) != KeyOf(ps[j])
  }

  lemma {:induction false} DistinctListings(
      ps: seq<Placement>, key: Key, executed: set<Key>, mode: Mode, catalog: Catalog, now: Moment)
    requires KeysDistinct(ps)
    ensures DueListings(ps, key, executed, mode, catalog, now) <= 1
    ensures (forall i :: 0 <= i < |ps| ==> KeyOf(ps[i]) != key) ==>
      DueListings(ps, key, executed, mode, catalog, now) == 0
  {
    if ps != [] {
      DistinctListings(ps[..|ps| - 1], key, executed, mode, catalog, now);
    }
  }

  lemma {:induction false} CountTwo(es: seq<Entry>, i: nat, j: nat)
    requires i < j < |es| && KeyOf(es[i].placement) == KeyOf(es[j].placement)
    ensures Count(es, KeyOf(es[i].placement)) >= 2
  {
    if i == 0 {
      CountOne(es[1..], j - 1);
    } else {
      CountTwo(es[1..], i - 1, j - 1);
    }
  }

  lemma {:induction false} CountOne(es: seq<Entry>, i: nat)
    requires i < |es|
    ensures Count(es, KeyOf(es[i].placement)) >= 1
  {
    if i > 0 {
      CountOne(es[1..], i - 1);
    }
  }

  ghost predicate AllDistinct(inputs: seq<Input>) {
    forall i :: 0 <= i < |inputs| && inputs[i].pulled.Some? ==> KeysDistinct(inputs[i].pulled.value.placements)
  }

  lemma {:induction false} CurrentDistinct(inputs: seq<Input>)
    requires AllDistinct(inputs)
    ensures RunState(inputs).current.Some? ==> KeysDistinct(RunState(inputs).current.value.placements)
  {
    if inputs != [] {
      CurrentDistinct(inputs[..|inputs| - 1]);
    }
  }

  ghost predicate NoRepeats(log: seq<Attempt>) {
    forall i, j :: 0 <= i < j < |log| ==> KeyOf(log[i].entry.placement) != KeyOf(log[j].entry.placement)
  }

  /** No key has two startable, due listings as this tick computes its due list. */
  ghost predicate ListedOnce(s: State, input: Input) {
    var s1 := Adopted(s, input.pulled);
    s1.current.Some? ==> forall key :: DueListings(
      s1.current.value.placements, key, s.executed, ModeAt(s1.current.value, input.now), input.catalog, input.now) <= 1
  }

  lemma {:induction false} CountPositions(es: seq<Entry>, key: Key) returns (i: nat, j: nat)
    requires Count(es, key) >= 2
    ensures i < j < |es| && KeyOf(es[i].placement) == KeyOf(es[j].placement) == key
  {
    if KeyOf(es[0].placement) == key {
      j := CountPosition(es[1..], key);
      i, j := 0, j + 1;
    } else {
      i, j := CountPositions(es[1..], key);
      i, j := i + 1, j + 1;
    }
  }

  lemma {:induction false} CountPosition(es: seq<Entry>, key: Key) returns (i: nat)
    requires Count(es, key) >= 1
    ensures i < |es| && KeyOf(es[i].placement) == key
  {
    if KeyOf(es[0].placement) == key {
      i := 0;
    } else {
      i := CountPosition(es[1..], key);
      i := i + 1;
    }
  }

  ghost predicate DueOnce(due: seq<Entry>) {
    forall i, j :: 0 <= i < j < |due| ==> KeyOf(due[i].placement) != KeyOf(due[j].placement)
  }

  lemma {:induction false} DueOnceIff(s: State, input: Input)
    ensures DueOnce(DueAt(s, input)) <==> ListedOnce(s, input)
  {
    var due, s1 := DueAt(s, input), Adopted(s, input.pulled);
    if s1.current.Some? {
      hide DueAt, DueListings, Count, Adopted, ModeAt, KeyOf;
      forall key ensures Count(due, key) == DueListings(
        s1.current.value.placements, key, s.executed, ModeAt(s1.current.value, input.now), input.catalog, input.now)
      {
        AttemptsPerListing(s, input, key);
      }
      if DueOnce(due) {
        forall key ensures Count(due, key) <= 1 {
          if Count(due, key) >= 2 {
            var i, j := CountPositions(due, key);
          }
        }
      } else {
        var i, j :| 0 <= i < j < |due| && KeyOf(due[i].placement) == KeyOf(due[j].placement);
        CountTwo(due, i, j);
      }
    }
  }

  lemma {:induction false} NoRepeatsStep(inputs: seq<Input>)
    requires inputs != []
    ensures
      var init := inputs[..|inputs| - 1];
      NoRepeats(RunLog(inputs)) <==> NoRepeats(RunLog(init)) && DueOnce(DueAt(RunState(init), inputs[|inputs| - 1]))
  {
    var init, last := inputs[..|inputs| - 1], inputs[|inputs| - 1];
    var before, due := RunLog(init), DueAt(RunState(init), last);
    if NoRepeats(RunLog(inputs)) {
      forall i, j | 0 <= i < j < |before|
        ensures KeyOf(before[i].entry.placement) != KeyOf(before[j].entry.placement)
      {
        LogBefore(inputs, i);
        LogBefore(inputs, j);
      }
      forall i, j | 0 <= i < j < |due| ensures KeyOf(due[i].placement) != KeyOf(due[j].placement) {
        DueIsLogged(inputs, i);
        DueIsLogged(inputs, j);
      }
    } else {
      var i, j :| 0 <= i < j < |RunLog(inputs)|
        && KeyOf(RunLog(inputs)[i].entry.placement) == KeyOf(RunLog(inputs)[j].entry.placement);
      if j < |before| {
        LogBefore(inputs, i);
        LogBefore(inputs, j);
      } else {
        var l := LogLast(inputs, j);
        if i < |before| {
          LogBefore(inputs, i);
          OncePerTick(inputs, i, j);
          assert false;
        }
        var k := LogLast(inputs, i);
        assert KeyOf(due[k].placement) == KeyOf(due[l].placement);
      }
    }
  }

  lemma {:induction false} DueIsLogged(inputs: seq<Input>, k: nat)
    requires inputs != [] && k < |DueAt(RunState(inputs[..|inputs| - 1]), inputs[|inputs| - 1])|
    ensures
      var init := inputs[..|inputs| - 1];
      var i := |RunLog(init)| + k;
      i < |RunLog(inputs)| && RunLog(inputs)[i].entry == DueAt(RunState(init), inputs[|inputs| - 1])[k]
  {
    hide RunLog, RunState, DueAt, AttemptsOf;
    var init, last := inputs[..|inputs| - 1], inputs[|inputs| - 1];
    assert inputs == init + [last];
    RunExtends(init, last);
    assert RunLog(inputs)[|RunLog(init)| + k] == AttemptsOf(|init|, RunState(init), last)[k];
  }

  ghost predicate EveryTickListsOnce(inputs: seq<Input>) {
    forall t :: 0 <= t < |inputs| ==> ListedOnce(RunState(inputs[..t]), inputs[t])
  }

  lemma {:induction false} EveryTickSplits(inputs: seq<Input>)
    requires inputs != []
    ensures
      var init := inputs[..|inputs| - 1];
      EveryTickListsOnce(inputs) <==> EveryTickListsOnce(init) && ListedOnce(RunState(init), inputs[|inputs| - 1])
  {
    hide ListedOnce, RunState;
    var init := inputs[..|inputs| - 1];
    forall t | 0 <= t < |init| ensures init[..t] == inputs[..t] {
    }
    if EveryTickListsOnce(inputs) {
      forall t | 0 <= t < |init| ensures ListedOnce(RunState(init[..t]), init[t]) {
        assert ListedOnce(RunState(inputs[..t]), inputs[t]);
      }
    } else {
      var t :| 0 <= t < |inputs| && !ListedOnce(RunState(inputs[..t]), inputs[t]);
      assert t < |init| ==> !ListedOnce(RunState(init[..t]), init[t]);
    }
  }

  /** Exactly when "at most once" holds: every key is attempted at most once in the whole run if
      and only if no tick meets two startable, due listings of one key. */
  lemma {:induction false} AtMostOnceIff(inputs: seq<Input>)
    ensures NoRepeats(RunLog(inputs)) <==> EveryTickListsOnce(inputs)
  {
    if inputs != [] {
      hide ListedOnce, NoRepeats, EveryTickListsOnce, RunLog, RunState, DueOnce, DueAt;
      var init := inputs[..|inputs| - 1];
      AtMostOnceIff(init);
      NoRepeatsStep(inputs);
      DueOnceIff(RunState(init), inputs[|inputs| - 1]);
      EveryTickSplits(inputs);
    }
  }

  lemma {:induction false} DistinctListedOnce(s: State, input: Input)
    requires s.current.Some? ==> KeysDistinct(s.current.value.placements)
    requires input.pulled.Some? ==> KeysDistinct(input.pulled.value.placements)
    ensures ListedOnce(s, input)
  {
    hide KeysDistinct, DueListings, ModeAt;
    var s1 := Adopted(s, input.pulled);
    if s1.current.Some? {
      var schedule := s1.current.value;
      forall key ensures DueListings(
        schedule.placements, key, s.executed, ModeAt(schedule, input.now), input.catalog, input.now) <= 1
      {
        DistinctListings(schedule.placements, key, s.executed, ModeAt(schedule, input.now), input.catalog, input.now);
      }
    }
  }

  /** So if no schedule lists a key twice, every key is attempted at most once in the whole run. */
  lemma {:induction false} AtMostOnce(inputs: seq<Input>)
    requires AllDistinct(inputs)
    ensures NoRepeats(RunLog(inputs))
  {
    AtMostOnceIff(inputs);
    hide NoRepeats, RunLog, RunState, ListedOnce, KeysDistinct;
    forall t | 0 <= t < |inputs| ensures ListedOnce(RunState(inputs[..t]), inputs[t]) {
      CurrentDistinct(inputs[..t]);
      DistinctListedOnce(RunState(inputs[..t]), inputs[t]);
    }
  }

  /** A key listed twice does run twice, in one tick. */
  lemma {:induction false} RepeatedListingRunsTwice(p: Placement, now: Moment)
    requires p.feasible && p.start.Some? && p.start.value.at <= now.at
    ensures
      var input := Input(now, Some(Schedule(1, None, [p, p])), map[]);
      && |RunLog([input])| == 2
      && KeyOf(RunLog([input])[0].entry.placement) == KeyOf(RunLog([input])[1].entry.placement) == KeyOf(p)
  {
    var input := Input(now, Some(Schedule(1, None, [p, p])), map[]);
    var due := DueAt(FRESH, input);
    assert [p, p][..1] == [p] && [p][..0] == [];
    AttemptsPerListing(FRESH, input, KeyOf(p));
    assert DueListings([p], KeyOf(p), {}, Normal, map[], now) == 1;
    assert DueListings([p, p], KeyOf(p), {}, Normal, map[], now) == 2;
    OnlyListed(FRESH, input, p);
    assert [input][..0] == [];
    assert RunLog([input]) == AttemptsOf(0, FRESH, input) by {
      assert [] + AttemptsOf(0, FRESH, input) == AttemptsOf(0, FRESH, input);
    }
    CountAll(due, KeyOf(p));
    hide DueAt, DueListings, Count;
  }

  lemma {:induction false} OnlyListed(s: State, input: Input, p: Placement)
    requires Adopted(s, input.pulled).current.Some?
    requires forall q :: q in Adopted(s, input.pulled).current.value.placements ==> q == p
    ensures forall i :: 0 <= i < |DueAt(s, input)| ==> DueAt(s, input)[i].placement == p
  {
    DueMeaning(s, input);
  }

  lemma {:induction false} CountAll(es: seq<Entry>, key: Key)
    requires forall i :: 0 <= i < |es| ==> KeyOf(es[i].placement) == key
    ensures Count(es, key) == |es|
  {
    if es != [] {
      CountAll(es[1..], key);
    }
  }

  /** Past the validity of the schedule in force a windowed job is moved by exactly the slack between
      its planned end and its deadline: planned to end at the deadline, and not attempted before
      that start. */
  lemma {:induction false} FallbackRunsAsLateAsAllowed(inputs: seq<Input>, i: nat, k: nat, s: Schedule)
    requires i < |RunLog(inputs)| && InForce(s, inputs, k, RunLog(inputs)[i].tick)
    requires s.validUntil.Some? && s.validUntil.value.at < inputs[RunLog(inputs)[i].tick].now.at
    requires RunLog(inputs)[i].entry.placement.end.Some?
    ensures
      var a := RunLog(inputs)[i];
      var p := a.entry.placement;
      && a.mode == Fallback && p.start.Some?
      && a.entry.target - p.start.value.at == DeadlineOf(p, a.catalog) - p.end.value.at
      && a.now.at + (p.end.value.at - p.start.value.at) >= DeadlineOf(p, a.catalog)
  {
    AttemptsAreDue(inputs, i);
    hide RunLog, TargetStart, DeadlineOf;
    var k', s' := AttemptRecord(inputs, i);
    assert k' == k;
  }

  // ------------------------------------------------------------ the executor object

  class ScheduleExecutor {
    var current: Option<Schedule>
    var version: int
    var executed: set<Key>
    ghost var log: seq<Attempt>
    ghost var inputs: seq<Input>

    ghost predicate Valid()
      reads this
    {
      State(current, version, executed) == RunState(inputs) && log == RunLog(inputs)
    }

    constructor ()
      ensures Valid() && inputs == []
    {
      current, version, executed := None, -1, {};
      log, inputs := [], [];
    }

    method Adopt(schedule: Schedule)
      modifies this
      ensures State(current, version, executed) == Adopted(old(State(current, version, executed)), Some(schedule))
      ensures log == old(log) && inputs == old(inputs)
    {
      current := Some(schedule);
      version := schedule.version;
    }

    method Pending(mode: Mode, catalog: Catalog) returns (pending: seq<Entry>)
      requires current.Some?
      ensures pending == PendingOf(current.value, executed, mode, catalog)
    {
      pending := [];
      var ps := current.value.placements;
      for i := 0 to |ps|
        invariant pending == Candidates(ps[..i], executed, mode, catalog)
      {
        assert ps[..i + 1][..i] == ps[..i];
        if !ps[i].feasible || ps[i].start.None? || KeyOf(ps[i]) in executed {
          continue;
        }
        var target := TargetStart(ps[i], mode, catalog);
        if target.None? {
          continue;
        }
        pending := pending + [Entry(target.value, ps[i])];
      }
      assert ps[..|ps|] == ps;
      pending := Sort(pending, EntryLe);
    }

    /** The loop over the due list: each entry is attempted in its turn, and only then is its key
        marked. */
    method AttemptAll(due: seq<Entry>, now: Moment, mode: Mode, catalog: Catalog, ghost tick: nat)
      returns (outcomes: nat)
      modifies this`executed, this`log
      ensures executed == old(executed) + Keys(due) && outcomes == |due|
      ensures log == old(log) + AttemptsFor(tick, now, mode, catalog, due)
    {
      hide Keys;
      NoKeys();
      outcomes := 0;
      for i := 0 to |due|
        invariant executed == old(executed) + Keys(due[..i]) && outcomes == i
        invariant log == old(log) + AttemptsFor(tick, now, mode, catalog, due[..i])
      {
        log := log + [Attempt(tick, now, mode, catalog, due[i])];
        executed := executed + {KeyOf(due[i].placement)};
        outcomes := outcomes + 1;
        KeysExtend(due, i);
        AttemptsExtend(tick, now, mode, catalog, due, i);
      }
      assert due[..|due|] == due;
    }

    /** One tick; returns how many placements were attempted and the next target still ahead. */
    method Tick(input: Input) returns (outcomes: nat, nextStart: Option<int>)
      requires Valid()
      modifies this
      ensures Valid() && inputs == old(inputs) + [input]
      ensures log == old(log) + AttemptsOf(|old(inputs)|, RunState(old(inputs)), input)
      ensures |log| == |old(log)| + outcomes
      ensures nextStart == NextTarget(State(current, version, executed), input)
      ensures nextStart.Some? ==> nextStart.value > input.now.at
    {
      ghost var before := State(current, version, executed);
      RunExtends(inputs, input);
      hide RunState, RunLog, PendingOf, Arrived, TargetStart, Keys;
      if input.pulled.Some? {
        Adopt(input.pulled.value);
      }
      ghost var attempts, tick := AttemptsOf(|inputs|, before, input), |inputs|;
      inputs := inputs + [input];
      outcomes, nextStart := 0, None;
      if current.Some? {
        var mode := ModeAt(current.value, input.now);
        var pending := Pending(mode, input.catalog);
        outcomes := AttemptAll(Arrived(pending, input.now), input.now, mode, input.catalog, tick);
        NothingDueIsSkipped(before, input);
        var ahead := Pending(mode, input.catalog);
        nextStart := if ahead == [] then None else Some(ahead[0].target);
      } else {
        NoKeys();
        assert attempts == [] && log + [] == log;
      }
    }
  }

  lemma {:induction false} NoKeys()
    ensures Keys([]) == {}
  {
  }

  lemma {:induction false} AttemptsExtend(
      tick: nat, now: Moment, mode: Mode, catalog: Catalog, due: seq<Entry>, i: nat)
    requires i < |due|
    ensures AttemptsFor(tick, now, mode, catalog, due[..i + 1]) ==
      AttemptsFor(tick, now, mode, catalog, due[..i]) + [Attempt(tick, now, mode, catalog, due[i])]
  {
  }

  lemma {:induction false} KeysExtend(es: seq<Entry>, i: nat)
    requires i < |es|
    ensures Keys(es[..i + 1]) == Keys(es[..i]) + {KeyOf(es[i].placement)}
  {
    var a, b := es[..i], es[..i + 1];
    assert b[i] == es[i] && forall k :: 0 <= k < i ==> b[k] == a[k];
  }
}
