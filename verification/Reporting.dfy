/** Store-and-forward reporting (reporter.py) against an idempotent server, over every network
    fate and every moment the process may be killed. */
module Reporting {
  import opened Basics
  import opened SpoolQueue

  datatype Key = Key(controllerId: string, runId: string)

  datatype Sample = Sample(ts: int, channels: string)

  datatype Report = Report(key: Key, trace: seq<Sample>)

  // ------------------------------------------------------------ the server

  datatype Row = Row(key: Key, samples: seq<Sample>)

  /** Server rows; a run's server id is its position. */
  type Server = seq<Row>

  function IdOf(server: Server, key: Key): (id: nat)
    ensures id <= |server|
    ensures id < |server| ==> server[id].key == key
    ensures forall i :: 0 <= i < id ==> server[i].key != key
  {
    if server == [] || server[0].key == key then 0 else 1 + IdOf(server[1..], key)
  }

  /** Idempotent on the key: a known run is left alone. */
  function RunInserted(server: Server, key: Key): (s: Server)
    ensures IdOf(s, key) < |s| && server <= s
  {
    if IdOf(server, key) < |server| then server
    else
      var s := server + [Row(key, [])];
      assert s[|server|].key == key;
      s
  }

  /** Append-only: sending a batch twice stores it twice. */
  function SamplesAppended(server: Server, id: nat, batch: seq<Sample>): Server
    requires id < |server|
  {
    server[id := server[id].(samples := server[id].samples + batch)]
  }

  // ------------------------------------------------------------ the network

  /** Refused: not applied, and the client sees a failure.  LostReply: applied, but the client
      sees a failure.  Delivered: applied, and the client sees success with a server id. */
  datatype Reply = Refused | LostReply | Delivered

  /** What would happen to whichever call is made at this step.  A script holds one entry per
      atomic step, wire calls and spool writes alike; when it runs out the process is dead. */
  datatype Fate = Fate(run: Reply, samples: Reply)

  datatype Push = Pushed | PushFailed | Killed

  // ------------------------------------------------------------ specification

  function Chunks(items: seq<Sample>, size: int): (chunks: seq<seq<Sample>>)
    decreases |items|
  {
    if items == [] then []
    else if size <= 0 || |items| <= size then [items]
    else [items[..size]] + Chunks(items[size..], size)
  }

  function PushBatches(server: Server, id: nat, batches: seq<seq<Sample>>, script: seq<Fate>)
    : (r: (Server, Push, seq<Fate>))
    requires id < |server|
    ensures |r.0| == |server| && |r.2| <= |script|
    decreases |batches|
  {
    if batches == [] then (server, Pushed, script)
    else if script == [] then (server, Killed, [])
    else
      match script[0].samples
      case Refused => (server, PushFailed, script[1..])
      case LostReply => (SamplesAppended(server, id, batches[0]), PushFailed, script[1..])
      case Delivered => PushBatches(SamplesAppended(server, id, batches[0]), id, batches[1..], script[1..])
  }

  function PushBundle(server: Server, report: Report, size: int, script: seq<Fate>)
    : (r: (Server, Push, seq<Fate>))
    ensures |r.2| <= |script|
  {
    if script == [] then (server, Killed, [])
    else
      match script[0].run
      case Refused => (server, PushFailed, script[1..])
      case LostReply => (RunInserted(server, report.key), PushFailed, script[1..])
      case Delivered =>
        var s := RunInserted(server, report.key);
        PushBatches(s, IdOf(s, report.key), Chunks(report.trace, size), script[1..])
  }

  /** How many samples of these batches the server gets: those of every batch up to the first whose
      push fails, and of that one too if only its reply was lost. */
  function BatchesApplied(batches: seq<seq<Sample>>, script: seq<Fate>): nat
    decreases |batches|
  {
    if batches == [] || script == [] then 0
    else
      match script[0].samples
      case Refused => 0
      case LostReply => |batches[0]|
      case Delivered => |batches[0]| + BatchesApplied(batches[1..], script[1..])
  }

  /** How much of the trace one push of the report gets applied. */
  function PushCut(report: Report, size: int, script: seq<Fate>): nat {
    if script == [] || script[0].run != Delivered then 0
    else BatchesApplied(Chunks(report.trace, size), script[1..])
  }

  /** Everything outside the process, plus which reports `report_run` has returned for. */
  datatype World = World(server: Server, spool: Table<Report>, returned: set<Key>)

  function AfterReport(w: World, report: Report, size: int, script: seq<Fate>): World {
    var (server, push, rest) := PushBundle(w.server, report, size, script);
    match push
    case Killed => w.(server := server)
    case Pushed => w.(server := server, returned := w.returned + {report.key})
    case PushFailed =>
      if rest == [] then w.(server := server)
      else World(server, Enqueued(w.spool, report), w.returned + {report.key})
  }

  datatype DrainEnd = Drained | StoppedEarly | DrainKilled

  /** Replays `items` in order, returning how many were removed and how the drain ended. */
  function DrainItems(w: World, items: seq<Item<Report>>, size: int, script: seq<Fate>)
    : (r: (World, nat, DrainEnd))
    ensures r.1 <= |items| && (r.2 == Drained <==> r.1 == |items|)
    decreases |items|
  {
    if items == [] then (w, 0, Drained)
    else
      var (server, push, rest) := PushBundle(w.server, items[0].body, size, script);
      var w1 := w.(server := server);
      match push
      case Killed => (w1, 0, DrainKilled)
      case PushFailed => (w1, 0, StoppedEarly)
      case Pushed =>
        if rest == [] then (w1, 0, DrainKilled)
        else
          var (w2, drained, end) :=
            DrainItems(w1.(spool := Removed(w1.spool, items[0].id)), items[1..], size, rest[1..]);
          (w2, drained + 1, end)
  }

  function AfterDrain(w: World, limit: Option<int>, size: int, script: seq<Fate>): (World, nat, DrainEnd) {
    DrainItems(w, w.spool.rows[..LimitOf(|w.spool.rows|, limit)], size, script)
  }

  datatype Action = Finish(report: Report, script: seq<Fate>) | Drain(limit: Option<int>, script: seq<Fate>)

  function After(w: World, action: Action, size: int): World {
    match action
    case Finish(report, script) => AfterReport(w, report, size, script)
    case Drain(limit, script) => AfterDrain(w, limit, size, script).0
  }

  /** A whole history.  A killed action leaves the durable state as it was at that moment, and the
      next action is a fresh process over the same spool. */
  function Run(w: World, actions: seq<Action>, size: int): World {
    if actions == [] then w
    else
      After(Run(w, actions[..|actions| - 1], size), actions[|actions| - 1], size)
  }

  const START: World := World([], Table([], 0), {})

  // ------------------------------------------------------------ batch-aligned prefixes

  /** A prefix length at which pushing a trace of `length` samples may have stopped. */
  predicate Aligned(n: int, length: nat, size: int) {
    0 <= n <= length && (n == length || n == 0 || (size > 0 && n % size == 0))
  }

  function Prefixes(trace: seq<Sample>, cuts: seq<nat>): seq<Sample>
    requires forall i :: 0 <= i < |cuts| ==> cuts[i] <= |trace|
  {
    if cuts == [] then [] else Prefixes(trace, cuts[..|cuts| - 1]) + trace[..cuts[|cuts| - 1]]
  }

  ghost predicate CutsExplain(samples: seq<Sample>, trace: seq<Sample>, size: int, cuts: seq<nat>) {
    && (forall i :: 0 <= i < |cuts| ==> Aligned(cuts[i], |trace|, size))
    && samples == Prefixes(trace, cuts)
  }

  /** The stored samples are a concatenation of batch-aligned prefixes of the trace. */
  ghost predicate Explained(samples: seq<Sample>, trace: seq<Sample>, size: int) {
    exists cuts: seq<nat> :: CutsExplain(samples, trace, size, cuts)
  }

  /** ... and at least one of those prefixes is the whole trace. */
  ghost predicate Complete(samples: seq<Sample>, trace: seq<Sample>, size: int) {
    exists cuts: seq<nat> :: CutsExplain(samples, trace, size, cuts) && |trace| in cuts
  }

  lemma {:induction false} PrefixAdded(samples: seq<Sample>, trace: seq<Sample>, size: int, n: nat)
    requires Aligned(n, |trace|, size) && Explained(samples, trace, size)
    ensures Explained(samples + trace[..n], trace, size)
    ensures Complete(samples, trace, size) || n == |trace| ==> Complete(samples + trace[..n], trace, size)
  {
    var cuts: seq<nat> :| CutsExplain(samples, trace, size, cuts);
    assert CutsExplain(samples + trace[..n], trace, size, cuts + [n]) by {
      assert (cuts + [n])[..|cuts|] == cuts;
    }
    if Complete(samples, trace, size) {
      var full: seq<nat> :| CutsExplain(samples, trace, size, full) && |trace| in full;
      assert CutsExplain(samples + trace[..n], trace, size, full + [n]) by {
        assert (full + [n])[..|full|] == full;
      }
      assert |trace| in full + [n];
    } else if n == |trace| {
      assert |trace| in cuts + [n];
    }
  }

  /** All batches one after another. */
  function Joined(chunks: seq<seq<Sample>>): seq<Sample> {
    if chunks == [] then [] else chunks[0] + Joined(chunks[1..])
  }

  /** How a trace is cut: the batches in order are the trace; with a positive size every batch but
      the last has exactly that many samples and the last one to that many, and with any other size
      there is one batch. */
  lemma {:induction false} ChunksAreBatches(items: seq<Sample>, size: int)
    ensures Joined(Chunks(items, size)) == items
    ensures size <= 0 ==> |Chunks(items, size)| == if items == [] then 0 else 1
    ensures size > 0 ==> forall i :: 0 <= i < |Chunks(items, size)| ==>
      && 0 < |Chunks(items, size)[i]| <= size
      && (i < |Chunks(items, size)| - 1 ==> |Chunks(items, size)[i]| == size)
    decreases |items|
  {
    var chunks := Chunks(items, size);
    if items == [] {
    } else if size <= 0 || |items| <= size {
      assert chunks[1..] == [];
    } else {
      ChunksAreBatches(items[size..], size);
      assert chunks[1..] == Chunks(items[size..], size);
      assert items == items[..size] + items[size..];
      hide Chunks;
    }
  }

  // ------------------------------------------------------------ one push

  lemma {:induction false} IdOfUnique(server: Server, key: Key, i: nat)
    requires i < |server| && server[i].key == key
    requires forall j :: 0 <= j < i ==> server[j].key != key
    ensures IdOf(server, key) == i
  {
    var id := IdOf(server, key);
    assert !(i < id);
  }

  /** The batches still to go are the chunks of the rest of the trace; whatever happens, the row
      ends at some batch boundary, and at the end of the trace when the push succeeds. */
  lemma {:induction false} PushBatchesEffect(
      server: Server, id: nat, base: seq<Sample>, trace: seq<Sample>, done: nat, size: int, script: seq<Fate>)
    returns (n: nat)
    requires id < |server| && Aligned(done, |trace|, size)
    requires server[id].samples == base + trace[..done]
    ensures Aligned(n, |trace|, size) && n == done + BatchesApplied(Chunks(trace[done..], size), script)
    ensures
      var (server', push, _) := PushBatches(server, id, Chunks(trace[done..], size), script);
      && server' == server[id := server[id].(samples := base + trace[..n])]
      && (push == Pushed ==> n == |trace|)
    decreases |trace| - done
  {
    var batches := Chunks(trace[done..], size);
    n := done;
    if batches != [] && script != [] && script[0].samples != Refused {
      var next := NextChunk(trace, done, size);
      hide Chunks, Aligned;
      assert trace[..next] == trace[..done] + trace[done..next];
      var server1 := SamplesAppended(server, id, batches[0]);
      assert server1[id].samples == base + trace[..next];
      if script[0].samples == Delivered {
        n := PushBatchesEffect(server1, id, base, trace, next, size, script[1..]);
      } else {
        n := next;
      }
    } else {
      assert server == server[id := server[id].(samples := base + trace[..n])];
    }
  }

  /** The first chunk of what is left ends at the next batch boundary. */
  lemma {:induction false} NextChunk(trace: seq<Sample>, done: nat, size: int) returns (next: nat)
    requires Aligned(done, |trace|, size) && done < |trace|
    ensures Aligned(next, |trace|, size) && next > done
    ensures
      var chunks := Chunks(trace[done..], size);
      chunks[0] == trace[done..next] && chunks[1..] == Chunks(trace[next..], size)
  {
    var left := trace[done..];
    next := if size <= 0 || |left| <= size then |trace| else done + size;
    NextBoundary(done, |trace|, size, next);
    assert left[..next - done] == trace[done..next] && left[next - done..] == trace[next..];
  }

  lemma {:induction false} NextBoundary(done: nat, length: nat, size: int, next: nat)
    requires Aligned(done, length, size) && done < length
    requires next == if size <= 0 || length - done <= size then length else done + size
    ensures Aligned(next, length, size) && next > done
  {
    if next != length {
      MultiplePlusSize(done, size);
    }
  }

  lemma {:induction false} MultiplePlusSize(n: nat, size: int)
    requires size > 0 && n % size == 0
    ensures (n + size) % size == 0
  {
    var p, q, r := n / size, (n + size) / size, (n + size) % size;
    assert n + size == size * q + r && n == size * p;
    assert size * (p + 1 - q) == r;
    TimesSize(size, p + 1 - q);
  }

  lemma {:induction false} TimesSize(size: int, k: int)
    requires size > 0
    ensures k >= 1 ==> size * k >= size
    ensures k <= 0 ==> size * k <= 0
  {
    if k >= 1 {
      assert size * (k - 1) >= 0;
    } else {
      assert size * -k >= 0;
    }
  }

  /** One push either leaves the server alone or appends one batch-aligned prefix of the trace to
      the run's only row; a successful push appends the whole trace. */
  lemma {:induction false} PushBundleEffect(server: Server, report: Report, size: int, script: seq<Fate>)
    returns (n: nat)
    ensures n == PushCut(report, size, script) && Aligned(n, |report.trace|, size)
    ensures
      var (server', push, _) := PushBundle(server, report, size, script);
      var s := RunInserted(server, report.key);
      || (server' == server && push != Pushed && n == 0)
      || (&& Aligned(n, |report.trace|, size)
          && server' == SamplesAppended(s, IdOf(s, report.key), report.trace[..n])
          && (push == Pushed ==> n == |report.trace|))
  {
    n := 0;
    if script != [] {
      var s := RunInserted(server, report.key);
      var id := IdOf(s, report.key);
      if script[0].run == Delivered {
        assert report.trace[0..] == report.trace;
        n := PushBatchesEffect(s, id, s[id].samples, report.trace, 0, size, script[1..]);
      } else {
        assert s[id].samples + report.trace[..0] == s[id].samples;
      }
    }
  }

  // ------------------------------------------------------------ the invariant

  type Traces = map<Key, seq<Sample>>

  ghost predicate ServerSound(server: Server, traces: Traces, size: int) {
    && (forall i, j :: 0 <= i < j < |server| ==> server[i].key != server[j].key)
    && (forall i :: 0 <= i < |server| ==>
          server[i].key in traces && Explained(server[i].samples, traces[server[i].key], size))
  }

  /** The server holds the run with at least one whole copy of its trace. */
  ghost predicate Upstream(server: Server, key: Key, traces: Traces, size: int) {
    var id := IdOf(server, key);
    id < |server| && key in traces && Complete(server[id].samples, traces[key], size)
  }

  ghost predicate Queued(spool: Table<Report>, key: Key) {
    exists i :: 0 <= i < |spool.rows| && spool.rows[i].body.key == key
  }

  ghost predicate SpoolSound(spool: Table<Report>, traces: Traces) {
    && Ordered(spool)
    && forall i :: 0 <= i < |spool.rows| ==> Known(spool.rows[i].body, traces)
  }

  /** A run id names one run, so one trace. */
  ghost predicate Known(report: Report, traces: Traces) {
    report.key in traces && traces[report.key] == report.trace
  }

  ghost predicate Sound(w: World, traces: Traces, size: int) {
    && ServerSound(w.server, traces, size)
    && SpoolSound(w.spool, traces)
    && forall key :: key in w.returned ==> Queued(w.spool, key) || Upstream(w.server, key, traces, size)
  }

  lemma {:induction false} InsertSound(server: Server, key: Key, traces: Traces, size: int)
    requires ServerSound(server, traces, size) && key in traces
    ensures ServerSound(RunInserted(server, key), traces, size)
    ensures forall k :: Upstream(server, k, traces, size) ==> Upstream(RunInserted(server, key), k, traces, size)
  {
    var s := RunInserted(server, key);
    assert CutsExplain([], traces[key], size, []);
    forall k | Upstream(server, k, traces, size) ensures Upstream(s, k, traces, size) {
      IdOfUnique(s, k, IdOf(server, k));
    }
  }

  lemma {:induction false} AppendSound(server: Server, key: Key, n: nat, traces: Traces, size: int)
    requires ServerSound(server, traces, size) && IdOf(server, key) < |server| && key in traces
    requires Aligned(n, |traces[key]|, size)
    ensures
      var s := SamplesAppended(server, IdOf(server, key), traces[key][..n]);
      && ServerSound(s, traces, size)
      && (forall k :: Upstream(server, k, traces, size) ==> Upstream(s, k, traces, size))
      && (n == |traces[key]| ==> Upstream(s, key, traces, size))
  {
    var id, trace := IdOf(server, key), traces[key];
    var s := SamplesAppended(server, id, trace[..n]);
    PrefixAdded(server[id].samples, trace, size, n);
    forall k | Upstream(server, k, traces, size) ensures Upstream(s, k, traces, size) {
      IdOfUnique(s, k, IdOf(server, k));
    }
    IdOfUnique(s, key, id);
  }

  lemma {:induction false} PushSound(server: Server, report: Report, traces: Traces, size: int, script: seq<Fate>)
    requires ServerSound(server, traces, size) && Known(report, traces)
    ensures
      var (s, push, _) := PushBundle(server, report, size, script);
      && ServerSound(s, traces, size)
      && (forall k :: Upstream(server, k, traces, size) ==> Upstream(s, k, traces, size))
      && (push == Pushed ==> Upstream(s, report.key, traces, size))
  {
    var n := PushBundleEffect(server, report, size, script);
    InsertSound(server, report.key, traces, size);
    if Aligned(n, |report.trace|, size) {
      AppendSound(RunInserted(server, report.key), report.key, n, traces, size);
    }
  }

  lemma {:induction false} ReportSound(w: World, report: Report, traces: Traces, size: int, script: seq<Fate>)
    requires Sound(w, traces, size) && Known(report, traces)
    ensures Sound(AfterReport(w, report, size, script), traces, size)
  {
    PushSound(w.server, report, traces, size, script);
    var (server, push, rest) := PushBundle(w.server, report, size, script);
    if push == PushFailed && rest != [] {
      var spool := Enqueued(w.spool, report);
      assert spool.rows[|w.spool.rows|].body == report;
      forall k | Queued(w.spool, k) ensures Queued(spool, k) {
        var i :| 0 <= i < |w.spool.rows| && w.spool.rows[i].body.key == k;
        assert spool.rows[i] == w.spool.rows[i];
      }
    }
  }

  /** The head may leave the queue once it is upstream. */
  lemma {:induction false} HeadDoneSound(w: World, server: Server, traces: Traces, size: int)
    requires Sound(w, traces, size) && w.spool.rows != [] && ServerSound(server, traces, size)
    requires forall k :: Upstream(w.server, k, traces, size) ==> Upstream(server, k, traces, size)
    requires Upstream(server, w.spool.rows[0].body.key, traces, size)
    ensures
      var w1 := w.(server := server, spool := Removed(w.spool, w.spool.rows[0].id));
      Sound(w1, traces, size) && w1.spool == w.spool.(rows := w.spool.rows[1..])
  {
    hide Upstream, ServerSound, Without;
    RemoveHead(w.spool);
    var spool := w.spool.(rows := w.spool.rows[1..]);
    forall k | k in w.returned ensures Queued(spool, k) || Upstream(server, k, traces, size) {
      if Queued(w.spool, k) {
        var i :| 0 <= i < |w.spool.rows| && w.spool.rows[i].body.key == k;
        assert i > 0 ==> spool.rows[i - 1].body.key == k;
      }
    }
  }

  lemma {:induction false} HeadPushed(w: World, traces: Traces, size: int, script: seq<Fate>)
    requires Sound(w, traces, size) && w.spool.rows != []
    ensures
      var head := w.spool.rows[0];
      var (server, push, _) := PushBundle(w.server, head.body, size, script);
      var done := w.(server := server, spool := Removed(w.spool, head.id));
      && Sound(w.(server := server), traces, size)
      && (forall k :: Upstream(w.server, k, traces, size) ==> Upstream(server, k, traces, size))
      && (push == Pushed ==>
            && Upstream(server, head.body.key, traces, size)
            && Sound(done, traces, size)
            && done.spool == w.spool.(rows := w.spool.rows[1..]))
  {
    hide Upstream, Queued, ServerSound, PushBundle, Without, Ordered;
    PushSound(w.server, w.spool.rows[0].body, traces, size, script);
    var (server, push, _) := PushBundle(w.server, w.spool.rows[0].body, size, script);
    if push == Pushed {
      HeadDoneSound(w, server, traces, size);
    }
  }

  /** A drain works off the head of the queue: what is left is a suffix, in the same order. */
  lemma {:induction false} DrainLeavesSuffix(w: World, items: seq<Item<Report>>, size: int, script: seq<Fate>)
    requires Ordered(w.spool) && items <= w.spool.rows
    ensures
      var (w', drained, _) := DrainItems(w, items, size, script);
      w'.returned == w.returned && w'.spool == w.spool.(rows := w.spool.rows[drained..])
    decreases |items|
  {
    hide PushBundle, Without, Ordered;
    assert w.spool.rows[0..] == w.spool.rows;
    if items != [] {
      var head := items[0];
      assert head == w.spool.rows[0];
      RemoveHead(w.spool);
      var (server, push, rest) := PushBundle(w.server, head.body, size, script);
      if push == Pushed && rest != [] {
        var w1 := w.(server := server, spool := Removed(w.spool, head.id));
        DrainLeavesSuffix(w1, items[1..], size, rest[1..]);
        var drained := DrainItems(w1, items[1..], size, rest[1..]).1;
        assert w.spool.rows[1..][drained..] == w.spool.rows[drained + 1..];
      }
    }
  }

  /** Everything a drain removes is upstream. */
  lemma {:induction false} DrainSound(
      w: World, items: seq<Item<Report>>, traces: Traces, size: int, script: seq<Fate>)
    requires Sound(w, traces, size) && items <= w.spool.rows
    ensures
      var (w', drained, _) := DrainItems(w, items, size, script);
      && Sound(w', traces, size)
      && (forall i :: 0 <= i < drained ==> Upstream(w'.server, items[i].body.key, traces, size))
      && (forall k :: Upstream(w.server, k, traces, size) ==> Upstream(w'.server, k, traces, size))
    decreases |items|
  {
    if items != [] {
      assert items[0] == w.spool.rows[0];
      HeadPushed(w, traces, size, script);
      hide Sound, Upstream, PushBundle, Removed;
      var (server, push, rest) := PushBundle(w.server, items[0].body, size, script);
      if push == Pushed && rest != [] {
        var w1 := w.(server := server, spool := Removed(w.spool, items[0].id));
        DrainSound(w1, items[1..], traces, size, rest[1..]);
        var drained := DrainItems(w1, items[1..], size, rest[1..]).1;
        assert forall i :: 0 < i <= drained ==> items[1..][i - 1] == items[i];
      }
    }
  }

  ghost predicate AllKnown(actions: seq<Action>, traces: Traces) {
    forall i :: 0 <= i < |actions| && actions[i].Finish? ==> Known(actions[i].report, traces)
  }

  lemma {:induction false} RunSound(actions: seq<Action>, traces: Traces, size: int)
    requires AllKnown(actions, traces)
    ensures Sound(Run(START, actions, size), traces, size)
  {
    if actions != [] {
      var init := actions[..|actions| - 1];
      RunSound(init, traces, size);
      var before := Run(START, init, size);
      match actions[|actions| - 1]
      case Finish(report, script) => ReportSound(before, report, traces, size, script);
      case Drain(limit, script) =>
        DrainSound(before, before.spool.rows[..LimitOf(|before.spool.rows|, limit)], traces, size, script);
    }
  }

  // ------------------------------------------------------------ main results

  /** No report is lost.  Over every history of reports, drains, outages, lost replies and kills,
      a report for which `report_run` returned is still queued or wholly upstream. */
  lemma {:induction false} NothingIsLost(actions: seq<Action>, traces: Traces, size: int, key: Key)
    requires AllKnown(actions, traces) && key in Run(START, actions, size).returned
    ensures
      var w := Run(START, actions, size);
      Queued(w.spool, key) || Upstream(w.server, key, traces, size)
  {
    RunSound(actions, traces, size);
  }

  /** The server never holds two rows for a run, and each row's samples are a concatenation of
      batch-aligned prefixes of that run's trace: nothing torn, reordered or foreign. */
  lemma {:induction false} ServerIsIdempotent(actions: seq<Action>, traces: Traces, size: int)
    requires AllKnown(actions, traces)
    ensures
      var server := Run(START, actions, size).server;
      && (forall i, j :: 0 <= i < |server| && 0 <= j < |server| && server[i].key == server[j].key ==> i == j)
      && (forall i :: 0 <= i < |server| ==>
            server[i].key in traces && Explained(server[i].samples, traces[server[i].key], size))
  {
    RunSound(actions, traces, size);
  }

  /** After any drain the queue is a suffix of what it was, everything removed is wholly upstream,
      and an unlimited drain stops early exactly when something is left. */
  lemma {:induction false} DrainTakesAPrefix(
      actions: seq<Action>, traces: Traces, size: int, limit: Option<int>, script: seq<Fate>)
    requires AllKnown(actions, traces)
    ensures
      var w := Run(START, actions, size);
      var (w', drained, end) := AfterDrain(w, limit, size, script);
      && drained + |w'.spool.rows| == |w.spool.rows|
      && w'.spool.rows == w.spool.rows[drained..]
      && (forall i :: 0 <= i < drained ==> Upstream(w'.server, w.spool.rows[i].body.key, traces, size))
      && (end == Drained <==> drained == LimitOf(|w.spool.rows|, limit))
      && (limit.None? && end != DrainKilled ==> (end == StoppedEarly <==> w'.spool.rows != []))
  {
    RunSound(actions, traces, size);
    var w := Run(START, actions, size);
    var items := w.spool.rows[..LimitOf(|w.spool.rows|, limit)];
    DrainSound(w, items, traces, size, script);
    DrainLeavesSuffix(w, items, size, script);
  }

  // ------------------------------------------------------------ exactly what is stored of a run

  function StoredOf(server: Server, key: Key): seq<Sample> {
    var id := IdOf(server, key);
    if id < |server| then server[id].samples else []
  }

  /** How much each push of this run gets applied in one drain, push by push. */
  function DrainCuts(server: Server, items: seq<Item<Report>>, size: int, script: seq<Fate>, key: Key): seq<nat>
    decreases |items|
  {
    if items == [] then []
    else
      var report := items[0].body;
      var (server', push, rest) := PushBundle(server, report, size, script);
      (if report.key == key then [PushCut(report, size, script)] else [])
      + if push == Pushed && rest != [] then DrainCuts(server', items[1..], size, rest[1..], key) else []
  }

  function ActionCuts(w: World, action: Action, size: int, key: Key): seq<nat> {
    match action
    case Finish(report, script) => if report.key == key then [PushCut(report, size, script)] else []
    case Drain(limit, script) =>
      DrainCuts(w.server, w.spool.rows[..LimitOf(|w.spool.rows|, limit)], size, script, key)
  }

  /** How much each push of this run got applied over a whole history, live and drained. */
  function Cuts(actions: seq<Action>, size: int, key: Key): seq<nat> {
    if actions == [] then []
    else
      var init := actions[..|actions| - 1];
      Cuts(init, size, key) + ActionCuts(Run(START, init, size), actions[|actions| - 1], size, key)
  }

  ghost predicate AllAligned(cuts: seq<nat>, length: nat, size: int) {
    forall i :: 0 <= i < |cuts| ==> Aligned(cuts[i], length, size)
  }

  lemma {:induction false} PrefixesConcat(trace: seq<Sample>, a: seq<nat>, b: seq<nat>)
    requires forall i :: 0 <= i < |a| ==> a[i] <= |trace|
    requires forall i :: 0 <= i < |b| ==> b[i] <= |trace|
    ensures forall i :: 0 <= i < |a + b| ==> (a + b)[i] <= |trace|
    ensures Prefixes(trace, a + b) == Prefixes(trace, a) + Prefixes(trace, b)
  {
    if b == [] {
      assert a + b == a;
    } else {
      var n := |b| - 1;
      var all, init := a + b, a + b[..n];
      assert all[..|all| - 1] == init && all[|all| - 1] == b[n];
      PrefixesConcat(trace, a, b[..n]);
      assert Prefixes(trace, all) == Prefixes(trace, init) + trace[..b[n]];
      assert Prefixes(trace, b) == Prefixes(trace, b[..n]) + trace[..b[n]];
      hide Prefixes;
    }
  }

  lemma {:induction false} InsertKeepsStored(server: Server, key: Key, other: Key)
    ensures StoredOf(RunInserted(server, key), other) == StoredOf(server, other)
  {
    var s := RunInserted(server, key);
    if IdOf(server, other) < |server| {
      IdOfUnique(s, other, IdOf(server, other));
    }
  }

  lemma {:induction false} AppendStores(server: Server, key: Key, batch: seq<Sample>, other: Key)
    requires IdOf(server, key) < |server|
    ensures StoredOf(SamplesAppended(server, IdOf(server, key), batch), other) ==
      StoredOf(server, other) + if other == key then batch else []
  {
    var id := IdOf(server, key);
    var s := SamplesAppended(server, id, batch);
    if IdOf(server, other) < |server| {
      IdOfUnique(s, other, IdOf(server, other));
    }
  }

  /** One push adds the applied prefix to its own run's samples and nothing to any other's. */
  lemma {:induction false} PushStores(server: Server, report: Report, size: int, script: seq<Fate>, key: Key)
    ensures Aligned(PushCut(report, size, script), |report.trace|, size)
    ensures
      var (server', push, _) := PushBundle(server, report, size, script);
      var cut := PushCut(report, size, script);
      && StoredOf(server', key) == StoredOf(server, key) + (if key == report.key then report.trace[..cut] else [])
      && (push == Pushed ==> cut == |report.trace|)
  {
    var n := PushBundleEffect(server, report, size, script);
    hide PushBundle, PushCut, StoredOf, RunInserted, SamplesAppended;
    InsertKeepsStored(server, report.key, key);
    AppendStores(RunInserted(server, report.key), report.key, report.trace[..n], key);
    assert report.trace[..0] == [];
  }

  /** The cuts account for what a step added to a run. */
  ghost predicate Accounts(before: Server, after: Server, key: Key, traces: Traces, size: int, cuts: seq<nat>)
    requires key in traces
  {
    && AllAligned(cuts, |traces[key]|, size)
    && StoredOf(after, key) == StoredOf(before, key) + Prefixes(traces[key], cuts)
  }

  lemma {:induction false} AccountsThen(
      a: Server, b: Server, c: Server, key: Key, traces: Traces, size: int, first: seq<nat>, second: seq<nat>)
    requires key in traces
    requires Accounts(a, b, key, traces, size, first) && Accounts(b, c, key, traces, size, second)
    ensures Accounts(a, c, key, traces, size, first + second)
  {
    hide StoredOf;
    PrefixesConcat(traces[key], first, second);
  }

  lemma {:induction false} PushAccounts(
      server: Server, report: Report, traces: Traces, size: int, script: seq<Fate>, key: Key)
    requires key in traces && Known(report, traces)
    ensures
      var (server', push, _) := PushBundle(server, report, size, script);
      var cuts := if report.key == key then [PushCut(report, size, script)] else [];
      && Accounts(server, server', key, traces, size, cuts)
      && (push == Pushed && report.key == key ==> |traces[key]| in cuts)
  {
    PushStores(server, report, size, script, key);
    hide PushBundle, PushCut, StoredOf;
    var cut := PushCut(report, size, script);
    assert [cut][..0] == [];
    if report.key == key {
      assert Prefixes(traces[key], [cut]) == [] + traces[key][..cut];
    }
  }

  /** What one item adds to a drain: its own push, and the rest only if that went through. */
  lemma {:induction false} DrainUnfolds(w: World, items: seq<Item<Report>>, size: int, script: seq<Fate>, key: Key)
    requires items != []
    ensures
      var report := items[0].body;
      var (server, push, rest) := PushBundle(w.server, report, size, script);
      var first := if report.key == key then [PushCut(report, size, script)] else [];
      var w1 := w.(server := server, spool := Removed(w.spool, items[0].id));
      var (w', drained, _) := DrainItems(w, items, size, script);
      var cuts := DrainCuts(w.server, items, size, script, key);
      if push == Pushed && rest != [] then
        && w'.server == DrainItems(w1, items[1..], size, rest[1..]).0.server
        && drained == DrainItems(w1, items[1..], size, rest[1..]).1 + 1
        && cuts == first + DrainCuts(server, items[1..], size, rest[1..], key)
      else w'.server == server && drained == 0 && cuts == first
  {
    hide PushBundle, PushCut, Removed;
  }

  lemma {:induction false} DrainAccounts(
      w: World, items: seq<Item<Report>>, traces: Traces, size: int, script: seq<Fate>, key: Key)
    requires key in traces && forall i :: 0 <= i < |items| ==> Known(items[i].body, traces)
    ensures
      var (w', drained, _) := DrainItems(w, items, size, script);
      var cuts := DrainCuts(w.server, items, size, script, key);
      && Accounts(w.server, w'.server, key, traces, size, cuts)
      && (forall i :: 0 <= i < drained && items[i].body.key == key ==> |traces[key]| in cuts)
    decreases |items|
  {
    if items == [] {
      NothingAccounted(w.server, key, traces, size);
    } else {
      hide Accounts, PushBundle, PushCut, Known, Removed, DrainItems, DrainCuts;
      var report := items[0].body;
      PushAccounts(w.server, report, traces, size, script, key);
      DrainUnfolds(w, items, size, script, key);
      var (server, push, rest) := PushBundle(w.server, report, size, script);
      var first := if report.key == key then [PushCut(report, size, script)] else [];
      if push == Pushed && rest != [] {
        var w1, more := w.(server := server, spool := Removed(w.spool, items[0].id)), items[1..];
        DrainAccounts(w1, more, traces, size, rest[1..], key);
        var (w2, drained, _) := DrainItems(w1, more, size, rest[1..]);
        var later := DrainCuts(server, more, size, rest[1..], key);
        AccountsThen(w.server, server, w2.server, key, traces, size, first, later);
        assert forall i :: 0 < i <= drained ==> more[i - 1] == items[i];
      }
    }
  }

  lemma {:induction false} NothingAccounted(server: Server, key: Key, traces: Traces, size: int)
    requires key in traces
    ensures Accounts(server, server, key, traces, size, [])
  {
  }

  /** A run that leaves the queue was pushed whole. */
  ghost predicate Settled(w: World, key: Key, traces: Traces, cuts: seq<nat>)
    requires key in traces
  {
    key in w.returned ==> Queued(w.spool, key) || |traces[key]| in cuts
  }

  lemma {:induction false} ReportSettles(
      w: World, report: Report, traces: Traces, size: int, script: seq<Fate>, key: Key, cuts: seq<nat>)
    requires key in traces && Known(report, traces) && Settled(w, key, traces, cuts)
    ensures
      var w' := AfterReport(w, report, size, script);
      var more := ActionCuts(w, Finish(report, script), size, key);
      && Accounts(w.server, w'.server, key, traces, size, more)
      && Settled(w', key, traces, cuts + more)
  {
    PushAccounts(w.server, report, traces, size, script, key);
    hide Accounts, PushBundle, PushCut;
    var (_, push, rest) := PushBundle(w.server, report, size, script);
    if push == PushFailed && rest != [] {
      var spool := Enqueued(w.spool, report);
      assert spool.rows[|w.spool.rows|].body == report;
      if Queued(w.spool, key) {
        var i :| 0 <= i < |w.spool.rows| && w.spool.rows[i].body.key == key;
        assert spool.rows[i] == w.spool.rows[i];
      }
    }
  }

  lemma {:induction false} DrainSettles(
      w: World, limit: Option<int>, traces: Traces, size: int, script: seq<Fate>, key: Key, cuts: seq<nat>)
    requires key in traces && SpoolSound(w.spool, traces) && Settled(w, key, traces, cuts)
    ensures
      var w' := AfterDrain(w, limit, size, script).0;
      var more := ActionCuts(w, Drain(limit, script), size, key);
      && Accounts(w.server, w'.server, key, traces, size, more)
      && Settled(w', key, traces, cuts + more)
  {
    hide Accounts, DrainItems, DrainCuts, Known, Ordered, Queued;
    var items := w.spool.rows[..LimitOf(|w.spool.rows|, limit)];
    assert forall i :: 0 <= i < |items| ==> items[i] == w.spool.rows[i];
    DrainAccounts(w, items, traces, size, script, key);
    DrainLeavesSuffix(w, items, size, script);
    if Queued(w.spool, key) {
      LeavesByTheHead(w.spool, DrainItems(w, items, size, script).1, key);
    }
  }

  lemma {:induction false} LeavesByTheHead(spool: Table<Report>, n: nat, key: Key)
    requires n <= |spool.rows| && Queued(spool, key)
    ensures Queued(spool.(rows := spool.rows[n..]), key) || exists i :: 0 <= i < n && spool.rows[i].body.key == key
  {
    var i :| 0 <= i < |spool.rows| && spool.rows[i].body.key == key;
    var rest := spool.(rows := spool.rows[n..]);
    assert i >= n ==> rest.rows[i - n].body.key == key;
  }

  /** Exactly what the server holds of a run, over every history of reports, drains, outages, lost
      replies and kills: for each push of the run, in order, the prefix of its trace that the push
      got applied; and a run returned and no longer queued was pushed whole at least once. */
  lemma {:induction false} StoredIsWhatWasApplied(actions: seq<Action>, traces: Traces, size: int, key: Key)
    requires AllKnown(actions, traces) && key in traces
    ensures AllAligned(Cuts(actions, size, key), |traces[key]|, size)
    ensures StoredOf(Run(START, actions, size).server, key) == Prefixes(traces[key], Cuts(actions, size, key))
    ensures Settled(Run(START, actions, size), key, traces, Cuts(actions, size, key))
  {
    StoredFromStart(actions, traces, size, key);
    assert StoredOf(START.server, key) == [];
    hide Run, Cuts;
    assert [] + Prefixes(traces[key], Cuts(actions, size, key)) == Prefixes(traces[key], Cuts(actions, size, key));
  }

  lemma {:induction false} StoredFromStart(actions: seq<Action>, traces: Traces, size: int, key: Key)
    requires AllKnown(actions, traces) && key in traces
    ensures Accounts(START.server, Run(START, actions, size).server, key, traces, size, Cuts(actions, size, key))
    ensures Settled(Run(START, actions, size), key, traces, Cuts(actions, size, key))
  {
    if actions == [] {
      NothingAccounted(START.server, key, traces, size);
    } else {
      var init, last := actions[..|actions| - 1], actions[|actions| - 1];
      StoredFromStart(init, traces, size, key);
      RunSound(init, traces, size);
      hide Accounts, Settled, ActionCuts, AfterReport, AfterDrain, SpoolSound, ServerSound;
      var before := Run(START, init, size);
      match last {
        case Finish(report, script) =>
          ReportSettles(before, report, traces, size, script, key, Cuts(init, size, key));
        case Drain(limit, script) =>
          DrainSettles(before, limit, traces, size, script, key, Cuts(init, size, key));
      }
      AccountsThen(START.server, before.server, Run(START, actions, size).server, key, traces, size,
        Cuts(init, size, key), ActionCuts(before, last, size, key));
    }
  }

  // ------------------------------------------------------------ exactly when a run is stored once

  function TotalOf(cuts: seq<nat>): nat {
    if cuts == [] then 0 else TotalOf(cuts[..|cuts| - 1]) + cuts[|cuts| - 1]
  }

  /** How many pushes got any samples applied. */
  function Effective(cuts: seq<nat>): nat {
    if cuts == [] then 0 else Effective(cuts[..|cuts| - 1]) + if cuts[|cuts| - 1] > 0 then 1 else 0
  }

  lemma {:induction false} NoneEffective(trace: seq<Sample>, cuts: seq<nat>)
    requires forall i :: 0 <= i < |cuts| ==> cuts[i] <= |trace|
    ensures |Prefixes(trace, cuts)| == TotalOf(cuts)
    ensures Effective(cuts) == 0 <==> TotalOf(cuts) == 0
  {
    if cuts != [] {
      NoneEffective(trace, cuts[..|cuts| - 1]);
    }
  }

  /** With one whole copy among them, the prefixes make up the trace exactly when nothing else was
      applied. */
  lemma {:induction false} OneWholeCopy(trace: seq<Sample>, cuts: seq<nat>)
    requires forall i :: 0 <= i < |cuts| ==> cuts[i] <= |trace|
    requires |trace| in cuts
    ensures TotalOf(cuts) >= |trace|
    ensures Prefixes(trace, cuts) == trace <==> TotalOf(cuts) == |trace|
    ensures trace != [] ==> Effective(cuts) >= 1 && (TotalOf(cuts) == |trace| <==> Effective(cuts) == 1)
  {
    var init, last := cuts[..|cuts| - 1], cuts[|cuts| - 1];
    NoneEffective(trace, cuts);
    NoneEffective(trace, init);
    assert trace[..|trace|] == trace;
    if |trace| in init {
      OneWholeCopy(trace, init);
      assert last == 0 ==> Prefixes(trace, init) + trace[..last] == Prefixes(trace, init);
    } else {
      assert Prefixes(trace, init) == [] ==> [] + trace == trace;
    }
  }

  /** Exactly when a settled run is stored once.  Over every history, a run that was returned and is
      no longer queued has exactly its trace upstream if and only if its pushes got no more samples
      applied than the trace has; for a non-empty trace, if and only if just one of them got any. */
  lemma {:induction false} StoredOnceIff(actions: seq<Action>, traces: Traces, size: int, key: Key)
    requires AllKnown(actions, traces) && key in traces
    requires key in Run(START, actions, size).returned && !Queued(Run(START, actions, size).spool, key)
    ensures
      var stored, cuts := StoredOf(Run(START, actions, size).server, key), Cuts(actions, size, key);
      && (stored == traces[key] <==> TotalOf(cuts) == |traces[key]|)
      && (traces[key] != [] ==> (stored == traces[key] <==> Effective(cuts) == 1))
  {
    StoredIsWhatWasApplied(actions, traces, size, key);
    var cuts := Cuts(actions, size, key);
    hide Run, Cuts, StoredOf;
    OneWholeCopy(traces[key], cuts);
  }

  // ------------------------------------------------------------ when nothing is stored twice

  predicate SamplesGetThrough(script: seq<Fate>) {
    forall i :: 0 <= i < |script| ==> script[i].samples == Delivered
  }

  /** The process survives the whole action. */
  predicate Survives(w: World, action: Action, size: int) {
    match action
    case Finish(report, script) =>
      var (_, push, rest) := PushBundle(w.server, report, size, script);
      push == Pushed || (push == PushFailed && rest != [])
    case Drain(limit, script) => AfterDrain(w, limit, size, script).2 != DrainKilled
  }

  function Reported(actions: seq<Action>): (keys: set<Key>) {
    set i | 0 <= i < |actions| && actions[i].Finish? :: actions[i].report.key
  }

  /** The ordinary outage: only run pushes fail, nothing is killed, no run is reported twice. */
  ghost predicate OrdinaryOutages(actions: seq<Action>, size: int) {
    actions == [] ||
    var init, last := actions[..|actions| - 1], actions[|actions| - 1];
    && OrdinaryOutages(init, size)
    && SamplesGetThrough(last.script)
    && Survives(Run(START, init, size), last, size)
    && (last.Finish? ==> last.report.key !in Reported(init))
  }

  lemma {:induction false} BatchesGetThrough(server: Server, id: nat, batches: seq<seq<Sample>>, script: seq<Fate>)
    requires id < |server| && SamplesGetThrough(script)
    ensures PushBatches(server, id, batches, script).1 != PushFailed
    ensures SamplesGetThrough(PushBatches(server, id, batches, script).2)
    decreases |batches|
  {
    if batches != [] && script != [] {
      BatchesGetThrough(SamplesAppended(server, id, batches[0]), id, batches[1..], script[1..]);
    }
  }

  lemma {:induction false} OrdinaryPush(server: Server, report: Report, size: int, script: seq<Fate>)
    requires SamplesGetThrough(script)
    ensures
      var (server', push, rest) := PushBundle(server, report, size, script);
      var s := RunInserted(server, report.key);
      && SamplesGetThrough(rest)
      && (push == PushFailed ==> server' == server || server' == s)
      && (push == Pushed ==> server' == SamplesAppended(s, IdOf(s, report.key), report.trace))
  {
    if script != [] {
      var s := RunInserted(server, report.key);
      BatchesGetThrough(s, IdOf(s, report.key), Chunks(report.trace, size), script[1..]);
      var n := PushBundleEffect(server, report, size, script);
      assert report.trace[..|report.trace|] == report.trace;
    }
  }

  function SpoolKeys(spool: Table<Report>): set<Key> {
    set i | 0 <= i < |spool.rows| :: spool.rows[i].body.key
  }

  /** Queued runs have no samples upstream yet; the others have exactly their trace. */
  ghost predicate ServerOnce(server: Server, queued: set<Key>, keys: set<Key>, traces: Traces) {
    && (forall i, j :: 0 <= i < j < |server| ==> server[i].key != server[j].key)
    && (forall i :: 0 <= i < |server| ==>
          && server[i].key in keys && server[i].key in traces
          && server[i].samples == if server[i].key in queued then [] else traces[server[i].key])
    && (forall key :: key in keys ==> key in queued || IdOf(server, key) < |server|)
  }

  ghost predicate SpoolOnce(spool: Table<Report>, keys: set<Key>, traces: Traces) {
    && Ordered(spool)
    && (forall i, j :: 0 <= i < j < |spool.rows| ==> spool.rows[i].body.key != spool.rows[j].body.key)
    && (forall i :: 0 <= i < |spool.rows| ==> Known(spool.rows[i].body, traces))
    && SpoolKeys(spool) <= keys
  }

  ghost predicate StoredOnce(w: World, keys: set<Key>, traces: Traces) {
    SpoolOnce(w.spool, keys, traces) && ServerOnce(w.server, SpoolKeys(w.spool), keys, traces)
  }

  lemma {:induction false} InsertOnce(server: Server, queued: set<Key>, keys: set<Key>, traces: Traces, key: Key)
    requires ServerOnce(server, queued, keys, traces) && key in queued && key in keys && key in traces
    ensures ServerOnce(RunInserted(server, key), queued, keys, traces)
  {
    var s := RunInserted(server, key);
    forall k | k in keys ensures k in queued || IdOf(s, k) < |s| {
      if IdOf(server, k) < |server| {
        assert s[IdOf(server, k)].key == k;
      }
    }
  }

  lemma {:induction false} AppendOnce(server: Server, queued: set<Key>, keys: set<Key>, traces: Traces, key: Key)
    requires ServerOnce(server, queued, keys, traces) && key in queued && key in traces
    requires IdOf(server, key) < |server|
    ensures ServerOnce(SamplesAppended(server, IdOf(server, key), traces[key]), queued - {key}, keys, traces)
  {
    var id := IdOf(server, key);
    var s := SamplesAppended(server, id, traces[key]);
    assert [] + traces[key] == traces[key];
    forall k | k in keys ensures k in queued - {key} || IdOf(s, k) < |s| {
      if k == key {
        assert s[id].key == k;
      } else if IdOf(server, k) < |server| {
        assert s[IdOf(server, k)].key == k;
      }
    }
  }

  lemma {:induction false} PushOnce(
      server: Server, queued: set<Key>, keys: set<Key>, traces: Traces, report: Report, size: int, script: seq<Fate>)
    requires ServerOnce(server, queued, keys, traces) && report.key in queued && report.key in keys
    requires Known(report, traces) && SamplesGetThrough(script)
    ensures
      var (server', push, rest) := PushBundle(server, report, size, script);
      && SamplesGetThrough(rest)
      && (push == PushFailed ==> ServerOnce(server', queued, keys, traces))
      && (push == Pushed ==> ServerOnce(server', queued - {report.key}, keys, traces))
  {
    OrdinaryPush(server, report, size, script);
    InsertOnce(server, queued, keys, traces, report.key);
    AppendOnce(RunInserted(server, report.key), queued, keys, traces, report.key);
  }

  /** A run that was never reported has no row, so it may be counted as queued. */
  lemma {:induction false} AnnounceOnce(server: Server, queued: set<Key>, keys: set<Key>, traces: Traces, key: Key)
    requires ServerOnce(server, queued, keys, traces) && key !in keys
    ensures ServerOnce(server, queued + {key}, keys + {key}, traces)
  {
  }

  lemma {:induction false} EnqueueOnce(spool: Table<Report>, report: Report, keys: set<Key>, traces: Traces)
    requires SpoolOnce(spool, keys, traces) && Known(report, traces) && report.key !in keys
    ensures SpoolKeys(Enqueued(spool, report)) == SpoolKeys(spool) + {report.key}
    ensures report.key !in SpoolKeys(spool)
    ensures SpoolOnce(spool, keys + {report.key}, traces)
    ensures SpoolOnce(Enqueued(spool, report), keys + {report.key}, traces)
  {
    KeysEnqueued(spool, report);
    hide SpoolKeys, Known;
    var longer, n := Enqueued(spool, report), |spool.rows|;
    assert longer.rows[n].body == report;
    forall i | 0 <= i < n ensures longer.rows[i] == spool.rows[i] && spool.rows[i].body.key in SpoolKeys(spool) {
      KeyQueued(spool, i);
    }
  }

  lemma {:induction false} KeyQueued(spool: Table<Report>, i: nat)
    requires i < |spool.rows|
    ensures spool.rows[i].body.key in SpoolKeys(spool)
  {
  }

  lemma {:induction false} KeysEnqueued(spool: Table<Report>, report: Report)
    ensures SpoolKeys(Enqueued(spool, report)) == SpoolKeys(spool) + {report.key}
  {
    var longer, n := Enqueued(spool, report), |spool.rows|;
    assert longer.rows[n].body == report;
    forall k ensures k in SpoolKeys(longer) <==> k in SpoolKeys(spool) + {report.key} {
      if k in SpoolKeys(spool) {
        var i :| 0 <= i < n && spool.rows[i].body.key == k;
        assert longer.rows[i].body.key == k;
      }
    }
  }

  lemma {:induction false} OrdinaryReport(
      w: World, report: Report, keys: set<Key>, traces: Traces, size: int, script: seq<Fate>)
    requires StoredOnce(w, keys, traces) && Known(report, traces) && report.key !in keys
    requires SamplesGetThrough(script) && Survives(w, Finish(report, script), size)
    ensures StoredOnce(AfterReport(w, report, size, script), keys + {report.key}, traces)
  {
    hide ServerOnce, SpoolOnce, SpoolKeys, PushBundle, Enqueued, SamplesGetThrough;
    var queued, key := SpoolKeys(w.spool), report.key;
    AnnounceOnce(w.server, queued, keys, traces, key);
    PushOnce(w.server, queued + {key}, keys + {key}, traces, report, size, script);
    EnqueueOnce(w.spool, report, keys, traces);
    assert queued + {key} - {key} == queued;
  }

  lemma {:induction false} DequeueOnce(spool: Table<Report>, keys: set<Key>, traces: Traces)
    requires SpoolOnce(spool, keys, traces) && spool.rows != []
    ensures SpoolOnce(spool.(rows := spool.rows[1..]), keys, traces)
    ensures SpoolKeys(spool.(rows := spool.rows[1..])) == SpoolKeys(spool) - {spool.rows[0].body.key}
  {
    var rest := spool.(rows := spool.rows[1..]);
    forall k ensures k in SpoolKeys(rest) <==> k in SpoolKeys(spool) - {spool.rows[0].body.key} {
      if k in SpoolKeys(spool) && k != spool.rows[0].body.key {
        var i :| 0 <= i < |spool.rows| && spool.rows[i].body.key == k;
        assert rest.rows[i - 1].body.key == k;
      }
      if k in SpoolKeys(rest) {
        var i :| 0 <= i < |rest.rows| && rest.rows[i].body.key == k;
        assert spool.rows[i + 1].body.key == k;
      }
    }
  }

  lemma {:induction false} OrdinaryDrain(
      w: World, items: seq<Item<Report>>, keys: set<Key>, traces: Traces, size: int, script: seq<Fate>)
    requires StoredOnce(w, keys, traces) && items <= w.spool.rows
    requires SamplesGetThrough(script) && DrainItems(w, items, size, script).2 != DrainKilled
    ensures StoredOnce(DrainItems(w, items, size, script).0, keys, traces)
    decreases |items|
  {
    if items != [] {
      assert items[0] == w.spool.rows[0];
      assert items[0].body.key in SpoolKeys(w.spool);
      PushOnce(w.server, SpoolKeys(w.spool), keys, traces, items[0].body, size, script);
      var (server, push, rest) := PushBundle(w.server, items[0].body, size, script);
      if push == Pushed {
        RemoveHead(w.spool);
        DequeueOnce(w.spool, keys, traces);
        OrdinaryDrain(
          w.(server := server, spool := Removed(w.spool, items[0].id)), items[1..], keys, traces, size, rest[1..]);
      }
    }
  }

  lemma {:induction false} ReportedExtends(actions: seq<Action>)
    requires actions != []
    ensures
      var init, last := actions[..|actions| - 1], actions[|actions| - 1];
      Reported(actions) == Reported(init) + if last.Finish? then {last.report.key} else {}
  {
    var init := actions[..|actions| - 1];
    assert forall i :: 0 <= i < |init| ==> init[i] == actions[i];
  }

  lemma {:induction false} OrdinaryAction(
      w: World, action: Action, keys: set<Key>, traces: Traces, size: int)
    requires StoredOnce(w, keys, traces) && SamplesGetThrough(action.script) && Survives(w, action, size)
    requires action.Finish? ==> Known(action.report, traces) && action.report.key !in keys
    ensures StoredOnce(After(w, action, size), keys + (if action.Finish? then {action.report.key} else {}), traces)
  {
    hide StoredOnce, AfterReport, DrainItems, SamplesGetThrough;
    match action
    case Finish(report, script) => OrdinaryReport(w, report, keys, traces, size, script);
    case Drain(limit, script) =>
      assert keys + {} == keys;
      OrdinaryDrain(w, w.spool.rows[..LimitOf(|w.spool.rows|, limit)], keys, traces, size, script);
  }

  /** Through any ordinary outage every run is stored exactly once: a run no longer queued has
      exactly its trace upstream, a queued one has no samples there yet. */
  lemma {:induction false} OrdinaryOutagesStoreOnce(actions: seq<Action>, traces: Traces, size: int)
    requires AllKnown(actions, traces) && OrdinaryOutages(actions, size)
    ensures StoredOnce(Run(START, actions, size), Reported(actions), traces)
  {
    if actions != [] {
      hide StoredOnce, Survives, After, SamplesGetThrough, Reported, Known;
      var init, last := actions[..|actions| - 1], actions[|actions| - 1];
      OrdinaryOutagesStoreOnce(init, traces, size);
      ReportedExtends(actions);
      OrdinaryAction(Run(START, init, size), last, Reported(init), traces, size);
    }
  }

  /** A one-batch report whose sample push is applied but whose reply is lost. */
  lemma {:induction false} LossyReport(report: Report, size: int)
    requires |report.trace| == 1
    ensures
      var lossy := Fate(Delivered, LostReply);
      Run(START, [Finish(report, [lossy, lossy, lossy])], size) ==
        World([Row(report.key, report.trace)], Table([Item(1, report)], 1), {report.key})
  {
    var lossy := Fate(Delivered, LostReply);
    var first := Finish(report, [lossy, lossy, lossy]);
    assert [first][..0] == [];
    assert Chunks(report.trace, size) == [report.trace];
    var row0 := Row(report.key, []);
    assert RunInserted([], report.key) == [row0] && IdOf([row0], report.key) == 0;
    assert [] + report.trace == report.trace;
    assert SamplesAppended([row0], 0, report.trace) == [Row(report.key, report.trace)];
    assert PushBundle([], report, size, first.script) == ([Row(report.key, report.trace)], PushFailed, [lossy]);
  }

  /** Draining it sends the batch again. */
  lemma {:induction false} DrainAfterLoss(w: World, report: Report, size: int)
    requires |report.trace| == 1
    requires w.server == [Row(report.key, report.trace)] && w.spool.rows == [Item(1, report)]
    ensures
      var good := Fate(Delivered, Delivered);
      AfterDrain(w, None, size, [good, good, good]).0.server == [Row(report.key, report.trace + report.trace)]
  {
    var good, row := Fate(Delivered, Delivered), w.server[0];
    assert Chunks(report.trace, size) == [report.trace];
    assert RunInserted([row], report.key) == [row] && IdOf([row], report.key) == 0;
    var server := SamplesAppended([row], 0, report.trace);
    assert PushBatches([row], 0, [report.trace], [good, good]) == (server, Pushed, [good]);
    assert PushBundle([row], report, size, [good, good, good]) == (server, Pushed, [good]);
    var items := w.spool.rows;
    assert items[..1] == items && items[1..] == [];
    assert DrainItems(w, items, size, [good, good, good]).0.server == server;
  }

  /** Outside it a batch can be stored twice: here one sample push loses its reply. */
  lemma {:induction false} LostSampleReplyDuplicates(report: Report, size: int)
    requires |report.trace| == 1
    ensures
      var lossy, good := Fate(Delivered, LostReply), Fate(Delivered, Delivered);
      var actions := [Finish(report, [lossy, lossy, lossy]), Drain(None, [good, good, good])];
      Run(START, actions, size).server == [Row(report.key, report.trace + report.trace)]
  {
    hide AfterReport, AfterDrain;
    var lossy, good := Fate(Delivered, LostReply), Fate(Delivered, Delivered);
    var first, second := Finish(report, [lossy, lossy, lossy]), Drain(None, [good, good, good]);
    LossyReport(report, size);
    DrainAfterLoss(Run(START, [first], size), report, size);
    assert [first, second][..1] == [first];
  }

  // ------------------------------------------------------------ progress

  function StepsToPush(report: Report, size: int): nat {
    1 + |Chunks(report.trace, size)|
  }

  function StepsToDrain(items: seq<Item<Report>>, size: int): nat {
    if items == [] then 0 else StepsToPush(items[0].body, size) + 1 + StepsToDrain(items[1..], size)
  }

  predicate Healthy(script: seq<Fate>) {
    forall i :: 0 <= i < |script| ==> script[i] == Fate(Delivered, Delivered)
  }

  lemma {:induction false} HealthyBatches(server: Server, id: nat, batches: seq<seq<Sample>>, script: seq<Fate>)
    requires id < |server| && Healthy(script) && |script| >= |batches|
    ensures PushBatches(server, id, batches, script).1 == Pushed
    ensures PushBatches(server, id, batches, script).2 == script[|batches|..]
    decreases |batches|
  {
    if batches != [] {
      HealthyBatches(SamplesAppended(server, id, batches[0]), id, batches[1..], script[1..]);
      assert script[1..][|batches[1..]|..] == script[|batches|..];
    }
  }

  /** A drain over a healthy network that is left alone long enough empties the queue. */
  lemma {:induction false} HealthyDrainEmpties(w: World, items: seq<Item<Report>>, size: int, script: seq<Fate>)
    requires Healthy(script) && |script| >= StepsToDrain(items, size)
    ensures DrainItems(w, items, size, script).1 == |items|
    ensures DrainItems(w, items, size, script).2 == Drained
    decreases |items|
  {
    if items != [] {
      var report := items[0].body;
      var s := RunInserted(w.server, report.key);
      HealthyBatches(s, IdOf(s, report.key), Chunks(report.trace, size), script[1..]);
      var (server, push, rest) := PushBundle(w.server, report, size, script);
      assert rest == script[StepsToPush(report, size)..];
      HealthyDrainEmpties(
        w.(server := server, spool := Removed(w.spool, items[0].id)), items[1..], size, rest[1..]);
    }
  }

  // ------------------------------------------------------------ how a report ends

  /** The reply to the i-th step of a push: the run's first, then one for each batch. */
  function StepReply(script: seq<Fate>, i: nat): Reply
    requires i < |script|
  {
    if i == 0 then script[0].run else script[i].samples
  }

  lemma {:induction false} BatchesEnd(server: Server, id: nat, batches: seq<seq<Sample>>, script: seq<Fate>, f: nat)
    requires id < |server| && f <= |batches| && f <= |script|
    requires forall i :: 0 <= i < f ==> script[i].samples == Delivered
    ensures
      var (_, push, rest) := PushBatches(server, id, batches, script);
      && (f == |batches| ==> push == Pushed && rest == script[f..])
      && (f < |batches| && f < |script| && script[f].samples != Delivered ==>
            push == PushFailed && rest == script[f + 1..])
      && (f < |batches| && f == |script| ==> push == Killed)
    decreases |batches|
  {
    if f > 0 {
      BatchesEnd(SamplesAppended(server, id, batches[0]), id, batches[1..], script[1..], f - 1);
      assert script[1..][f - 1..] == script[f..];
      if f < |script| {
        assert script[1..][f..] == script[f + 1..];
      }
      hide SamplesAppended;
    }
  }

  /** Exactly how a push ends, by the number of steps that go through first: it succeeds when all it
      needs do, fails at the first reply that is not a delivery, and dies if there are no more. */
  lemma {:induction false} PushEnds(server: Server, report: Report, size: int, script: seq<Fate>, f: nat)
    requires f <= StepsToPush(report, size) && f <= |script|
    requires forall i :: 0 <= i < f ==> StepReply(script, i) == Delivered
    ensures
      var (_, push, rest) := PushBundle(server, report, size, script);
      && (f == StepsToPush(report, size) ==> push == Pushed && rest == script[f..])
      && (f < StepsToPush(report, size) && f < |script| && StepReply(script, f) != Delivered ==>
            push == PushFailed && rest == script[f + 1..])
      && (f < StepsToPush(report, size) && f == |script| ==> push == Killed)
  {
    if f > 0 {
      assert StepReply(script, 0) == Delivered;
      var s := RunInserted(server, report.key);
      assert forall i :: 0 <= i < f - 1 ==> StepReply(script, i + 1) == script[1..][i].samples;
      BatchesEnd(s, IdOf(s, report.key), Chunks(report.trace, size), script[1..], f - 1);
      assert script[1..][f - 1..] == script[f..];
      if f < |script| {
        assert script[1..][f..] == script[f + 1..];
      }
      hide Chunks, RunInserted, PushBatches;
    }
  }

  /** Exactly how a report ends: after a push that goes through nothing is queued; after one that fails
      the whole report joins the tail of the queue under a new id, unless the process dies first; and
      the reporter has returned in these two cases only. */
  lemma {:induction false} ReportEnds(w: World, report: Report, size: int, script: seq<Fate>, f: nat)
    requires f <= StepsToPush(report, size) && f <= |script|
    requires forall i :: 0 <= i < f ==> StepReply(script, i) == Delivered
    ensures
      var w' := AfterReport(w, report, size, script);
      var pushed := f == StepsToPush(report, size);
      var failed := !pushed && f < |script| && StepReply(script, f) != Delivered;
      && (pushed ==> w'.spool == w.spool && w'.returned == w.returned + {report.key})
      && (failed && f + 1 < |script| ==>
            && w'.spool.rows == w.spool.rows + [Item(w.spool.lastId + 1, report)]
            && w'.spool.lastId == w.spool.lastId + 1
            && w'.returned == w.returned + {report.key})
      && ((failed && f + 1 == |script|) || (!pushed && f == |script|) ==>
            w'.spool == w.spool && w'.returned == w.returned)
  {
    PushEnds(w.server, report, size, script, f);
    hide PushBundle, StepsToPush, StepReply;
  }

  /** A drain under way: what is still ahead of it leads to `total`, `drained` items in. */
  ghost predicate Ahead(
    server: Server, spool: Table<Report>, items: seq<Item<Report>>, size: int, script: seq<Fate>,
    drained: nat, total: (World, nat, DrainEnd))
  {
    var (w, more, end) := DrainItems(World(server, spool, {}), items, size, script);
    w == total.0 && drained + more == total.1 && end == total.2
  }

  lemma {:induction false} AheadStep(
      server: Server, spool: Table<Report>, items: seq<Item<Report>>, i: nat, size: int, script: seq<Fate>,
      drained: nat, total: (World, nat, DrainEnd))
    requires i < |items| && Ahead(server, spool, items[i..], size, script, drained, total)
    ensures
      var (server', push, rest) := PushBundle(server, items[i].body, size, script);
      && (push == Killed ==> total == (World(server', spool, {}), drained, DrainKilled))
      && (push == PushFailed ==> total == (World(server', spool, {}), drained, StoppedEarly))
      && (push == Pushed && rest == [] ==> total == (World(server', spool, {}), drained, DrainKilled))
      && (push == Pushed && rest != [] ==>
            Ahead(server', Removed(spool, items[i].id), items[i + 1..], size, rest[1..], drained + 1, total))
  {
    hide PushBundle, Without;
    assert items[i..][1..] == items[i + 1..] && items[i..][0] == items[i];
  }

  lemma {:induction false} AheadOver(
      server: Server, spool: Table<Report>, size: int, script: seq<Fate>, drained: nat, total: (World, nat, DrainEnd))
    requires Ahead(server, spool, [], size, script, drained, total)
    ensures total == (World(server, spool, {}), drained, Drained)
  {
  }

  // ------------------------------------------------------------ the reporter object

  datatype CallResult = Dead | Failed | Ok(id: nat)

  /** The remote end as one process sees it: server rows plus the steps left before a kill. */
  class Wire {
    var server: Server
    var script: seq<Fate>

    constructor (server: Server, script: seq<Fate>)
      ensures this.server == server && this.script == script
    {
      this.server, this.script := server, script;
    }

    method PushRun(key: Key) returns (r: CallResult)
      modifies this
      ensures old(script) == [] ==> r == Dead && server == old(server) && script == []
      ensures old(script) != [] ==>
        && script == old(script)[1..]
        && server == (if old(script)[0].run == Refused then old(server) else RunInserted(old(server), key))
        && r == if old(script)[0].run == Delivered then Ok(IdOf(server, key)) else Failed
    {
      if script == [] {
        return Dead;
      }
      var reply := script[0].run;
      script := script[1..];
      if reply != Refused {
        server := RunInserted(server, key);
      }
      r := if reply == Delivered then Ok(IdOf(server, key)) else Failed;
    }

    method PushSamples(id: nat, batch: seq<Sample>) returns (r: CallResult)
      requires id < |server|
      modifies this
      ensures old(script) == [] ==> r == Dead && server == old(server) && script == []
      ensures old(script) != [] ==>
        && script == old(script)[1..]
        && server ==
          (if old(script)[0].samples == Refused then old(server) else SamplesAppended(old(server), id, batch))
        && r == if old(script)[0].samples == Delivered then Ok(id) else Failed
    {
      if script == [] {
        return Dead;
      }
      var reply := script[0].samples;
      script := script[1..];
      if reply != Refused {
        server := SamplesAppended(server, id, batch);
      }
      r := if reply == Delivered then Ok(id) else Failed;
    }

    /** A local durable write: it only happens if the process is still alive. */
    method Tick() returns (alive: bool)
      modifies this
      ensures server == old(server) && alive == (old(script) != [])
      ensures script == if alive then old(script)[1..] else []
    {
      alive := script != [];
      script := if alive then script[1..] else [];
    }
  }

  datatype ReportOutcome = Live | Spooled | ReportKilled

  datatype DrainResult = DrainResult(drained: nat, remaining: nat, end: DrainEnd)

  class RunReporter {
    const wire: Wire
    const spool: Spool<Report>
    const sampleBatchSize: int

    constructor (wire: Wire, spool: Spool<Report>, sampleBatchSize: int)
      ensures this.wire == wire && this.spool == spool && this.sampleBatchSize == sampleBatchSize
    {
      this.wire, this.spool, this.sampleBatchSize := wire, spool, sampleBatchSize;
    }

    method Push(report: Report) returns (push: Push)
      modifies wire
      ensures (wire.server, push, wire.script) ==
        PushBundle(old(wire.server), report, sampleBatchSize, old(wire.script))
    {
      var run := wire.PushRun(report.key);
      match run {
        case Dead => return Killed;
        case Failed => return PushFailed;
        case Ok(id) =>
          var batches := Chunks(report.trace, sampleBatchSize);
          ghost var result := PushBatches(wire.server, id, batches, wire.script);
          for i := 0 to |batches|
            invariant id < |wire.server|
            invariant PushBatches(wire.server, id, batches[i..], wire.script) == result
          {
            assert batches[i..][1..] == batches[i + 1..];
            var sent := wire.PushSamples(id, batches[i]);
            if sent == Dead {
              return Killed;
            } else if sent == Failed {
              return PushFailed;
            }
          }
          return Pushed;
      }
    }

    /** Pushes a finished run live, or queues the whole report on any failure. */
    method ReportRun(report: Report, ghost returned: set<Key>) returns (outcome: ReportOutcome)
      requires spool.Valid()
      modifies wire, spool
      ensures spool.Valid()
      ensures World(wire.server, spool.Contents(),
                returned + if outcome == ReportKilled then {} else {report.key}) ==
        AfterReport(
          World(old(wire.server), old(spool.Contents()), returned), report, sampleBatchSize, old(wire.script))
    {
      var push := Push(report);
      match push {
        case Pushed => return Live;
        case Killed =>
          assert returned + {} == returned;
          return ReportKilled;
        case PushFailed =>
          var alive := wire.Tick();
          if !alive {
            assert returned + {} == returned;
            return ReportKilled;
          }
          var _ := spool.Enqueue(report);
          return Spooled;
      }
    }

    /** Replays the queue in order, removing each report only once it is wholly upstream. */
    method DrainSpool(limit: Option<int>) returns (result: DrainResult)
      requires spool.Valid()
      modifies wire, spool
      ensures spool.Valid()
      ensures
        var (w, drained, end) := AfterDrain(
          World(old(wire.server), old(spool.Contents()), {}), limit, sampleBatchSize, old(wire.script));
        && World(wire.server, spool.Contents(), {}) == w
        && result == DrainResult(drained, |spool.rows|, end)
    {
      hide PushBundle, Without, Ordered, OldestFirst, DrainItems;
      var items := spool.Pending(limit);
      ghost var total := DrainItems(World(wire.server, spool.Contents(), {}), items, sampleBatchSize, wire.script);
      assert items[0..] == items && items[|items|..] == [];
      var drained := 0;
      for i := 0 to |items|
        invariant spool.Valid() && drained == i
        invariant Ahead(wire.server, spool.Contents(), items[i..], sampleBatchSize, wire.script, drained, total)
      {
        AheadStep(wire.server, spool.Contents(), items, i, sampleBatchSize, wire.script, drained, total);
        hide Ahead;
        var push := Push(items[i].body);
        if push == Killed {
          return DrainResult(drained, |spool.rows|, DrainKilled);
        }
        if push == PushFailed {
          return DrainResult(drained, |spool.rows|, StoppedEarly);
        }
        var alive := wire.Tick();
        if !alive {
          return DrainResult(drained, |spool.rows|, DrainKilled);
        }
        spool.Remove(items[i].id);
        drained := drained + 1;
      }
      AheadOver(wire.server, spool.Contents(), sampleBatchSize, wire.script, drained, total);
      var remaining := spool.Count();
      result := DrainResult(drained, remaining, Drained);
    }
  }
}
