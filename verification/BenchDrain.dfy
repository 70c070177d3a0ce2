/** Draining the bench-submission spool (bench/submission.py). */
module BenchDrain {
  import opened Basics
  import opened SpoolQueue
  import opened Reporting

  /** A queued record: a bundle object, or anything else. */
  datatype Record = Bundle(json: string) | Malformed

  /** What the server has accepted so far, and the queue. */
  datatype Bench = Bench(accepted: seq<string>, spool: Table<Record>)

  /** Malformed records are dropped without a request; the first rejected bundle ends the drain. */
  function DrainRecords(b: Bench, items: seq<Item<Record>>, replies: seq<Reply>): (r: (Bench, nat, DrainEnd))
    decreases |items|
  {
    if items == [] then (b, 0, Drained)
    else if items[0].body.Malformed? then
      DrainRecords(b.(spool := Removed(b.spool, items[0].id)), items[1..], replies)
    else if replies == [] then (b, 0, DrainKilled)
    else
      var json := items[0].body.json;
      match replies[0]
      case Refused => (b, 0, StoppedEarly)
      case LostReply => (b.(accepted := b.accepted + [json]), 0, StoppedEarly)
      case Delivered =>
        var (b', drained, end) := DrainRecords(
          Bench(b.accepted + [json], Removed(b.spool, items[0].id)), items[1..], replies[1..]);
        (b', drained + 1, end)
  }

  function Bundles(items: seq<Item<Record>>): (r: seq<string>) {
    if items == [] then []
    else (if items[0].body.Bundle? then [items[0].body.json] else []) + Bundles(items[1..])
  }

  /** The queue lost its first `gone` records.  What was accepted is their bundles in order, plus
      at most the new head when its reply was lost; malformed records are dropped, and only a
      well-formed bundle can be left at the head of an early stop. */
  ghost predicate Accounted(
    b: Bench, items: seq<Item<Record>>, b': Bench, drained: nat, end: DrainEnd, gone: nat)
  {
    && gone <= |items| <= |b.spool.rows|
    && b'.spool == b.spool.(rows := b.spool.rows[gone..])
    && drained == |Bundles(items[..gone])|
    && (end == Drained <==> gone == |items|)
    && (end == StoppedEarly ==> gone < |items| && items[gone].body.Bundle?)
    && (|| b'.accepted == b.accepted + Bundles(items[..gone])
        || (&& end == StoppedEarly
            && b'.accepted == b.accepted + Bundles(items[..gone]) + [items[gone].body.json]))
  }

  lemma {:induction false} HeadAccounted(
      b: Bench, items: seq<Item<Record>>, b': Bench, drained: nat, end: DrainEnd, gone: nat)
    requires items != [] && items <= b.spool.rows
    requires
      var head := Bundles(items[..1]);
      Accounted(Bench(b.accepted + head, b.spool.(rows := b.spool.rows[1..])), items[1..], b', drained, end, gone)
    ensures Accounted(b, items, b', drained + |Bundles(items[..1])|, end, gone + 1)
  {
    var rest := items[1..];
    assert items[..gone + 1][1..] == rest[..gone] && items[..1][1..] == [];
    assert b.spool.rows[1..][gone..] == b.spool.rows[gone + 1..];
    assert b.accepted + Bundles(items[..1]) + Bundles(rest[..gone]) == b.accepted + Bundles(items[..gone + 1]);
  }

  function HeadDone(b: Bench, items: seq<Item<Record>>): Bench
    requires items != []
  {
    Bench(b.accepted + Bundles(items[..1]), Removed(b.spool, items[0].id))
  }

  predicate HeadPasses(items: seq<Item<Record>>, replies: seq<Reply>)
    requires items != []
  {
    items[0].body.Malformed? || (replies != [] && replies[0] == Delivered)
  }

  lemma {:induction false} DrainStep(b: Bench, items: seq<Item<Record>>, replies: seq<Reply>)
    requires items != [] && HeadPasses(items, replies)
    ensures
      var rest := if items[0].body.Malformed? then replies else replies[1..];
      var (b', drained, end) := DrainRecords(HeadDone(b, items), items[1..], rest);
      DrainRecords(b, items, replies) == (b', drained + |Bundles(items[..1])|, end)
  {
    var first := items[..1];
    assert first[0] == items[0] && first[1..] == [];
    assert Bundles(first) == if items[0].body.Bundle? then [items[0].body.json] else [];
    assert b.accepted + [] == b.accepted;
  }

  /** Every drain is accounted for. */
  lemma {:induction false} DrainAccounting(b: Bench, items: seq<Item<Record>>, replies: seq<Reply>)
    requires Ordered(b.spool) && items <= b.spool.rows
    ensures
      var (b', drained, end) := DrainRecords(b, items, replies);
      && |b'.spool.rows| <= |b.spool.rows|
      && Accounted(b, items, b', drained, end, |b.spool.rows| - |b'.spool.rows|)
    decreases |items|
  {
    if items != [] && HeadPasses(items, replies) {
      assert items[0] == b.spool.rows[0];
      RemoveHead(b.spool);
      hide Accounted, Bundles, Without, DrainRecords;
      var rest := if items[0].body.Malformed? then replies else replies[1..];
      DrainStep(b, items, replies);
      DrainAccounting(HeadDone(b, items), items[1..], rest);
      var (b', drained, end) := DrainRecords(HeadDone(b, items), items[1..], rest);
      HeadAccounted(b, items, b', drained, end, |b.spool.rows| - 1 - |b'.spool.rows|);
    } else {
      assert items[..0] == [] && b.spool.rows[0..] == b.spool.rows;
      assert Bundles([]) == [] && b.accepted + [] == b.accepted;
      hide Bundles, Without;
    }
  }

  /** How many replies come before the first that is not a delivery. */
  function Leading(replies: seq<Reply>): nat {
    if replies == [] || replies[0] != Delivered then 0 else 1 + Leading(replies[1..])
  }

  /** Exactly how far a drain gets: one bundle per delivery until a reply is anything else.  It is
      complete if and only if the deliveries suffice, and otherwise stops at that reply, or dies with
      the process when there are no more. */
  lemma {:induction false} DrainGoesAsFar(b: Bench, items: seq<Item<Record>>, replies: seq<Reply>)
    ensures
      var (_, drained, end) := DrainRecords(b, items, replies);
      var bundles, leading := |Bundles(items)|, Leading(replies);
      && drained == Min(bundles, leading)
      && end == if bundles <= leading then Drained else if leading == |replies| then DrainKilled else StoppedEarly
    decreases |items|
  {
    if items != [] {
      if items[0].body.Malformed? {
        DrainGoesAsFar(b.(spool := Removed(b.spool, items[0].id)), items[1..], replies);
      } else if replies != [] && replies[0] == Delivered {
        hide Removed;
        DrainGoesAsFar(
          Bench(b.accepted + [items[0].body.json], Removed(b.spool, items[0].id)), items[1..], replies[1..]);
      }
    }
  }

  /** A drain under way: what is still ahead of it leads to `total`, `drained` bundles in. */
  ghost predicate Ahead(
    accepted: seq<string>, spool: Table<Record>, items: seq<Item<Record>>, replies: seq<Reply>,
    drained: nat, total: (Bench, nat, DrainEnd))
  {
    var (b, more, end) := DrainRecords(Bench(accepted, spool), items, replies);
    b == total.0 && drained + more == total.1 && end == total.2
  }

  lemma {:induction false} AheadStep(
      accepted: seq<string>, spool: Table<Record>, items: seq<Item<Record>>, i: nat, replies: seq<Reply>,
      drained: nat, total: (Bench, nat, DrainEnd))
    requires i < |items| && Ahead(accepted, spool, items[i..], replies, drained, total)
    ensures
      var rest := items[i + 1..];
      match items[i].body
      case Malformed => Ahead(accepted, Removed(spool, items[i].id), rest, replies, drained, total)
      case Bundle(json) =>
        if replies == [] then total == (Bench(accepted, spool), drained, DrainKilled)
        else
          match replies[0]
          case Refused => total == (Bench(accepted, spool), drained, StoppedEarly)
          case LostReply => total == (Bench(accepted + [json], spool), drained, StoppedEarly)
          case Delivered =>
            Ahead(accepted + [json], Removed(spool, items[i].id), rest, replies[1..], drained + 1, total)
  {
    hide Without;
    assert items[i..][1..] == items[i + 1..] && items[i..][0] == items[i];
  }

  lemma {:induction false} AheadOver(
      accepted: seq<string>, spool: Table<Record>, replies: seq<Reply>, drained: nat, total: (Bench, nat, DrainEnd))
    requires Ahead(accepted, spool, [], replies, drained, total)
    ensures total == (Bench(accepted, spool), drained, Drained)
  {
  }

  /** The method: replies come from the server one request at a time. */
  method DrainBenchSpool(spool: Spool<Record>, limit: Option<int>, accepted: seq<string>, replies: seq<Reply>)
    returns (drained: nat, remaining: nat, end: DrainEnd, accepted': seq<string>)
    requires spool.Valid()
    modifies spool
    ensures spool.Valid() && remaining == |spool.rows|
    ensures (Bench(accepted', spool.Contents()), drained, end) == DrainRecords(
      Bench(accepted, old(spool.Contents())), old(spool.rows)[..LimitOf(|old(spool.rows)|, limit)], replies)
  {
    hide OldestFirst, Without, Ordered, DrainRecords;
    var items := spool.Pending(limit);
    var script := replies;
    drained, accepted' := 0, accepted;
    ghost var total := DrainRecords(Bench(accepted, spool.Contents()), items, replies);
    assert items[0..] == items && items[|items|..] == [];
    for i := 0 to |items|
      invariant spool.Valid()
      invariant Ahead(accepted', spool.Contents(), items[i..], script, drained, total)
    {
      AheadStep(accepted', spool.Contents(), items, i, script, drained, total);
      hide Ahead;
      match items[i].body {
        case Malformed =>
          spool.Remove(items[i].id);
        case Bundle(json) =>
          if script == [] {
            return drained, |spool.rows|, DrainKilled, accepted';
          }
          var reply := script[0];
          script := script[1..];
          if reply != Refused {
            accepted' := accepted' + [json];
          }
          if reply != Delivered {
            return drained, |spool.rows|, StoppedEarly, accepted';
          }
          spool.Remove(items[i].id);
          drained := drained + 1;
      }
    }
    AheadOver(accepted', spool.Contents(), script, drained, total);
    remaining := spool.Count();
    end := Drained;
  }
}
