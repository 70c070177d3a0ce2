/** The durable first-in first-out buffer (spool.py). */
module SpoolQueue {
  import opened Basics

  datatype Item<T> = Item(id: nat, body: T)

  /** The table, plus the highest id ever handed out: AUTOINCREMENT remembers it across deletes
      and restarts. */
  datatype Table<T> = Table(rows: seq<Item<T>>, lastId: nat)

  ghost predicate Ordered<T>(t: Table<T>) {
    && (forall i, j :: 0 <= i < j < |t.rows| ==> t.rows[i].id < t.rows[j].id)
    && (forall i :: 0 <= i < |t.rows| ==> 0 < t.rows[i].id <= t.lastId)
  }

  function Enqueued<T>(t: Table<T>, body: T): Table<T> {
    Table(t.rows + [Item(t.lastId + 1, body)], t.lastId + 1)
  }

  function Without<T>(rows: seq<Item<T>>, id: nat): (r: seq<Item<T>>)
    ensures |r| <= |rows|
  {
    if rows == [] then []
    else if rows[0].id == id then Without(rows[1..], id)
    else [rows[0]] + Without(rows[1..], id)
  }

  function Removed<T>(t: Table<T>, id: nat): Table<T> {
    t.(rows := Without(t.rows, id))
  }

  /** How many rows a query with this LIMIT returns; a negative limit means none. */
  function LimitOf(count: nat, limit: Option<int>): (n: nat)
    ensures n <= count
    ensures limit.None? || limit.value < 0 || limit.value > count ==> n == count
    ensures limit.Some? && 0 <= limit.value <= count ==> n == limit.value
  {
    if limit.None? || limit.value < 0 then count else Min(limit.value, count)
  }

  /** In id order, and with nothing older left out. */
  ghost predicate OldestFirst<T>(items: seq<Item<T>>, rows: seq<Item<T>>) {
    && (forall i, j :: 0 <= i < j < |items| ==> items[i].id < items[j].id)
    && (forall i, k :: 0 <= i < |items| && 0 <= k < |rows| && rows[k] !in items ==> items[i].id < rows[k].id)
  }

  lemma {:induction false} PrefixIsOldest<T>(t: Table<T>, n: nat)
    requires Ordered(t) && n <= |t.rows|
    ensures OldestFirst(t.rows[..n], t.rows)
  {
    var items := t.rows[..n];
    assert forall k :: 0 <= k < n ==> items[k] == t.rows[k] && t.rows[k] in items;
  }

  lemma {:induction false} WithoutAbsent<T>(rows: seq<Item<T>>, id: nat)
    requires forall i :: 0 <= i < |rows| ==> rows[i].id != id
    ensures Without(rows, id) == rows
  {
    if rows != [] {
      WithoutAbsent(rows[1..], id);
      assert rows == [rows[0]] + rows[1..];
    }
  }

  /** Removing the head's id removes exactly the head. */
  lemma {:induction false} RemoveHead<T>(t: Table<T>)
    requires Ordered(t) && t.rows != []
    ensures Removed(t, t.rows[0].id) == t.(rows := t.rows[1..])
    ensures Ordered(Removed(t, t.rows[0].id))
  {
    WithoutAbsent(t.rows[1..], t.rows[0].id);
  }

  /** Removal keeps exactly the rows with another id. */
  lemma {:induction false} WithoutMembers<T>(rows: seq<Item<T>>, id: nat, item: Item<T>)
    ensures item in Without(rows, id) <==> item in rows && item.id != id
  {
    if rows != [] {
      WithoutMembers(rows[1..], id, item);
      assert rows == [rows[0]] + rows[1..];
    }
  }

  lemma {:induction false} WithoutKeepsOrder<T>(rows: seq<Item<T>>, id: nat, lastId: nat)
    requires Ordered(Table(rows, lastId))
    ensures Ordered(Table(Without(rows, id), lastId))
  {
    if rows != [] {
      var rest, kept := rows[1..], Without(rows[1..], id);
      assert Ordered(Table(rest, lastId));
      WithoutKeepsOrder(rest, id, lastId);
      forall i | 0 <= i < |kept| ensures rows[0].id < kept[i].id {
        WithoutMembers(rest, id, kept[i]);
        assert kept[i] in rest;
      }
    }
  }

  // ------------------------------------------------------------ whole histories

  datatype Command<T> = Enqueue(body: T) | Remove(id: nat) | Clear | Restart

  /** The table after a history, and the bodies with the ids they were given, in order. */
  function History<T>(t: Table<T>, commands: seq<Command<T>>): (r: (Table<T>, seq<Item<T>>))
  {
    if commands == [] then (t, [])
    else
      var (before, issued) := History(t, commands[..|commands| - 1]);
      match commands[|commands| - 1]
      case Enqueue(body) => (Enqueued(before, body), issued + [Item(before.lastId + 1, body)])
      case Remove(id) => (Removed(before, id), issued)
      case Clear => (before.(rows := []), issued)
      case Restart => (before, issued)
  }

  /** Ids are never reused: over any history, restarts included, the ids handed out strictly
      increase, and the queue holds some of what was handed out, in the order it was enqueued. */
  lemma {:induction false} IdsNeverReused<T>(commands: seq<Command<T>>)
    ensures
      var (t, issued) := History(Table([], 0), commands);
      && Ordered(t)
      && Ordered(Table(issued, t.lastId))
      && forall i :: 0 <= i < |t.rows| ==> t.rows[i] in issued
  {
    if commands != [] {
      IdsNeverReused(commands[..|commands| - 1]);
      var (before, issued) := History<T>(Table([], 0), commands[..|commands| - 1]);
      match commands[|commands| - 1]
      case Remove(id) =>
        WithoutKeepsOrder(before.rows, id, before.lastId);
        var rows := Without(before.rows, id);
        forall i | 0 <= i < |rows| ensures rows[i] in issued {
          WithoutMembers(before.rows, id, rows[i]);
        }
      case _ =>
    }
  }

  /** The item that the k-th command of a history issues. */
  function IssuedAt<T>(commands: seq<Command<T>>, k: nat): Item<T>
    requires k < |commands| && commands[k].Enqueue?
  {
    Item(History(Table([], 0), commands[..k]).0.lastId + 1, commands[k].body)
  }

  /** The k-th command issues an item that no later one removes or clears. */
  predicate Unremoved<T>(commands: seq<Command<T>>, k: nat)
    requires k < |commands|
  {
    && commands[k].Enqueue?
    && forall j :: k < j < |commands| ==>
         !commands[j].Clear? && (commands[j].Remove? ==> commands[j].id != IssuedAt(commands, k).id)
  }

  /** Nothing leaves the queue by itself: over any history, restarts included, the queue holds
      exactly the items issued and not since removed or cleared. */
  lemma {:induction false} QueuedUntilRemoved<T>(commands: seq<Command<T>>, item: Item<T>)
    ensures item in History(Table([], 0), commands).0.rows <==>
      exists k :: 0 <= k < |commands| && Unremoved(commands, k) && IssuedAt(commands, k) == item
  {
    if commands != [] {
      var n := |commands| - 1;
      var init := commands[..n];
      var before := History<T>(Table([], 0), init).0;
      QueuedUntilRemoved(init, item);
      forall k | 0 <= k < n
        ensures Unremoved(commands, k) <==> Unremoved(init, k) && KeptBy(commands[n], IssuedIf(init, k))
        ensures commands[k].Enqueue? ==> IssuedAt(commands, k) == IssuedAt(init, k)
      {
        UnremovedSplits(commands, k);
      }
      if commands[n].Remove? {
        WithoutMembers(before.rows, commands[n].id, item);
      }
      if commands[n].Enqueue? {
        assert Unremoved(commands, n);
      }
      hide Unremoved, IssuedAt;
      if item in before.rows && KeptBy(commands[n], Some(item)) {
        var k :| 0 <= k < |init| && Unremoved(init, k) && IssuedAt(init, k) == item;
        assert Unremoved(commands, k) && IssuedAt(commands, k) == item;
      }
    }
  }

  function IssuedIf<T>(commands: seq<Command<T>>, k: nat): Option<Item<T>>
    requires k < |commands|
  {
    if commands[k].Enqueue? then Some(IssuedAt(commands, k)) else None
  }

  predicate KeptBy<T>(command: Command<T>, item: Option<Item<T>>) {
    !command.Clear? && (item.Some? && command.Remove? ==> command.id != item.value.id)
  }

  lemma {:induction false} UnremovedSplits<T>(commands: seq<Command<T>>, k: nat)
    requires k + 1 < |commands|
    ensures
      var n := |commands| - 1;
      var init := commands[..n];
      && (commands[k].Enqueue? ==> IssuedAt(commands, k) == IssuedAt(init, k))
      && (Unremoved(commands, k) <==> Unremoved(init, k) && KeptBy(commands[n], IssuedIf(init, k)))
  {
    assert commands[..|commands| - 1][..k] == commands[..k];
  }

  // ------------------------------------------------------------ the spool object

  class Spool<T> {
    var rows: seq<Item<T>>
    var lastId: nat

    function Contents(): Table<T>
      reads this
    {
      Table(rows, lastId)
    }

    ghost predicate Valid()
      reads this
    {
      Ordered(Contents())
    }

    constructor ()
      ensures Valid() && Contents() == Table([], 0)
    {
      rows, lastId := [], 0;
    }

    method Enqueue(body: T) returns (id: nat)
      requires Valid()
      modifies this
      ensures Valid() && Contents() == Enqueued(old(Contents()), body)
      ensures id == lastId && forall i :: 0 <= i < |old(rows)| ==> old(rows)[i].id < id
    {
      lastId := lastId + 1;
      id := lastId;
      rows := rows + [Item(id, body)];
    }

    method Remove(id: nat)
      requires Valid()
      modifies this
      ensures Valid() && Contents() == Removed(old(Contents()), id)
    {
      WithoutKeepsOrder(rows, id, lastId);
      rows := Without(rows, id);
    }

    method Clear()
      modifies this
      ensures Valid() && Contents() == Table([], old(lastId))
    {
      rows := [];
    }

    /** The oldest items, oldest first: whatever is left out is newer than all of them. */
    method Pending(limit: Option<int>) returns (items: seq<Item<T>>)
      requires Valid()
      ensures items == rows[..LimitOf(|rows|, limit)] && OldestFirst(items, rows)
    {
      items := rows[..LimitOf(|rows|, limit)];
      PrefixIsOldest(Contents(), |items|);
    }

    method Count() returns (n: nat)
      ensures n == |rows|
    {
      n := |rows|;
    }
  }
}
