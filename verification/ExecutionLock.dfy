/** `withExecutionBaseLock`: one operation at a time per directory, over the module's map of promises. */
module ExecutionLock {
  import opened Common
  import opened PromiseQueue

  datatype Step = Arriving(directory: Key) | Entering(t: Task) | Leaving(t: Task)

  predicate Enabled(q: Queue, s: Step) {
    match s
    case Arriving(_) => true
    case Entering(t) => CanEnter(q, t)
    case Leaving(t) => t < |q.tickets| && q.tickets[t].phase == Inside
  }

  /** Leaving is the `finally` block: release and clean the map in one piece, whether the operation threw or not. */
  function Next(q: Queue, s: Step): Queue
    requires Enabled(q, s)
  {
    match s
    case Arriving(directory) => Arrive(q, directory)
    case Entering(t) => Enter(q, t)
    case Leaving(t) => Clean(Settle(q, t), t)
  }

  predicate Interleaving(q: Queue, steps: seq<Step>)
    decreases |steps|
  {
    steps == [] || (Enabled(q, steps[0]) && Interleaving(Next(q, steps[0]), steps[1..]))
  }

  function After(q: Queue, steps: seq<Step>): Queue
    requires Interleaving(q, steps)
    decreases |steps|
  {
    if steps == [] then q else After(Next(q, steps[0]), steps[1..])
  }

  /** Done and cleaned are one event here. */
  predicate LockInvariant(q: Queue) {
    Invariant(q) && forall t: nat :: t < |q.tickets| ==> (q.tickets[t].cleaned <==> q.tickets[t].phase == Settled)
  }

  lemma NextKeeps(q: Queue, s: Step)
    requires LockInvariant(q) && Enabled(q, s)
    ensures LockInvariant(Next(q, s))
  {
    match s
    case Arriving(directory) => ArriveKeeps(q, directory);
    case Entering(t) => EnterKeeps(q, t);
    case Leaving(t) =>
      SettleKeeps(q, t);
      CleanKeeps(Settle(q, t), t);
  }

  lemma {:induction false} AfterKeeps(q: Queue, steps: seq<Step>)
    requires LockInvariant(q) && Interleaving(q, steps)
    ensures LockInvariant(After(q, steps))
    decreases |steps|
  {
    if steps != [] {
      NextKeeps(q, steps[0]);
      AfterKeeps(Next(q, steps[0]), steps[1..]);
    }
  }

  /**
   In every interleaving two operations on one directory are never inside together, and they enter as they arrived.
   */
  lemma OneInsideInArrivalOrder(steps: seq<Step>, a: Task, b: Task)
    requires Interleaving(EMPTY, steps)
    requires
      var q := After(EMPTY, steps);
      a < b < |q.tickets| && q.tickets[a].key == q.tickets[b].key
    ensures
      var q := After(EMPTY, steps);
      && !(q.tickets[a].phase == Inside && q.tickets[b].phase == Inside)
      && (q.tickets[b].phase != Waiting ==> q.tickets[a].phase == Settled)
  {
    AfterKeeps(EMPTY, steps);
    ExclusiveInOrder(After(EMPTY, steps), a, b);
  }

  /** In every interleaving the map holds a directory exactly while some operation on it waits or is inside. */
  lemma EntryIffInUse(steps: seq<Step>, directory: Key)
    requires Interleaving(EMPTY, steps)
    ensures
      var q := After(EMPTY, steps);
      directory in q.newest <==>
        exists t: nat :: t < |q.tickets| && q.tickets[t].key == directory && q.tickets[t].phase != Settled
  {
    AfterKeeps(EMPTY, steps);
    var q := After(EMPTY, steps);
    var last := LastOf(q, directory, |q.tickets|);
    if last.Some? {
      assert IsLast(q, last.value);
      if q.tickets[last.value].phase == Settled {
        LastSettledAllSettled(q, last.value);
      }
    }
  }

  /** While anything waits on a directory, some operation on it is inside or may enter at once. */
  lemma NeverStuck(steps: seq<Step>, t: Task)
    requires Interleaving(EMPTY, steps)
    requires t < |After(EMPTY, steps).tickets| && After(EMPTY, steps).tickets[t].phase == Waiting
    ensures
      var q := After(EMPTY, steps);
      exists u: nat ::
        u <= t && q.tickets[u].key == q.tickets[t].key && (q.tickets[u].phase == Inside || CanEnter(q, u))
  {
    AfterKeeps(EMPTY, steps);
    var q := After(EMPTY, steps);
    var u := FirstOpen(q, q.tickets[t].key, t);
    FirstCanProceed(q, u);
  }

  lemma {:induction false} FirstOpen(q: Queue, key: Key, t: Task) returns (u: Task)
    requires t < |q.tickets| && q.tickets[t].key == key && q.tickets[t].phase != Settled
    ensures u <= t && q.tickets[u].key == key && q.tickets[u].phase != Settled && SettledBefore(q, key, u)
    decreases t
  {
    if SettledBefore(q, key, t) {
      u := t;
    } else {
      var i :| 0 <= i < t && q.tickets[i].key == key && q.tickets[i].phase != Settled;
      u := FirstOpen(q, key, i);
    }
  }

  /** The module state, with the synchronous pieces of the function between its awaits. */
  class ExecutionBaseLocks {
    var tickets: seq<Ticket>
    var locks: map<Key, Task>

    function View(): Queue
      reads this
    {
      Queue(tickets, locks)
    }

    constructor ()
      ensures View() == EMPTY
    {
      tickets, locks := [], map[];
    }

    /** Up to `await previous`. */
    method Register(directory: Key) returns (t: Task)
      modifies this
      ensures View() == Next(old(View()), Arriving(directory)) && t == |old(tickets)|
    {
      var previous := if directory in locks then Some(locks[directory]) else None;
      t := |tickets|;
      tickets := tickets + [Ticket(directory, previous, Waiting, false)];
      locks := locks[directory := t];
    }

    /** From `await previous` into the operation. */
    method StartOperation(t: Task)
      requires Enabled(View(), Entering(t))
      modifies this
      ensures View() == Next(old(View()), Entering(t))
    {
      tickets := tickets[t := tickets[t].(phase := Inside)];
    }

    /** The `finally` block. */
    method Release(t: Task)
      requires Enabled(View(), Leaving(t))
      modifies this
      ensures View() == Next(old(View()), Leaving(t))
    {
      var directory := tickets[t].key;
      tickets := tickets[t := tickets[t].(phase := Settled, cleaned := true)];
      if directory in locks && locks[directory] == t {
        locks := locks - {directory};
      }
    }
  }
}
