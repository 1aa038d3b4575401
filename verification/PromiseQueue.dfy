/**
 A queue made of promises: a map holds the newest promise of each key, a task awaits the one it found there, and
 leaves its own behind. Tasks are numbered in the order they arrive; every await is a step of its own, so the steps
 of different tasks interleave freely.
 */
module PromiseQueue {
  import opened Common

  type Key = string
  type Task = nat

  datatype Phase = Waiting | Inside | Settled

  /** `previous` is the task whose promise this one awaits; `cleaned` once its own map entry was seen to. */
  datatype Ticket = Ticket(key: Key, previous: Option<Task>, phase: Phase, cleaned: bool)

  datatype Queue = Queue(tickets: seq<Ticket>, newest: map<Key, Task>)

  const EMPTY := Queue([], map[])

  // ---------------------------------------------------------------------------------------------------------
  // Steps.

  /** Takes the promise found in the map and puts its own there, in one synchronous piece of code. */
  function Arrive(q: Queue, key: Key): Queue {
    var previous := if key in q.newest then Some(q.newest[key]) else None;
    Queue(q.tickets + [Ticket(key, previous, Waiting, false)], q.newest[key := |q.tickets|])
  }

  /** The promise a task leaves resolves once the task is done and the promise it waited for has resolved. */
  predicate Resolved(q: Queue, t: Task)
    decreases t
  {
    && t < |q.tickets| && q.tickets[t].phase == Settled
    && var p := q.tickets[t].previous;
       p.Some? ==> p.value < t && Resolved(q, p.value)
  }

  predicate CanEnter(q: Queue, t: Task) {
    && t < |q.tickets| && q.tickets[t].phase == Waiting
    && (q.tickets[t].previous.Some? ==> Resolved(q, q.tickets[t].previous.value))
  }

  function Enter(q: Queue, t: Task): Queue
    requires CanEnter(q, t)
  {
    q.(tickets := q.tickets[t := q.tickets[t].(phase := Inside)])
  }

  /** The operation returned or threw. */
  function Settle(q: Queue, t: Task): Queue
    requires t < |q.tickets| && q.tickets[t].phase == Inside
  {
    q.(tickets := q.tickets[t := q.tickets[t].(phase := Settled)])
  }

  /** Removes the map entry, unless a later task has put its own there. */
  function Clean(q: Queue, t: Task): Queue
    requires t < |q.tickets| && q.tickets[t].phase == Settled
  {
    var key := q.tickets[t].key;
    Queue(
      q.tickets[t := q.tickets[t].(cleaned := true)],
      if key in q.newest && q.newest[key] == t then q.newest - {key} else q.newest)
  }

  // ---------------------------------------------------------------------------------------------------------
  // Invariant.

  predicate SettledBefore(q: Queue, key: Key, n: nat)
    requires n <= |q.tickets|
  {
    forall i :: 0 <= i < n && q.tickets[i].key == key ==> q.tickets[i].phase == Settled
  }

  predicate NoneBetween(q: Queue, key: Key, from: nat, to: nat)
    requires to <= |q.tickets|
  {
    forall i :: from < i < to ==> q.tickets[i].key != key
  }

  /** A task waits for the last one before it on its key, or for none when all of those are done. */
  predicate Linked(q: Queue, t: Task)
    requires t < |q.tickets|
  {
    var ticket := q.tickets[t];
    && (ticket.cleaned ==> ticket.phase == Settled)
    && (ticket.phase != Waiting ==> SettledBefore(q, ticket.key, t))
    && match ticket.previous
       case None => SettledBefore(q, ticket.key, t)
       case Some(p) => p < t && q.tickets[p].key == ticket.key && NoneBetween(q, ticket.key, p, t)
  }

  predicate IsLast(q: Queue, t: Task)
    requires t < |q.tickets|
  {
    NoneBetween(q, q.tickets[t].key, t, |q.tickets|)
  }

  predicate Invariant(q: Queue) {
    && (forall t: nat :: t < |q.tickets| ==> Linked(q, t))
    && (forall key :: key in q.newest ==>
         q.newest[key] < |q.tickets| && q.tickets[q.newest[key]].key == key && IsLast(q, q.newest[key]))
    && (forall t: nat :: t < |q.tickets| && IsLast(q, t) ==>
         (q.tickets[t].cleaned <==> q.tickets[t].key !in q.newest))
  }

  lemma {:induction false} LastOf(q: Queue, key: Key, n: nat) returns (last: Option<Task>)
    requires n <= |q.tickets|
    ensures last.None? ==> forall i :: 0 <= i < n ==> q.tickets[i].key != key
    ensures last.Some? ==> last.value < n && q.tickets[last.value].key == key && NoneBetween(q, key, last.value, n)
  {
    if n == 0 {
      last := None;
    } else if q.tickets[n - 1].key == key {
      last := Some(n - 1);
    } else {
      last := LastOf(q, key, n - 1);
    }
  }

  /** When the last task of a key is done, so are all the others. */
  lemma LastSettledAllSettled(q: Queue, t: Task)
    requires Invariant(q) && t < |q.tickets| && IsLast(q, t) && q.tickets[t].phase == Settled
    ensures SettledBefore(q, q.tickets[t].key, |q.tickets|)
  {
    assert Linked(q, t);
  }

  lemma ArriveKeeps(q: Queue, key: Key)
    requires Invariant(q)
    ensures Invariant(Arrive(q, key))
  {
    var q' := Arrive(q, key);
    var n := |q.tickets|;
    forall t: nat | t < n
      ensures Linked(q', t)
    {
      assert Linked(q, t) && q'.tickets[t] == q.tickets[t];
    }
    if key !in q.newest {
      var last := LastOf(q, key, n);
      if last.Some? {
        assert IsLast(q, last.value);
        assert Linked(q, last.value);
        LastSettledAllSettled(q, last.value);
      }
    }
    assert Linked(q', n);
    forall t: nat | t < |q'.tickets| && IsLast(q', t)
      ensures q'.tickets[t].cleaned <==> q'.tickets[t].key !in q'.newest
    {
      if t < n {
        assert q'.tickets[n].key == key && q'.tickets[t].key != key;
        assert forall i :: 0 <= i < n ==> q'.tickets[i] == q.tickets[i];
        assert IsLast(q, t);
      }
    }
  }

  /** A change of one ticket's phase or mark that settles no less than before keeps every link. */
  lemma LinksKept(q: Queue, t: Task, ticket: Ticket, q': Queue)
    requires Invariant(q) && t < |q.tickets| && q'.tickets == q.tickets[t := ticket]
    requires ticket.key == q.tickets[t].key && ticket.previous == q.tickets[t].previous
    requires q.tickets[t].phase == Settled ==> ticket.phase == Settled
    requires ticket.phase != Waiting ==> SettledBefore(q, ticket.key, t)
    requires ticket.cleaned ==> ticket.phase == Settled
    ensures forall u: nat :: u < |q'.tickets| ==> Linked(q', u)
    ensures forall u: nat :: u < |q'.tickets| ==> (IsLast(q', u) <==> IsLast(q, u))
  {
    assert forall i :: 0 <= i < |q.tickets| ==> q'.tickets[i].key == q.tickets[i].key;
    forall u: nat | u < |q'.tickets|
      ensures Linked(q', u)
    {
      LinkKept(q, t, ticket, q', u);
    }
  }

  lemma LinkKept(q: Queue, t: Task, ticket: Ticket, q': Queue, u: Task)
    requires Invariant(q) && t < |q.tickets| && u < |q.tickets| && q'.tickets == q.tickets[t := ticket]
    requires ticket.key == q.tickets[t].key && ticket.previous == q.tickets[t].previous
    requires q.tickets[t].phase == Settled ==> ticket.phase == Settled
    requires ticket.phase != Waiting ==> SettledBefore(q, ticket.key, t)
    requires ticket.cleaned ==> ticket.phase == Settled
    ensures Linked(q', u)
  {
    assert Linked(q, u);
    var key := q.tickets[u].key;
    assert forall i :: 0 <= i < |q.tickets| ==> q'.tickets[i].key == q.tickets[i].key;
    assert SettledBefore(q, key, u) ==> SettledBefore(q', key, u);
    if u == t && ticket.phase != Waiting {
      assert SettledBefore(q', key, t);
    }
    var p := q.tickets[u].previous;
    if p.Some? {
      assert NoneBetween(q', key, p.value, u);
    }
  }

  /** Entering means everyone earlier on the key is done. */
  lemma EnterAfterAll(q: Queue, t: Task)
    requires Invariant(q) && CanEnter(q, t)
    ensures SettledBefore(q, q.tickets[t].key, t)
  {
    assert Linked(q, t);
    var p := q.tickets[t].previous;
    if p.Some? {
      assert Linked(q, p.value);
    }
  }

  lemma EnterKeeps(q: Queue, t: Task)
    requires Invariant(q) && CanEnter(q, t)
    ensures Invariant(Enter(q, t))
  {
    EnterAfterAll(q, t);
    assert Linked(q, t);
    LinksKept(q, t, q.tickets[t].(phase := Inside), Enter(q, t));
  }

  lemma SettleKeeps(q: Queue, t: Task)
    requires Invariant(q) && t < |q.tickets| && q.tickets[t].phase == Inside
    ensures Invariant(Settle(q, t))
  {
    assert Linked(q, t);
    LinksKept(q, t, q.tickets[t].(phase := Settled), Settle(q, t));
  }

  lemma CleanKeeps(q: Queue, t: Task)
    requires Invariant(q) && t < |q.tickets| && q.tickets[t].phase == Settled
    ensures Invariant(Clean(q, t))
  {
    assert Linked(q, t);
    var q' := Clean(q, t);
    LinksKept(q, t, q.tickets[t].(cleaned := true), q');
    forall u: nat | u < |q'.tickets| && IsLast(q', u)
      ensures q'.tickets[u].cleaned <==> q'.tickets[u].key !in q'.newest
    {
      assert IsLast(q, u);
      if u != t && q.tickets[u].key == q.tickets[t].key {
        assert q.tickets[u].key in q.newest ==> q.newest[q.tickets[u].key] == u;
      }
    }
  }

  // ---------------------------------------------------------------------------------------------------------
  // What the invariant gives.

  /** At most one task per key is inside, and whoever is past waiting came before whoever still waits. */
  lemma ExclusiveInOrder(q: Queue, a: Task, b: Task)
    requires Invariant(q) && a < b < |q.tickets| && q.tickets[a].key == q.tickets[b].key
    ensures q.tickets[b].phase != Waiting ==> q.tickets[a].phase == Settled
    ensures !(q.tickets[a].phase == Inside && q.tickets[b].phase == Inside)
  {
    assert Linked(q, b);
  }

  /** A finished task's promise is resolved: nothing it waited for is still open. */
  lemma {:induction false} SettledResolves(q: Queue, t: Task)
    requires Invariant(q) && t < |q.tickets| && q.tickets[t].phase == Settled
    ensures Resolved(q, t)
    decreases t
  {
    assert Linked(q, t);
    if q.tickets[t].previous.Some? {
      SettledResolves(q, q.tickets[t].previous.value);
    }
  }

  /** No task is left waiting for ever: the first one not done is inside, or may enter. */
  lemma FirstCanProceed(q: Queue, t: Task)
    requires Invariant(q) && t < |q.tickets| && q.tickets[t].phase != Settled
    requires SettledBefore(q, q.tickets[t].key, t)
    ensures q.tickets[t].phase == Inside || CanEnter(q, t)
  {
    assert Linked(q, t);
    if q.tickets[t].previous.Some? {
      SettledResolves(q, q.tickets[t].previous.value);
    }
  }
}
