/**
 The durable training protocol: a checkpoint row fences each corpus item, the learned rows and the terminal
 checkpoint are written in one transaction, and a worker may crash or lose the acknowledgement of its commit at any
 point. Storage reads and writes are separate steps; only the transaction is atomic.
 */
module Training {
  import opened Common

  type Id = string
  type Report = string

  /** One corpus item to train. `binding` is the digest of every semantic input. */
  datatype Input = Input(id: Id, root: string, item: string, binding: string)

  /** A checkpoint row. A complete row carries the report of the commit that completed it. */
  datatype Row = Row(root: string, item: string, complete: bool, binding: string, report: Option<Report>)

  datatype Commit = Commit(id: Id, binding: string, report: Report)

  /** Durable storage: checkpoint rows, and the learned batches in commit order. */
  datatype Store = Store(rows: map<Id, Row>, learned: seq<Commit>)

  function RunningRow(input: Input): Row {
    Row(input.root, input.item, false, input.binding, None)
  }

  function CompleteRow(input: Input, report: Report): Row {
    Row(input.root, input.item, true, input.binding, Some(report))
  }

  datatype Reading = Conflict | Replay(report: Report) | Proceed

  /** What `prepareCorpusCheckpoint` decides from the row it read. */
  function Inspect(row: Option<Row>, input: Input): Reading {
    if row.None? then Proceed
    else if row.value.root != input.root || row.value.item != input.item then Conflict
    else if row.value.binding != input.binding then Conflict
    else if !row.value.complete then Proceed
    else if row.value.report.None? then Conflict
    else Replay(row.value.report.value)
  }

  function Lookup(store: Store, id: Id): Option<Row> {
    if id in store.rows then Some(store.rows[id]) else None
  }

  function PutRunning(store: Store, input: Input): Store {
    store.(rows := store.rows[input.id := RunningRow(input)])
  }

  /** The transaction: learned rows and the terminal checkpoint together. */
  function Transact(store: Store, input: Input, report: Report): Store {
    Store(store.rows[input.id := CompleteRow(input, report)], store.learned + [Commit(input.id, input.binding, report)])
  }

  // ---------------------------------------------------------------------------------------------------------
  // Workers.

  /** `token` is the prepared batch, by the report its commit will give; without one a call has yet to prepare. */
  datatype Phase =
    | Idle
    | Checking(input: Input, token: Option<Report>)
    | Marking(input: Input, token: Option<Report>)
    | Preparing(input: Input)
    | Committing(input: Input, report: Report)
    | Returned(input: Input, token: Option<Report>, result: Report)
    | Failed(input: Input, token: Option<Report>)
    | Refused(input: Input)

  datatype CommitFate = Abort | Acknowledged | LostAcknowledgement

  datatype Action =
    | Begin(input: Input)
    | Get
    | Put
    | Throw
    | Prepare(report: Option<Report>)
    | Transaction(fate: CommitFate)
    | Reconcile
    | Retry
    | Crash

  type Worker = nat

  datatype State = State(store: Store, workers: map<Worker, Phase>)

  function PhaseOf(s: State, w: Worker): Phase {
    if w in s.workers then s.workers[w] else Idle
  }

  /** A call on this item has passed a check and not yet made the put that follows it. */
  predicate InMarking(p: Phase, id: Id) {
    p.Marking? && p.input.id == id
  }

  /** A call on this item is about to write: behind a check, or behind its second put. */
  predicate AboutToWrite(p: Phase, id: Id) {
    (p.Marking? || p.Committing?) && p.input.id == id
  }

  predicate CanAct(s: State, w: Worker, a: Action) {
    var p := PhaseOf(s, w);
    match a
    case Begin(_) => p.Idle? || p.Returned? || p.Failed? || p.Refused?
    case Get => p.Checking?
    case Put => p.Marking?
    case Throw => p.Checking? || p.Marking?
    case Prepare(_) => p.Preparing?
    case Transaction(_) => p.Committing?
    case Reconcile => p.Failed?
    case Retry => (p.Failed? || p.Returned?) && p.token.Some?
    case Crash => true
  }

  function Act(s: State, w: Worker, a: Action): State
    requires CanAct(s, w, a)
  {
    var p := PhaseOf(s, w);
    match a
    case Begin(input) => Go(s, w, Checking(input, None))
    case Get =>
      (match Inspect(Lookup(s.store, p.input.id), p.input)
       case Conflict => Go(s, w, Refused(p.input))
       case Replay(report) => Go(s, w, Returned(p.input, p.token, report))
       case Proceed => Go(s, w, Marking(p.input, p.token)))
    case Put =>
      Go(s.(store := PutRunning(s.store, p.input)), w,
         if p.token.None? then Preparing(p.input) else Committing(p.input, p.token.value))
    case Throw => Go(s, w, Failed(p.input, p.token))
    case Prepare(report) => Go(s, w, if report.None? then Failed(p.input, None) else Checking(p.input, report))
    case Transaction(fate) =>
      (match fate
       case Abort => Go(s, w, Failed(p.input, Some(p.report)))
       case Acknowledged =>
         Go(s.(store := Transact(s.store, p.input, p.report)), w, Returned(p.input, Some(p.report), p.report))
       case LostAcknowledgement =>
         Go(s.(store := Transact(s.store, p.input, p.report)), w, Failed(p.input, Some(p.report))))
    case Reconcile =>
      var row := Lookup(s.store, p.input.id);
      if row.None? || !row.value.complete then s
      else if row.value.binding != p.input.binding || row.value.report.None? then Go(s, w, Refused(p.input))
      else Go(s, w, Returned(p.input, p.token, row.value.report.value))
    case Retry => Go(s, w, Checking(p.input, p.token))
    case Crash => Go(s, w, Idle)
  }

  function Go(s: State, w: Worker, p: Phase): State {
    s.(workers := s.workers[w := p])
  }

  /** No call commits an item while another one is about to write it. */
  predicate CommitAlone(s: State, w: Worker, a: Action)
    requires CanAct(s, w, a)
  {
    a.Transaction? && a.fate != Abort ==>
      forall v :: v in s.workers && v != w ==> !AboutToWrite(s.workers[v], PhaseOf(s, w).input.id)
  }

  /** Moreover no check falls between another call's check and its put. Calls may still prepare one item together. */
  predicate Exclusive(s: State, w: Worker, a: Action)
    requires CanAct(s, w, a)
  {
    && CommitAlone(s, w, a)
    && (a.Get? ==>
          forall v :: v in s.workers && v != w ==> !InMarking(s.workers[v], PhaseOf(s, w).input.id))
  }

  /** What keeps the calls on one item apart. */
  datatype Rule = Free | CommitsAlone | CallsApart

  predicate Follows(s: State, w: Worker, a: Action, rule: Rule)
    requires CanAct(s, w, a)
  {
    match rule
    case Free => true
    case CommitsAlone => CommitAlone(s, w, a)
    case CallsApart => Exclusive(s, w, a)
  }

  /** The steps can be taken one after the other, each by the rule. */
  predicate RunOk(s: State, steps: seq<(Worker, Action)>, rule: Rule)
    decreases |steps|
  {
    steps == [] ||
    (CanAct(s, steps[0].0, steps[0].1) && Follows(s, steps[0].0, steps[0].1, rule)
     && RunOk(Act(s, steps[0].0, steps[0].1), steps[1..], rule))
  }

  function RunOf(s: State, steps: seq<(Worker, Action)>): State
    requires RunOk(s, steps, Free)
    decreases |steps|
  {
    if steps == [] then s else RunOf(Act(s, steps[0].0, steps[0].1), steps[1..])
  }

  lemma {:induction false} RunOkFree(s: State, steps: seq<(Worker, Action)>, rule: Rule)
    requires RunOk(s, steps, rule)
    ensures RunOk(s, steps, Free)
    decreases |steps|
  {
    if steps != [] {
      RunOkFree(Act(s, steps[0].0, steps[0].1), steps[1..], rule);
    }
  }

  // ---------------------------------------------------------------------------------------------------------
  // Safety.

  function CommitsOf(learned: seq<Commit>, id: Id): seq<Commit> {
    if learned == [] then []
    else
      var last := learned[|learned| - 1];
      CommitsOf(learned[..|learned| - 1], id) + (if last.id == id then [last] else [])
  }

  /** An item has a complete checkpoint exactly when it was committed, once, and with that binding and report. */
  predicate ItemSound(store: Store, id: Id) {
    var commits := CommitsOf(store.learned, id);
    if id in store.rows && store.rows[id].complete then
      store.rows[id].report.Some? && commits == [Commit(id, store.rows[id].binding, store.rows[id].report.value)]
    else commits == []
  }

  ghost predicate Sound(store: Store) {
    forall id :: ItemSound(store, id)
  }

  /** The row of an item whose call has passed its check: present, running, and bound to this input. */
  predicate Fenced(store: Store, input: Input) {
    input.id in store.rows && store.rows[input.id] == RunningRow(input)
  }

  /** The row of an item that some call on this input has marked. */
  predicate Bound(store: Store, input: Input) {
    && input.id in store.rows
    && store.rows[input.id].root == input.root && store.rows[input.id].item == input.item
    && store.rows[input.id].binding == input.binding
  }

  /** What a worker's phase says about the store. */
  predicate PhaseSound(store: Store, p: Phase) {
    match p
    case Marking(input, _) => input.id !in store.rows || Fenced(store, input)
    case Preparing(input) => Bound(store, input)
    case Committing(input, _) => Fenced(store, input)
    case Returned(input, _, result) =>
      && input.id in store.rows && store.rows[input.id].complete
      && store.rows[input.id].binding == input.binding && store.rows[input.id].report == Some(result)
    case _ => true
  }

  ghost predicate Invariant(s: State) {
    && Sound(s.store)
    && RowsWritten(s.store)
    && (forall w :: w in s.workers ==> PhaseSound(s.store, s.workers[w]))
    && Apart(s)
  }

  /** No two workers are between a check and its put on one item. */
  ghost predicate Apart(s: State) {
    forall v, w, id ::
      v in s.workers && w in s.workers && v != w && InMarking(s.workers[v], id) ==> !InMarking(s.workers[w], id)
  }

  /** Rows have only the two forms the protocol writes. */
  predicate RowsWritten(store: Store) {
    forall id :: id in store.rows ==> store.rows[id].complete == store.rows[id].report.Some?
  }

  /** What one step may do to the store: complete rows stand, and bindings of existing rows never change. */
  ghost predicate Forward(a: Store, b: Store) {
    && a.learned <= b.learned
    && forall id :: id in a.rows ==>
      && id in b.rows
      && b.rows[id].binding == a.rows[id].binding
      && (a.rows[id].complete ==> b.rows[id] == a.rows[id])
  }

  lemma CommitsSnoc(learned: seq<Commit>, c: Commit, id: Id)
    ensures CommitsOf(learned + [c], id) == CommitsOf(learned, id) + (if c.id == id then [c] else [])
  {
    assert (learned + [c])[..|learned|] == learned;
  }

  lemma TransactSound(store: Store, input: Input, report: Report)
    requires Sound(store) && Fenced(store, input)
    ensures Sound(Transact(store, input, report))
  {
    var c := Commit(input.id, input.binding, report);
    forall id
      ensures ItemSound(Transact(store, input, report), id)
    {
      CommitsSnoc(store.learned, c, id);
      assert ItemSound(store, id);
    }
  }

  lemma PutRunningSound(store: Store, input: Input)
    requires Sound(store) && (input.id !in store.rows || Fenced(store, input))
    ensures Sound(PutRunning(store, input))
  {
    forall id
      ensures ItemSound(PutRunning(store, input), id)
    {
      assert ItemSound(store, id);
    }
  }

  /** A put disturbs no other call, unless that is itself between a check and its put. */
  lemma PutOthers(store: Store, input: Input, p: Phase)
    requires PhaseSound(store, p) && (input.id !in store.rows || Fenced(store, input)) && !InMarking(p, input.id)
    ensures PhaseSound(PutRunning(store, input), p)
  {
  }

  /** A commit disturbs no other call that is not about to write. */
  lemma CommitOthers(store: Store, input: Input, report: Report, p: Phase)
    requires PhaseSound(store, p) && Fenced(store, input) && !AboutToWrite(p, input.id)
    ensures PhaseSound(Transact(store, input, report), p)
  {
  }

  lemma GoApart(s: State, w: Worker, p: Phase)
    requires Apart(s)
    requires p.Marking? ==> forall v :: v in s.workers && v != w ==> !InMarking(s.workers[v], p.input.id)
    ensures Apart(Go(s, w, p))
  {
  }

  /** A step of `w` that leaves the store alone. */
  lemma QuietStep(s: State, w: Worker, p: Phase)
    requires Invariant(s) && PhaseSound(s.store, p)
    requires p.Marking? ==> forall v :: v in s.workers && v != w ==> !InMarking(s.workers[v], p.input.id)
    ensures Invariant(Go(s, w, p))
  {
    GoApart(s, w, p);
  }

  lemma GetStep(s: State, w: Worker)
    requires Invariant(s) && CanAct(s, w, Get) && Exclusive(s, w, Get)
    ensures Invariant(Act(s, w, Get)) && Act(s, w, Get).store == s.store
  {
    assert w in s.workers;
    QuietStep(s, w, Act(s, w, Get).workers[w]);
  }

  lemma PutStep(s: State, w: Worker)
    requires Invariant(s) && CanAct(s, w, Put)
    ensures Invariant(Act(s, w, Put)) && Forward(s.store, Act(s, w, Put).store)
  {
    var input := PhaseOf(s, w).input;
    var s' := Act(s, w, Put);
    assert w in s.workers && PhaseSound(s.store, s.workers[w]) && InMarking(s.workers[w], input.id);
    PutRunningSound(s.store, input);
    forall v | v in s'.workers
      ensures PhaseSound(s'.store, s'.workers[v])
    {
      if v != w {
        assert v in s.workers && !InMarking(s.workers[v], input.id);
        PutOthers(s.store, input, s.workers[v]);
      }
    }
    GoApart(s.(store := s'.store), w, s'.workers[w]);
  }

  lemma TransactionStep(s: State, w: Worker, fate: CommitFate)
    requires Invariant(s) && CanAct(s, w, Transaction(fate)) && fate != Abort && Exclusive(s, w, Transaction(fate))
    ensures Invariant(Act(s, w, Transaction(fate))) && Forward(s.store, Act(s, w, Transaction(fate)).store)
  {
    var p := PhaseOf(s, w);
    var s' := Act(s, w, Transaction(fate));
    assert w in s.workers && PhaseSound(s.store, s.workers[w]);
    TransactSound(s.store, p.input, p.report);
    forall v | v in s'.workers
      ensures PhaseSound(s'.store, s'.workers[v])
    {
      if v != w {
        assert v in s.workers;
        CommitOthers(s.store, p.input, p.report, s.workers[v]);
      }
    }
    GoApart(s.(store := s'.store), w, s'.workers[w]);
  }

  /** Every step keeps the invariant and moves the store forward only. */
  lemma StepSafe(s: State, w: Worker, a: Action)
    requires Invariant(s) && CanAct(s, w, a) && Exclusive(s, w, a)
    ensures Invariant(Act(s, w, a)) && Forward(s.store, Act(s, w, a).store)
  {
    if a.Get? {
      GetStep(s, w);
    } else if a.Put? {
      PutStep(s, w);
    } else if a.Transaction? && a.fate != Abort {
      TransactionStep(s, w, a.fate);
    } else if Act(s, w, a) != s {
      assert w in s.workers ==> PhaseSound(s.store, s.workers[w]);
      QuietStep(s, w, Act(s, w, a).workers[w]);
    }
  }

  lemma {:induction false} RunSafe(s: State, steps: seq<(Worker, Action)>)
    requires Invariant(s) && RunOk(s, steps, CallsApart)
    ensures RunOk(s, steps, Free)
    ensures Invariant(RunOf(s, steps)) && Forward(s.store, RunOf(s, steps).store)
    decreases |steps|
  {
    RunOkFree(s, steps, CallsApart);
    if steps != [] {
      StepSafe(s, steps[0].0, steps[0].1);
      RunSafe(Act(s, steps[0].0, steps[0].1), steps[1..]);
    }
  }

  // ---------------------------------------------------------------------------------------------------------
  // Exactly once, with nothing asked of the checks.

  predicate Unfinished(store: Store, id: Id) {
    id in store.rows ==> !store.rows[id].complete
  }

  /** What a worker's phase says about the store when only commits are kept apart. */
  predicate PhaseConsistent(store: Store, p: Phase) {
    match p
    case Marking(input, _) => Unfinished(store, input.id)
    case Committing(input, _) => Unfinished(store, input.id)
    case Returned(_, _, _) => PhaseSound(store, p)
    case _ => true
  }

  ghost predicate Consistent(s: State) {
    && Sound(s.store)
    && RowsWritten(s.store)
    && forall w :: w in s.workers ==> PhaseConsistent(s.store, s.workers[w])
  }

  /** Commits only grow, rows do not go away, and complete rows stand. */
  ghost predicate Grows(a: Store, b: Store) {
    && a.learned <= b.learned
    && forall id :: id in a.rows ==> id in b.rows && (a.rows[id].complete ==> b.rows[id] == a.rows[id])
  }

  lemma MarkConsistent(store: Store, input: Input)
    requires Sound(store) && Unfinished(store, input.id)
    ensures Sound(PutRunning(store, input))
  {
    forall id
      ensures ItemSound(PutRunning(store, input), id)
    {
      assert ItemSound(store, id);
    }
  }

  lemma CommitConsistent(store: Store, input: Input, report: Report)
    requires Sound(store) && Unfinished(store, input.id)
    ensures Sound(Transact(store, input, report))
  {
    var c := Commit(input.id, input.binding, report);
    forall id
      ensures ItemSound(Transact(store, input, report), id)
    {
      CommitsSnoc(store.learned, c, id);
      assert ItemSound(store, id);
    }
  }

  /** Every step by the rule on commits keeps storage consistent and growing. */
  lemma StepConsistent(s: State, w: Worker, a: Action)
    requires Consistent(s) && CanAct(s, w, a) && CommitAlone(s, w, a)
    ensures Consistent(Act(s, w, a)) && Grows(s.store, Act(s, w, a).store)
  {
    var p, s' := PhaseOf(s, w), Act(s, w, a);
    assert w in s.workers ==> PhaseConsistent(s.store, p);
    if a.Put? {
      MarkConsistent(s.store, p.input);
    } else if a.Transaction? && a.fate != Abort {
      CommitConsistent(s.store, p.input, p.report);
    }
    hide ItemSound;
    forall v | v in s'.workers
      ensures PhaseConsistent(s'.store, s'.workers[v])
    {
      assert v != w ==> v in s.workers && s'.workers[v] == s.workers[v];
    }
  }

  lemma {:induction false} RunConsistent(s: State, steps: seq<(Worker, Action)>)
    requires Consistent(s) && RunOk(s, steps, CommitsAlone)
    ensures RunOk(s, steps, Free)
    ensures Consistent(RunOf(s, steps)) && Grows(s.store, RunOf(s, steps).store)
    decreases |steps|
  {
    RunOkFree(s, steps, CommitsAlone);
    if steps != [] {
      StepConsistent(s, steps[0].0, steps[0].1);
      hide Act, CanAct, CommitAlone, Consistent;
      RunConsistent(Act(s, steps[0].0, steps[0].1), steps[1..]);
    }
  }

  const NOTHING_YET := State(Store(map[], []), map[])

  /**
   Over every run with crashes, aborted transactions and lost acknowledgements in which no call commits an item while
   another is about to write it: an item has a complete checkpoint exactly when its rows were committed, at most once;
   and whoever was given a report was given the committed one.
   */
  lemma TrainingIsExactlyOnce(steps: seq<(Worker, Action)>, id: Id)
    requires RunOk(NOTHING_YET, steps, CommitsAlone)
    ensures RunOk(NOTHING_YET, steps, Free)
    ensures
      var s := RunOf(NOTHING_YET, steps);
      && |CommitsOf(s.store.learned, id)| <= 1
      && (|CommitsOf(s.store.learned, id)| == 1 <==> id in s.store.rows && s.store.rows[id].complete)
      && forall w :: w in s.workers && s.workers[w].Returned? && s.workers[w].input.id == id ==>
           CommitsOf(s.store.learned, id) == [Commit(id, s.workers[w].input.binding, s.workers[w].result)]
  {
    assert CommitsOf([], id) == [];
    assert Sound(NOTHING_YET.store) by { assert forall i :: CommitsOf([], i) == []; }
    RunConsistent(NOTHING_YET, steps);
    var s := RunOf(NOTHING_YET, steps);
    assert ItemSound(s.store, id);
    forall w | w in s.workers && s.workers[w].Returned? && s.workers[w].input.id == id
      ensures CommitsOf(s.store.learned, id) == [Commit(id, s.workers[w].input.binding, s.workers[w].result)]
    {
      assert PhaseConsistent(s.store, s.workers[w]);
    }
  }

  /** With a row bound to something else, no step of a call changes the store, and none of them returns a report. */
  lemma MismatchWritesNothing(s: State, w: Worker, a: Action)
    requires Invariant(s) && CanAct(s, w, a)
    requires
      var p := PhaseOf(s, w);
      !p.Idle? && p.input.id in s.store.rows && s.store.rows[p.input.id].binding != p.input.binding
    ensures Act(s, w, a).store == s.store
    ensures !a.Begin? ==> !PhaseOf(Act(s, w, a), w).Returned?
  {
    assert w in s.workers && PhaseSound(s.store, s.workers[w]);
  }

  /** After a lost acknowledgement the committed report is found again, by reconciling or by calling again. */
  lemma LostAcknowledgementRecovers(s: State, w: Worker)
    requires Invariant(s) && CanAct(s, w, Transaction(LostAcknowledgement))
    ensures
      var p := PhaseOf(s, w);
      var lost := Act(s, w, Transaction(LostAcknowledgement));
      && PhaseOf(lost, w).Failed?
      && Act(lost, w, Reconcile) == Go(lost, w, Returned(p.input, Some(p.report), p.report))
      && Act(Act(lost, w, Retry), w, Get) == Go(lost, w, Returned(p.input, Some(p.report), p.report))
  {
    assert w in s.workers && PhaseSound(s.store, s.workers[w]);
    var lost := Act(s, w, Transaction(LostAcknowledgement));
    var again := Act(lost, w, Retry);
    assert Act(again, w, Get).workers == lost.workers[w := PhaseOf(Act(again, w, Get), w)];
  }

  // ---------------------------------------------------------------------------------------------------------
  // Why calls on one item have to be kept apart: nothing in the protocol itself does it.

  lemma {:induction false} OneMore(
    s: State, steps: seq<(Worker, Action)>, w: Worker, a: Action)
    returns (longer: seq<(Worker, Action)>)
    requires RunOk(s, steps, Free) && CanAct(RunOf(s, steps), w, a)
    ensures longer == steps + [(w, a)]
    ensures RunOk(s, longer, Free) && RunOf(s, longer) == Act(RunOf(s, steps), w, a)
    decreases |steps|
  {
    longer := steps + [(w, a)];
    if steps == [] {
      assert longer[1..] == [];
    } else {
      var rest := OneMore(Act(s, steps[0].0, steps[0].1), steps[1..], w, a);
      assert longer[1..] == rest;
    }
  }

  /** One call up to the write that follows its second check. */
  lemma UpToSecondMark(s: State, steps: seq<(Worker, Action)>, w: Worker, input: Input, report: Report)
    returns (longer: seq<(Worker, Action)>)
    requires RunOk(s, steps, Free)
    requires
      var now := RunOf(s, steps);
      PhaseOf(now, w) == Idle && (input.id in now.store.rows ==> Fenced(now.store, input))
    ensures RunOk(s, longer, Free)
    ensures
      var now, later := RunOf(s, steps), RunOf(s, longer);
      && later.workers == now.workers[w := Marking(input, Some(report))]
      && Fenced(later.store, input) && later.store.learned == now.store.learned
  {
    longer := OneMore(s, steps, w, Begin(input));
    longer := OneMore(s, longer, w, Get);
    longer := OneMore(s, longer, w, Put);
    longer := OneMore(s, longer, w, Prepare(Some(report)));
    longer := OneMore(s, longer, w, Get);
  }

  /**
   The condition on commits is needed at each one: when a call on the item is about to write as another commits, its
   very next step undoes the fence, by downgrading the complete row or by committing the item again.
   */
  lemma CommitWhileOtherWrites(s: State, w: Worker, v: Worker)
    requires Consistent(s) && CanAct(s, w, Transaction(Acknowledged))
    requires v in s.workers && v != w && AboutToWrite(s.workers[v], PhaseOf(s, w).input.id)
    ensures
      var after := Act(s, w, Transaction(Acknowledged));
      var next := if s.workers[v].Marking? then Put else Transaction(Acknowledged);
      CanAct(after, v, next) && !ItemSound(Act(after, v, next).store, PhaseOf(s, w).input.id)
  {
    var p, q := PhaseOf(s, w), s.workers[v];
    assert w in s.workers && PhaseConsistent(s.store, s.workers[w]);
    var id := p.input.id;
    assert ItemSound(s.store, id);
    var first := Commit(id, p.input.binding, p.report);
    CommitsSnoc(s.store.learned, first, id);
    if q.Committing? {
      CommitsSnoc(s.store.learned + [first], Commit(id, q.input.binding, q.report), id);
    }
  }

  /** The storage after these steps, if they can be taken. */
  function StoreAfter(steps: seq<(Worker, Action)>): Option<Store> {
    if RunOk(NOTHING_YET, steps, Free) then Some(RunOf(NOTHING_YET, steps).store) else None
  }

  /** Two calls past their second check: the later one downgrades the complete row, and commits the item again. */
  lemma TwoWorkersCommitTwice(input: Input, r0: Report, r1: Report)
    returns (complete: seq<(Worker, Action)>, downgraded: seq<(Worker, Action)>, twice: seq<(Worker, Action)>)
    ensures complete < downgraded < twice
    ensures StoreAfter(complete).Some? && Lookup(StoreAfter(complete).value, input.id) == Some(CompleteRow(input, r0))
    ensures StoreAfter(downgraded).Some? && Lookup(StoreAfter(downgraded).value, input.id) == Some(RunningRow(input))
    ensures StoreAfter(twice).Some?
    ensures StoreAfter(twice).value.learned
            == [Commit(input.id, input.binding, r0), Commit(input.id, input.binding, r1)]
  {
    complete := UpToSecondMark(NOTHING_YET, [], 0, input, r0);
    complete := UpToSecondMark(NOTHING_YET, complete, 1, input, r1);
    complete := OneMore(NOTHING_YET, complete, 0, Put);
    complete := OneMore(NOTHING_YET, complete, 0, Transaction(Acknowledged));
    downgraded := OneMore(NOTHING_YET, complete, 1, Put);
    twice := OneMore(NOTHING_YET, downgraded, 1, Transaction(Acknowledged));
  }

  // ---------------------------------------------------------------------------------------------------------
  // One call as a whole, when nothing else writes on its item.

  /**
   What happens to a call: it fails before or in its first read, in its first put, or in preparation; or it comes as far
   as its commit.
   */
  datatype Fate =
    | ReadFails
    | PutFails
    | PreparationFails
    | Aborts(report: Report)
    | Commits(report: Report)
    | CommitsUnacknowledged(report: Report)

  datatype CallResult = Reported(report: Report) | Error | ConflictError

  /** `trainLanguageCorpusText`. */
  function Train(store: Store, input: Input, fate: Fate): (Store, CallResult) {
    if fate.ReadFails? then (store, Error) else TrainFrom(store, input, fate, Inspect(Lookup(store, input.id), input))
  }

  /** The call from what its first check read. */
  function TrainFrom(store: Store, input: Input, fate: Fate, reading: Reading): (Store, CallResult) {
    match reading
    case Conflict => (store, ConflictError)
    case Replay(report) => (store, Reported(report))
    case Proceed =>
      var marked := PutRunning(store, input);
      match fate
      case ReadFails => (store, Error)
      case PutFails => (store, Error)
      case PreparationFails => (marked, Error)
      case Aborts(_) => (marked, Error)
      case Commits(report) => (Transact(marked, input, report), Reported(report))
      case CommitsUnacknowledged(report) => (Transact(marked, input, report), Error)
  }

  /** `readCompletedCorpusCheckpoint`. */
  function ReadCompleted(store: Store, input: Input): CallResult {
    var row := Lookup(store, input.id);
    if row.None? || !row.value.complete then Error
    else if row.value.binding != input.binding || row.value.report.None? then ConflictError
    else Reported(row.value.report.value)
  }

  /** The row of this item is bound to something else: another item, or another digest of the inputs. */
  predicate Foreign(store: Store, input: Input) {
    input.id in store.rows &&
    (store.rows[input.id].root != input.root || store.rows[input.id].item != input.item
     || store.rows[input.id].binding != input.binding)
  }

  /**
   What a call answers, from the row it finds: a conflict exactly over a foreign row; the committed report, with storage
   as it was, over the item's own complete row; otherwise whatever its preparation and commit come to.
   */
  lemma TrainAnswers(store: Store, input: Input, fate: Fate)
    requires RowsWritten(store) && !fate.ReadFails?
    ensures
      var (after, result) := Train(store, input, fate);
      && (result.ConflictError? <==> Foreign(store, input))
      && (Foreign(store, input) ==> after == store)
      && (Trained(store, input) && !Foreign(store, input) ==>
            after == store && result == Reported(store.rows[input.id].report.value))
      && (!Trained(store, input) && !Foreign(store, input) ==>
            && (result.Reported? <==> fate.Commits?) && (fate.Commits? ==> result.report == fate.report)
            && (fate.Commits? || fate.CommitsUnacknowledged? ==>
                  after.learned == store.learned + [Commit(input.id, input.binding, fate.report)]
                  && after.rows == store.rows[input.id := CompleteRow(input, fate.report)]))
  {
    if fate.Commits? || fate.CommitsUnacknowledged? {
      var report := fate.report;
      assert store.rows[input.id := RunningRow(input)][input.id := CompleteRow(input, report)]
          == store.rows[input.id := CompleteRow(input, report)];
    }
  }

  /** A call that reported reports the same again, and changes nothing, whatever would have become of it. */
  lemma TrainTwice(store: Store, input: Input, fate: Fate, again: Fate)
    requires Sound(store) && RowsWritten(store) && Train(store, input, fate).1.Reported? && !again.ReadFails?
    ensures
      var (after, result) := Train(store, input, fate);
      Train(after, input, again) == (after, result)
  {
    TrainSafe(store, input, fate);
    TrainAnswers(store, input, fate);
    TrainAnswers(Train(store, input, fate).0, input, again);
  }

  /** The phase a finished call is left in. */
  predicate Ended(p: Phase, input: Input, result: CallResult) {
    match result
    case Reported(report) => p.Returned? && p.input == input && p.result == report
    case Error => p.Failed? && p.input == input
    case ConflictError => p == Refused(input)
  }

  /** The whole call is a run of the protocol's steps. */
  lemma TrainIsARun(s: State, w: Worker, input: Input, fate: Fate) returns (steps: seq<(Worker, Action)>)
    requires PhaseOf(s, w) == Idle && RowsWritten(s.store)
    ensures RunOk(s, steps, Free)
    ensures RunOf(s, steps).store == Train(s.store, input, fate).0
    ensures Ended(PhaseOf(RunOf(s, steps), w), input, Train(s.store, input, fate).1)
  {
    steps := OneMore(s, [], w, Begin(input));
    if fate.ReadFails? {
      steps := OneMore(s, steps, w, Throw);
      return;
    }
    steps := OneMore(s, steps, w, Get);
    if Inspect(Lookup(s.store, input.id), input).Proceed? {
      if fate.PutFails? {
        steps := OneMore(s, steps, w, Throw);
        return;
      }
      steps := OneMore(s, steps, w, Put);
      if fate.PreparationFails? {
        steps := OneMore(s, steps, w, Prepare(None));
      } else {
        steps := OneMore(s, steps, w, Prepare(Some(fate.report)));
        steps := OneMore(s, steps, w, Get);
        steps := OneMore(s, steps, w, Put);
        assert PutRunning(PutRunning(s.store, input), input) == PutRunning(s.store, input);
        steps := OneMore(s, steps, w, Transaction(CommitOf(fate)));
      }
    }
  }

  function CommitOf(fate: Fate): CommitFate {
    match fate
    case Commits(_) => Acknowledged
    case CommitsUnacknowledged(_) => LostAcknowledgement
    case _ => Abort
  }

  /** The item was committed under this binding. */
  predicate Trained(store: Store, input: Input) {
    input.id in store.rows && store.rows[input.id].complete && store.rows[input.id].binding == input.binding
  }

  /** A call keeps the storage sound and forward, and a report means the item is trained. */
  lemma TrainSafe(store: Store, input: Input, fate: Fate)
    requires Sound(store) && RowsWritten(store)
    ensures
      var (after, result) := Train(store, input, fate);
      && Sound(after) && RowsWritten(after) && Forward(store, after)
      && (result.Reported? ==> Trained(after, input))
      && (ReadCompleted(after, input).Reported? ==> Trained(after, input))
  {
    if Inspect(Lookup(store, input.id), input).Proceed? && !fate.ReadFails? && !fate.PutFails? {
      PutRunningSound(store, input);
      if fate.Commits? || fate.CommitsUnacknowledged? {
        TransactSound(PutRunning(store, input), input, fate.report);
      }
    }
  }

  /** A preparation token: the payload is kept for a retry and released by the commit that is acknowledged. */
  class Preparation {
    var payload: Option<Report>
    var committed: bool

    constructor (report: Report)
      ensures payload == Some(report) && !committed
    {
      payload, committed := Some(report), false;
    }
  }

  /** Which of the storage accesses of a check is rejected. */
  datatype Access = Works | GetRejects | PutRejects

  function AccessOf(fate: Fate): Access {
    if fate.ReadFails? then GetRejects else if fate.PutFails? then PutRejects else Works
  }

  /** What a check comes to when its storage accesses may be rejected. */
  function Checked(reading: Reading, access: Access): Option<Reading> {
    if access == GetRejects || (access == PutRejects && reading.Proceed?) then None else Some(reading)
  }

  class CorpusStorage {
    var rows: map<Id, Row>
    var learned: seq<Commit>

    function View(): Store
      reads this
    {
      Store(rows, learned)
    }

    constructor ()
      ensures View() == NOTHING_YET.store
    {
      rows, learned := map[], [];
    }

    /** `None` when an access is rejected. */
    method PrepareCheckpoint(input: Input, access: Access) returns (reading: Option<Reading>)
      modifies this
      ensures reading == Checked(Inspect(Lookup(old(View()), input.id), input), access)
      ensures View() == if reading == Some(Proceed) then PutRunning(old(View()), input) else old(View())
    {
      reading := Some(Proceed);
      if access == GetRejects {
        return None;
      }
      if input.id in rows {
        var existing := rows[input.id];
        if existing.root != input.root || existing.item != input.item || existing.binding != input.binding {
          return Some(Conflict);
        }
        if existing.complete {
          return Some(if existing.report.None? then Conflict else Replay(existing.report.value));
        }
      }
      if access == PutRejects {
        return None;
      }
      rows := rows[input.id := RunningRow(input)];
    }

    /**
     `commitLanguageCorpusTraining` with a checkpoint: the token refuses a second use after an acknowledged commit,
     and is usable again after a failure.
     */
    method CommitPrepared(
      input: Input, held: Preparation, access: Access, fate: CommitFate)
      returns (result: CallResult)
      modifies this, held
      ensures
        match Checked(Inspect(Lookup(old(View()), input.id), input), access)
        case None => result == Error && View() == old(View()) && unchanged(held)
        case Some(Conflict) => result == ConflictError && View() == old(View()) && unchanged(held)
        case Some(Replay(report)) => result == Reported(report) && View() == old(View()) && unchanged(held)
        case Some(Proceed) =>
          var marked := PutRunning(old(View()), input);
          if old(held.committed) then result == Error && View() == marked && unchanged(held)
          else if old(held.payload).None? || fate == Abort then
            result == Error && View() == marked && held.payload == old(held.payload) && !held.committed
          else
            && View() == Transact(marked, input, old(held.payload).value)
            && result == (if fate == Acknowledged then Reported(old(held.payload).value) else Error)
            && held.committed == (fate == Acknowledged)
            && held.payload == (if fate == Acknowledged then None else old(held.payload))
    {
      var reading := PrepareCheckpoint(input, access);
      if reading.None? {
        return Error;
      }
      if reading.value.Conflict? {
        return ConflictError;
      }
      if reading.value.Replay? {
        return Reported(reading.value.report);
      }
      if held.committed {
        return Error;
      }
      held.committed := true;
      if held.payload.None? || fate == Abort {
        held.committed := false;
        return Error;
      }
      var report := held.payload.value;
      rows := rows[input.id := CompleteRow(input, report)];
      learned := learned + [Commit(input.id, input.binding, report)];
      if fate == LostAcknowledgement {
        held.committed := false;
        return Error;
      }
      held.payload := None;
      return Reported(report);
    }

    method TrainText(input: Input, fate: Fate) returns (result: CallResult)
      modifies this
      ensures (View(), result) == Train(old(View()), input, fate)
    {
      var reading := PrepareCheckpoint(input, AccessOf(fate));
      if reading.None? {
        return Error;
      }
      if reading.value.Conflict? {
        return ConflictError;
      }
      if reading.value.Replay? {
        return Reported(reading.value.report);
      }
      if fate.PreparationFails? {
        return Error;
      }
      var held := new Preparation(fate.report);
      assert PutRunning(PutRunning(old(View()), input), input) == PutRunning(old(View()), input);
      result := CommitPrepared(input, held, Works, CommitOf(fate));
    }
  }
}
