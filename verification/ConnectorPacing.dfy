/**
 The connector gate: web requests queue up on one promise per provider, wait for the declared rate, and are admitted
 against quotas. Gates built from one config share the clock of last admissions and the request count; a request
 budget is a scope of its own. Each gate may patch the policy; a request's limit stands while the request is under way.
 The rate is fixed.
 */
module ConnectorPacing {
  import opened Common
  import opened PromiseQueue

  const WEB: Key := "web"

  type Scope = nat

  /** `spacing` is the time between two admissions in milliseconds; `perTurn` the limit inside a request budget. */
  datatype Config = Config(spacing: real, perTurn: Option<nat>)

  /** A declared rate below one request a minute counts as one. */
  function EffectiveRate(rate: real): real {
    if rate < 1.0 then 1.0 else rate
  }

  /** The configuration at a declared rate of requests per minute. */
  function ConfigAt(rate: real, perTurn: Option<nat>): Config {
    Config(60000.0 / EffectiveRate(rate), perTurn)
  }

  /**
   A request: its budget scope if it has one, the limit of its own gate's policy, and whether every other rule, the
   kernel's too, admits it.
   */
  datatype Call = Call(scope: Option<Scope>, policyLimit: nat, permitted: bool)

  /**
   An admitted request. `task` is its place in the web queue, or `None` for another connector's request; `limit` is
   what it was counted against.
   */
  datatype Admission = Admission(task: Option<Task>, scope: Option<Scope>, limit: nat, time: int)

  /** `wake` is the timer of a request that found itself early. */
  datatype Gate = Gate(
    queue: Queue,
    calls: seq<Call>,
    wake: map<Task, int>,
    clock: int,
    lastAllowed: Option<int>,
    quota: Quota)

  /** Counts by scope, the shared count, and what they count. */
  datatype Quota = Quota(used: map<Scope, nat>, admitted: nat, log: seq<Admission>)

  const INITIAL := Gate(EMPTY, [], map[], 0, None, Quota(map[], 0, []))

  // ---------------------------------------------------------------------------------------------------------
  // Rules.

  /** How long a request that starts now has to wait. */
  function WaitMs(c: Config, g: Gate): int {
    if g.lastAllowed.None? then 0
    else Max(0, Ceil(c.spacing - (g.clock - g.lastAllowed.value) as real))
  }

  function Limit(c: Config, call: Call): nat {
    if call.scope.Some? && c.perTurn.Some? then Min(call.policyLimit, c.perTurn.value) else call.policyLimit
  }

  /** `requestsUsed`: the scope's own count, or the shared one outside any scope. */
  function Used(q: Quota, scope: Option<Scope>): nat {
    if scope.None? then q.admitted else if scope.value in q.used then q.used[scope.value] else 0
  }

  /** Counts an admission. */
  function Count(q: Quota, a: Admission): Quota {
    Quota(
      if a.scope.Some? then q.used[a.scope.value := Used(q, a.scope) + 1] else q.used,
      q.admitted + 1,
      q.log + [a])
  }

  // ---------------------------------------------------------------------------------------------------------
  // Steps.

  datatype Step =
    | Tick(ms: nat)
    | Arriving(call: Call)
    | Starting(t: Task)
    | Beginning(t: Task)
    | Aborting(t: Task)
    | Cleaning(t: Task)
    | Elsewhere(call: Call)

  predicate IsInside(g: Gate, t: Task) {
    t < |g.queue.tickets| && g.queue.tickets[t].phase == Inside
  }

  predicate Enabled(g: Gate, s: Step) {
    match s
    case Tick(_) => true
    case Arriving(_) => true
    case Starting(t) => CanEnter(g.queue, t) && t < |g.calls|
    case Beginning(t) => IsInside(g, t) && t < |g.calls| && (t in g.wake ==> g.clock >= g.wake[t])
    case Aborting(t) => IsInside(g, t)
    case Cleaning(t) => t < |g.queue.tickets| && g.queue.tickets[t].phase == Settled && !g.queue.tickets[t].cleaned
    case Elsewhere(_) => true
  }

  /** The local rules: the quota first, then everything else. */
  predicate Admitted(c: Config, g: Gate, call: Call) {
    Used(g.quota, call.scope) < Limit(c, call) && call.permitted
  }

  function AdmissionOf(c: Config, g: Gate, task: Option<Task>, call: Call): Admission {
    Admission(task, call.scope, Limit(c, call), g.clock)
  }

  function Next(c: Config, g: Gate, s: Step): Gate
    requires Enabled(g, s)
  {
    match s
    case Tick(ms) => g.(clock := g.clock + ms)
    case Arriving(call) => g.(queue := Arrive(g.queue, WEB), calls := g.calls + [call])
    case Starting(t) =>
      var wait := WaitMs(c, g);
      var call := g.calls[t];
      g.(queue := Enter(g.queue, t),
         wake := if wait > 0 && Used(g.quota, call.scope) < Limit(c, call) then g.wake[t := g.clock + wait] else g.wake)
    case Beginning(t) =>
      var call := g.calls[t];
      var done := g.(queue := Settle(g.queue, t));
      if Admitted(c, g, call) then
        done.(lastAllowed := Some(g.clock), quota := Count(g.quota, AdmissionOf(c, g, Some(t), call)))
      else done
    case Aborting(t) => g.(queue := Settle(g.queue, t))
    case Cleaning(t) => g.(queue := Clean(g.queue, t))
    case Elsewhere(call) =>
      if Admitted(c, g, call) then g.(quota := Count(g.quota, AdmissionOf(c, g, None, call))) else g
  }

  predicate Interleaving(c: Config, g: Gate, steps: seq<Step>)
    decreases |steps|
  {
    steps == [] || (Enabled(g, steps[0]) && Interleaving(c, Next(c, g, steps[0]), steps[1..]))
  }

  function After(c: Config, g: Gate, steps: seq<Step>): Gate
    requires Interleaving(c, g, steps)
    decreases |steps|
  {
    if steps == [] then g else After(c, Next(c, g, steps[0]), steps[1..])
  }

  // ---------------------------------------------------------------------------------------------------------
  // Invariant.

  function InScope(log: seq<Admission>, scope: Option<Scope>): nat {
    if log == [] then 0
    else InScope(log[..|log| - 1], scope) + (if log[|log| - 1].scope == scope then 1 else 0)
  }

  /** The web admissions among a log. */
  function WebOnly(log: seq<Admission>): (r: seq<Admission>)
    ensures forall a :: a in r ==> a in log && a.task.Some?
  {
    if log == [] then []
    else WebOnly(log[..|log| - 1]) + (if log[|log| - 1].task.Some? then [log[|log| - 1]] else [])
  }

  /** Each web admission has a later place in the queue than the one before, and is at least the spacing behind it. */
  predicate Spaced(c: Config, web: seq<Admission>) {
    && (forall a :: a in web ==> a.task.Some?)
    && forall i :: 0 <= i < |web| - 1 ==>
         web[i].task.value < web[i + 1].task.value && (web[i + 1].time - web[i].time) as real >= c.spacing
  }

  /** How many admissions a log counts against a request of this scope: the scope's own, or all of them. */
  function Counted(log: seq<Admission>, scope: Option<Scope>): nat {
    if scope.Some? then InScope(log, scope) else |log|
  }

  /** Each admission found fewer counted before it than its limit, and no limit in a scope is above the one per turn. */
  predicate LimitsKept(c: Config, log: seq<Admission>) {
    log != [] ==>
      var before, last := log[..|log| - 1], log[|log| - 1];
      && LimitsKept(c, before)
      && Counted(before, last.scope) < last.limit
      && (last.scope.Some? && c.perTurn.Some? ==> last.limit <= c.perTurn.value)
  }

  /** Quotas are counted exactly and kept. */
  ghost predicate QuotasKept(c: Config, q: Quota) {
    && q.admitted == |q.log|
    && (forall scope: Scope :: Used(q, Some(scope)) == InScope(q.log, Some(scope)))
    && LimitsKept(c, q.log)
  }

  /** A request inside is never early: its timer runs at least to the spacing, or the quota will refuse it. */
  predicate NotEarly(c: Config, g: Gate, t: Task) {
    && t < |g.calls|
    && (g.lastAllowed.Some? ==>
         var due := g.lastAllowed.value as real + c.spacing;
         if t in g.wake then g.wake[t] as real >= due
         else g.clock as real >= due || Used(g.quota, g.calls[t].scope) >= Limit(c, g.calls[t]))
  }

  /** The web admissions keep the spacing, and the last of them is the one remembered. */
  predicate PacingKept(c: Config, lastAllowed: Option<int>, web: seq<Admission>) {
    && Spaced(c, web)
    && lastAllowed == if web == [] then None else Some(web[|web| - 1].time)
  }

  /** Admitted web requests are done. */
  predicate LogSettled(q: Queue, web: seq<Admission>) {
    forall a :: a in web ==> a.task.Some? && a.task.value < |q.tickets| && q.tickets[a.task.value].phase == Settled
  }

  ghost predicate NobodyEarly(c: Config, g: Gate) {
    forall t :: IsInside(g, t) ==> NotEarly(c, g, t)
  }

  predicate AllWeb(q: Queue) {
    forall t: nat :: t < |q.tickets| ==> q.tickets[t].key == WEB
  }

  ghost predicate GateInvariant(c: Config, g: Gate) {
    && Invariant(g.queue) && AllWeb(g.queue)
    && |g.calls| == |g.queue.tickets|
    && (forall t :: t in g.wake ==> t < |g.queue.tickets| && g.queue.tickets[t].phase != Waiting)
    && QuotasKept(c, g.quota)
    && PacingKept(c, g.lastAllowed, WebOnly(g.quota.log))
    && LogSettled(g.queue, WebOnly(g.quota.log))
    && NobodyEarly(c, g)
  }

  lemma WaitSuffices(c: Config, g: Gate)
    requires g.lastAllowed.Some?
    ensures (g.clock + WaitMs(c, g)) as real >= g.lastAllowed.value as real + c.spacing
  {
  }

  lemma LogSnoc(log: seq<Admission>, a: Admission)
    ensures forall scope :: InScope(log + [a], scope) == InScope(log, scope) + (if a.scope == scope then 1 else 0)
    ensures WebOnly(log + [a]) == WebOnly(log) + (if a.task.Some? then [a] else [])
  {
    assert (log + [a])[..|log|] == log;
  }

  /** Everyone but the one inside is waiting or done. */
  lemma OnlyInside(g: Gate, t: Task, u: Task)
    requires Invariant(g.queue) && AllWeb(g.queue)
    requires IsInside(g, t) && u < |g.queue.tickets| && u != t
    ensures g.queue.tickets[u].phase == if u < t then Settled else Waiting
  {
    ExclusiveInOrder(g.queue, if u < t then u else t, if u < t then t else u);
  }

  lemma CountKeepsQuotas(c: Config, q: Quota, a: Admission)
    requires QuotasKept(c, q) && Used(q, a.scope) < a.limit
    requires a.scope.Some? && c.perTurn.Some? ==> a.limit <= c.perTurn.value
    ensures QuotasKept(c, Count(q, a))
  {
    var q' := Count(q, a);
    LogSnoc(q.log, a);
    assert q'.log[..|q'.log| - 1] == q.log;
    forall s: Scope
      ensures Used(q', Some(s)) == InScope(q'.log, Some(s))
    {
      assert Used(q, Some(s)) == InScope(q.log, Some(s));
    }
  }

  /** Time and further admissions elsewhere make no request early. */
  lemma NotEarlyStays(c: Config, g: Gate, g': Gate, t: Task)
    requires NotEarly(c, g, t)
    requires g'.lastAllowed == g.lastAllowed && g'.clock >= g.clock
    requires (t in g'.wake <==> t in g.wake) && (t in g.wake ==> g'.wake[t] == g.wake[t])
    requires t < |g'.calls| && g'.calls[t] == g.calls[t]
    requires Used(g'.quota, g.calls[t].scope) >= Used(g.quota, g.calls[t].scope)
    ensures NotEarly(c, g', t)
  {
  }

  lemma ArrivingKeeps(c: Config, g: Gate, call: Call)
    requires GateInvariant(c, g)
    ensures GateInvariant(c, Next(c, g, Arriving(call)))
  {
    var g' := Next(c, g, Arriving(call));
    ArriveKeeps(g.queue, WEB);
    forall u | IsInside(g', u)
      ensures NotEarly(c, g', u)
    {
      assert IsInside(g, u);
      NotEarlyStays(c, g, g', u);
    }
  }

  /** Steps that only move tickets towards the end, admitting nothing. */
  lemma TicketStepKeeps(c: Config, g: Gate, q: Queue)
    requires GateInvariant(c, g) && Invariant(q)
    requires |q.tickets| == |g.queue.tickets|
    requires forall i :: 0 <= i < |q.tickets| ==>
      && q.tickets[i].key == g.queue.tickets[i].key
      && (q.tickets[i].phase == g.queue.tickets[i].phase
          || (g.queue.tickets[i].phase == Inside && q.tickets[i].phase == Settled))
    ensures GateInvariant(c, g.(queue := q))
  {
    var g' := g.(queue := q);
    forall u | IsInside(g', u)
      ensures NotEarly(c, g', u)
    {
      assert IsInside(g, u);
      NotEarlyStays(c, g, g', u);
    }
  }

  lemma AbortingKeeps(c: Config, g: Gate, t: Task)
    requires GateInvariant(c, g) && Enabled(g, Aborting(t))
    ensures GateInvariant(c, Next(c, g, Aborting(t)))
  {
    SettleKeeps(g.queue, t);
    TicketStepKeeps(c, g, Settle(g.queue, t));
  }

  lemma CleaningKeeps(c: Config, g: Gate, t: Task)
    requires GateInvariant(c, g) && Enabled(g, Cleaning(t))
    ensures GateInvariant(c, Next(c, g, Cleaning(t)))
  {
    CleanKeeps(g.queue, t);
    TicketStepKeeps(c, g, Clean(g.queue, t));
  }

  lemma StartKeeps(c: Config, g: Gate, t: Task)
    requires GateInvariant(c, g) && Enabled(g, Starting(t))
    ensures GateInvariant(c, Next(c, g, Starting(t)))
  {
    var g' := Next(c, g, Starting(t));
    EnterKeeps(g.queue, t);
    forall u | IsInside(g', u)
      ensures NotEarly(c, g', u)
    {
      if u == t {
        if g.lastAllowed.Some? { WaitSuffices(c, g); }
      } else {
        assert IsInside(g, u);
        NotEarlyStays(c, g, g', u);
      }
    }
  }

  /** A request that is admitted is due: its timer has run, or the time had come when it started. */
  lemma AdmittedIsDue(c: Config, g: Gate, t: Task)
    requires GateInvariant(c, g) && Enabled(g, Beginning(t)) && Admitted(c, g, g.calls[t])
    ensures g.lastAllowed.Some? ==> (g.clock - g.lastAllowed.value) as real >= c.spacing
  {
    assert NotEarly(c, g, t);
  }

  lemma SpacedSnoc(c: Config, web: seq<Admission>, a: Admission)
    requires Spaced(c, web) && a.task.Some?
    requires web != [] ==>
      web[|web| - 1].task.value < a.task.value && (a.time - web[|web| - 1].time) as real >= c.spacing
    ensures Spaced(c, web + [a])
  {
  }

  lemma NoneInsideAfter(g: Gate, t: Task)
    requires Invariant(g.queue) && AllWeb(g.queue) && IsInside(g, t)
    ensures forall u: nat :: u < |g.queue.tickets| ==> Settle(g.queue, t).tickets[u].phase != Inside
  {
    forall u: nat | u < |g.queue.tickets|
      ensures Settle(g.queue, t).tickets[u].phase != Inside
    {
      if u != t { OnlyInside(g, t, u); }
    }
  }

  lemma AdmissionKeepsPacing(c: Config, g: Gate, t: Task)
    requires GateInvariant(c, g) && Enabled(g, Beginning(t)) && Admitted(c, g, g.calls[t])
    ensures
      var web := WebOnly(g.quota.log) + [AdmissionOf(c, g, Some(t), g.calls[t])];
      PacingKept(c, Some(g.clock), web) && LogSettled(Settle(g.queue, t), web)
  {
    AdmittedIsDue(c, g, t);
    EarlierAdmissions(c, g, t);
    var web, a := WebOnly(g.quota.log), AdmissionOf(c, g, Some(t), g.calls[t]);
    assert a.task == Some(t) && a.time == g.clock;
    hide QuotasKept, Admitted, NotEarly, NobodyEarly, Limit, AdmissionOf, Invariant, AllWeb, WebOnly, PacingKept,
         Settle;
    hide LogSettled;
    PacingSnoc(c, g.lastAllowed, web, a);
    SettledSnoc(g.queue, web, t, a);
  }

  lemma LastSettled(q: Queue, web: seq<Admission>)
    requires LogSettled(q, web) && web != []
    ensures
      var task := web[|web| - 1].task;
      task.Some? && task.value < |q.tickets| && q.tickets[task.value].phase == Settled
  {
    assert web[|web| - 1] in web;
  }

  lemma PacingSnoc(c: Config, lastAllowed: Option<int>, web: seq<Admission>, a: Admission)
    requires PacingKept(c, lastAllowed, web) && a.task.Some?
    requires web != [] ==> web[|web| - 1].task.value < a.task.value
    requires lastAllowed.Some? ==> (a.time - lastAllowed.value) as real >= c.spacing
    ensures PacingKept(c, Some(a.time), web + [a])
  {
    SpacedSnoc(c, web, a);
  }

  /** Web admissions so far came before the one inside. */
  lemma EarlierAdmissions(c: Config, g: Gate, t: Task)
    requires GateInvariant(c, g) && IsInside(g, t)
    ensures var web := WebOnly(g.quota.log); web != [] ==> web[|web| - 1].task.value < t
  {
    hide QuotasKept, NotEarly, NobodyEarly, PacingKept, WebOnly, Invariant, AllWeb, LogSettled;
    var web := WebOnly(g.quota.log);
    if web != [] {
      LastSettled(g.queue, web);
      OnlyInside(g, t, web[|web| - 1].task.value);
    }
  }

  lemma SettledSnoc(q: Queue, web: seq<Admission>, t: Task, a: Admission)
    requires LogSettled(q, web) && t < |q.tickets| && q.tickets[t].phase == Inside && a.task == Some(t)
    ensures LogSettled(Settle(q, t), web + [a])
  {
  }

  lemma NobodyInside(c: Config, g: Gate)
    requires forall u: nat :: u < |g.queue.tickets| ==> g.queue.tickets[u].phase != Inside
    ensures NobodyEarly(c, g)
  {
  }

  lemma SettleShape(q: Queue, t: Task)
    requires t < |q.tickets| && q.tickets[t].phase == Inside && AllWeb(q)
    ensures AllWeb(Settle(q, t)) && |Settle(q, t).tickets| == |q.tickets|
    ensures forall u: nat :: u < |q.tickets| && q.tickets[u].phase != Waiting ==>
                             Settle(q, t).tickets[u].phase != Waiting
  {
  }

  lemma AdmissionCounts(c: Config, g: Gate, call: Call, task: Option<Task>)
    requires QuotasKept(c, g.quota) && Admitted(c, g, call)
    ensures QuotasKept(c, Count(g.quota, AdmissionOf(c, g, task, call)))
  {
    CountKeepsQuotas(c, g.quota, AdmissionOf(c, g, task, call));
  }

  /** The state behind an admission, part by part. */
  lemma AdmittedKeeps(c: Config, g: Gate, t: Task, a: Admission)
    requires GateInvariant(c, g) && Enabled(g, Beginning(t)) && Admitted(c, g, g.calls[t])
    requires a == AdmissionOf(c, g, Some(t), g.calls[t])
    ensures GateInvariant(c, g.(queue := Settle(g.queue, t), lastAllowed := Some(g.clock), quota := Count(g.quota, a)))
  {
    var g' := g.(queue := Settle(g.queue, t), lastAllowed := Some(g.clock), quota := Count(g.quota, a));
    AdmissionCounts(c, g, g.calls[t], Some(t));
    hide QuotasKept, PacingKept, LogSettled, NobodyEarly, NotEarly, Invariant, AllWeb, InScope, Settle, Used, Limit;
    hide Spaced, WebOnly, Next, Admitted, LimitsKept;
    assert a.task == Some(t);
    SettleKeeps(g.queue, t);
    SettleShape(g.queue, t);
    AdmissionKeepsPacing(c, g, t);
    LogSnoc(g.quota.log, a);
    NoneInsideAfter(g, t);
    NobodyInside(c, g');
    assert g'.quota.log == g.quota.log + [a];
    hide AdmissionOf, Count;
  }

  lemma BeginKeeps(c: Config, g: Gate, t: Task)
    requires GateInvariant(c, g) && Enabled(g, Beginning(t))
    ensures GateInvariant(c, Next(c, g, Beginning(t)))
  {
    if Admitted(c, g, g.calls[t]) {
      AdmittedKeeps(c, g, t, AdmissionOf(c, g, Some(t), g.calls[t]));
    } else {
      AbortingKeeps(c, g, t);
    }
  }

  /** Time passing and counting more requests make nobody early. */
  lemma NobodyEarlyStays(c: Config, g: Gate, g': Gate)
    requires NobodyEarly(c, g) && |g.calls| == |g.queue.tickets|
    requires g'.queue == g.queue && g'.calls == g.calls && g'.wake == g.wake
    requires g'.lastAllowed == g.lastAllowed && g'.clock >= g.clock
    requires forall scope :: Used(g'.quota, scope) >= Used(g.quota, scope)
    ensures NobodyEarly(c, g')
  {
    hide NotEarly;
    forall u | IsInside(g', u)
      ensures NotEarly(c, g', u)
    {
      assert IsInside(g, u);
      NotEarlyStays(c, g, g', u);
    }
  }

  lemma CountGrows(q: Quota, a: Admission)
    ensures forall scope :: Used(Count(q, a), scope) >= Used(q, scope)
  {
  }

  lemma ElsewhereKeeps(c: Config, g: Gate, call: Call)
    requires GateInvariant(c, g)
    ensures GateInvariant(c, Next(c, g, Elsewhere(call)))
  {
    hide QuotasKept, PacingKept, LogSettled, NobodyEarly, Invariant, AllWeb, InScope, Used;
    if Admitted(c, g, call) {
      var g' := Next(c, g, Elsewhere(call));
      var a := AdmissionOf(c, g, None, call);
      AdmissionCounts(c, g, call, None);
      hide Limit, LimitsKept;
      CountGrows(g.quota, a);
      LogSnoc(g.quota.log, a);
      assert WebOnly(g'.quota.log) == WebOnly(g.quota.log);
      NobodyEarlyStays(c, g, g');
    }
  }

  lemma TickKeeps(c: Config, g: Gate, ms: nat)
    requires GateInvariant(c, g)
    ensures GateInvariant(c, Next(c, g, Tick(ms)))
  {
    hide QuotasKept, PacingKept, LogSettled, NobodyEarly, Invariant, AllWeb;
    NobodyEarlyStays(c, g, Next(c, g, Tick(ms)));
  }

  lemma {:induction false} AfterKeeps(c: Config, g: Gate, steps: seq<Step>)
    requires GateInvariant(c, g) && Interleaving(c, g, steps)
    ensures GateInvariant(c, After(c, g, steps))
    decreases |steps|
  {
    if steps != [] {
      var s := steps[0];
      match s {
        case Tick(ms) => TickKeeps(c, g, ms);
        case Starting(t) => StartKeeps(c, g, t);
        case Beginning(t) => BeginKeeps(c, g, t);
        case Elsewhere(call) => ElsewhereKeeps(c, g, call);
        case Arriving(call) => ArrivingKeeps(c, g, call);
        case Aborting(t) => AbortingKeeps(c, g, t);
        case Cleaning(t) => CleaningKeeps(c, g, t);
      }
      AfterKeeps(c, Next(c, g, s), steps[1..]);
    }
  }

  lemma InitialHolds(c: Config)
    ensures GateInvariant(c, INITIAL)
  {
  }

  // ---------------------------------------------------------------------------------------------------------
  // Results over every interleaving.

  /** `n` admissions later at least `n` spacings have passed. */
  lemma {:induction false} SpacingAdds(c: Config, web: seq<Admission>, i: nat, j: nat)
    requires Spaced(c, web) && i <= j < |web|
    ensures (web[j].time - web[i].time) as real >= (j - i) as real * c.spacing
    ensures i < j ==> web[i].task.value < web[j].task.value
    decreases j - i
  {
    if i < j {
      SpacingAdds(c, web, i, j - 1);
    }
  }

  /** Web requests are admitted in arrival order, any two of them at least the declared spacing apart. */
  lemma WebAdmissionsPaced(c: Config, steps: seq<Step>, i: nat, j: nat)
    requires Interleaving(c, INITIAL, steps)
    requires i < j < |WebOnly(After(c, INITIAL, steps).quota.log)|
    ensures
      var web := WebOnly(After(c, INITIAL, steps).quota.log);
      && web[i].task.Some? && web[j].task.Some? && web[i].task.value < web[j].task.value
      && (web[j].time - web[i].time) as real >= (j - i) as real * c.spacing
  {
    InitialHolds(c);
    AfterKeeps(c, INITIAL, steps);
    var web := WebOnly(After(c, INITIAL, steps).quota.log);
    assert web[i] in web && web[j] in web;
    SpacingAdds(c, web, i, j);
  }

  /** At a declared rate, `n` admissions after any admission take at least `n` of the rate's share of a minute. */
  lemma DeclaredRateKept(rate: real, perTurn: Option<nat>, steps: seq<Step>, i: nat, j: nat)
    requires Interleaving(ConfigAt(rate, perTurn), INITIAL, steps)
    requires i < j < |WebOnly(After(ConfigAt(rate, perTurn), INITIAL, steps).quota.log)|
    ensures
      var web := WebOnly(After(ConfigAt(rate, perTurn), INITIAL, steps).quota.log);
      (web[j].time - web[i].time) as real * EffectiveRate(rate) >= (j - i) as real * 60000.0
  {
    var c := ConfigAt(rate, perTurn);
    ShareOfMinute(rate, perTurn);
    hide *;
    WebAdmissionsPaced(c, steps, i, j);
    var web := WebOnly(After(c, INITIAL, steps).quota.log);
    RateOf((web[j].time - web[i].time) as real, (j - i) as real, c.spacing, EffectiveRate(rate));
  }

  lemma ShareOfMinute(rate: real, perTurn: Option<nat>)
    ensures EffectiveRate(rate) >= 1.0 && ConfigAt(rate, perTurn).spacing * EffectiveRate(rate) == 60000.0
  {
  }

  lemma RateOf(time: real, n: real, share: real, rate: real)
    requires rate >= 1.0 && share * rate == 60000.0 && time >= n * share
    ensures time * rate >= n * 60000.0
  {
    assert (time - n * share) * rate >= 0.0;
    assert (time - n * share) * rate == time * rate - n * (share * rate);
  }

  /** At most one web request is past its wait and not yet decided; it came before all that still wait. */
  lemma WebOneAtATime(c: Config, steps: seq<Step>, a: Task, b: Task)
    requires Interleaving(c, INITIAL, steps)
    requires a < b < |After(c, INITIAL, steps).queue.tickets|
    ensures
      var q := After(c, INITIAL, steps).queue;
      q.tickets[b].phase != Waiting ==> q.tickets[a].phase == Settled
  {
    InitialHolds(c);
    AfterKeeps(c, INITIAL, steps);
    ExclusiveInOrder(After(c, INITIAL, steps).queue, a, b);
  }

  /** Every admission found fewer counted before it than its own limit, which per turn is at most the one per turn. */
  lemma AdmittedBelowLimit(c: Config, steps: seq<Step>, i: nat)
    requires Interleaving(c, INITIAL, steps)
    requires i < |After(c, INITIAL, steps).quota.log|
    ensures
      var log := After(c, INITIAL, steps).quota.log;
      && Counted(log[..i], log[i].scope) < log[i].limit
      && (log[i].scope.Some? && c.perTurn.Some? ==> log[i].limit <= c.perTurn.value)
  {
    InitialHolds(c);
    AfterKeeps(c, INITIAL, steps);
    LimitAt(c, After(c, INITIAL, steps).quota.log, i);
  }

  lemma {:induction false} LimitAt(c: Config, log: seq<Admission>, i: nat)
    requires LimitsKept(c, log) && i < |log|
    ensures Counted(log[..i], log[i].scope) < log[i].limit
    ensures log[i].scope.Some? && c.perTurn.Some? ==> log[i].limit <= c.perTurn.value
    decreases |log|
  {
    if i < |log| - 1 {
      LimitAt(c, log[..|log| - 1], i);
      assert log[..|log| - 1][..i] == log[..i];
    }
  }

  lemma {:induction false} BoundedLimits(c: Config, log: seq<Admission>, scope: Option<Scope>, bound: nat)
    requires LimitsKept(c, log) && forall a :: a in log && a.scope == scope ==> a.limit <= bound
    ensures InScope(log, scope) <= bound
    ensures scope.Some? && c.perTurn.Some? ==> InScope(log, scope) <= c.perTurn.value
    decreases |log|
  {
    if log != [] {
      var before, last := log[..|log| - 1], log[|log| - 1];
      assert last in log && forall a :: a in before ==> a in log;
      BoundedLimits(c, before, scope, bound);
      UnscopedAtMostAll(before);
    }
  }

  lemma {:induction false} UnscopedAtMostAll(log: seq<Admission>)
    ensures InScope(log, None) <= |log|
  {
    if log != [] {
      UnscopedAtMostAll(log[..|log| - 1]);
    }
  }

  /**
   Admissions inside one budget scope, or outside any, never exceed the largest limit they were counted against; in a
   scope never the limit per turn.
   */
  lemma QuotaNeverExceeded(c: Config, steps: seq<Step>, scope: Option<Scope>, bound: nat)
    requires Interleaving(c, INITIAL, steps)
    requires forall a :: a in After(c, INITIAL, steps).quota.log && a.scope == scope ==> a.limit <= bound
    ensures
      var n := InScope(After(c, INITIAL, steps).quota.log, scope);
      n <= bound && (scope.Some? && c.perTurn.Some? ==> n <= c.perTurn.value)
  {
    InitialHolds(c);
    AfterKeeps(c, INITIAL, steps);
    BoundedLimits(c, After(c, INITIAL, steps).quota.log, scope, bound);
  }

  // ---------------------------------------------------------------------------------------------------------
  // Decisions, in terms of the history alone.

  /** A request goes through when every other rule permits it and its scope is below both of its limits. */
  predicate Allows(c: Config, log: seq<Admission>, call: Call) {
    && call.permitted
    && Counted(log, call.scope) < call.policyLimit
    && (call.scope.Some? && c.perTurn.Some? ==> Counted(log, call.scope) < c.perTurn.value)
  }

  /** The web requests that arrived, in order. */
  function Arrived(steps: seq<Step>): seq<Call> {
    if steps == [] then []
    else
      var last := steps[|steps| - 1];
      Arrived(steps[..|steps| - 1]) + if last.Arriving? then [last.call] else []
  }

  /** The time that passed. */
  function Elapsed(steps: seq<Step>): nat {
    if steps == [] then 0
    else
      var last := steps[|steps| - 1];
      Elapsed(steps[..|steps| - 1]) + if last.Tick? then last.ms else 0
  }

  /** The request a step decides about, with its place in the web queue if it has one. */
  function Decides(steps: seq<Step>, s: Step): Option<(Option<Task>, Call)> {
    match s
    case Beginning(t) => if t < |Arrived(steps)| then Some((Some(t), Arrived(steps)[t])) else None
    case Elsewhere(call) => Some((None, call))
    case _ => None
  }

  /** What is entered for a request, with the smaller of its limits. */
  function Entry(c: Config, task: Option<Task>, call: Call, time: int): Admission {
    var perTurn := call.scope.Some? && c.perTurn.Some? && c.perTurn.value < call.policyLimit;
    Admission(task, call.scope, if perTurn then c.perTurn.value else call.policyLimit, time)
  }

  /** The log of a history: each step enters the request it decides about if the rules allow it, and nothing else. */
  function History(c: Config, steps: seq<Step>): seq<Admission> {
    if steps == [] then []
    else
      var before := steps[..|steps| - 1];
      var log := History(c, before);
      match Decides(before, steps[|steps| - 1])
      case None => log
      case Some((task, call)) => if Allows(c, log, call) then log + [Entry(c, task, call, Elapsed(before))] else log
  }

  lemma {:induction false} AfterSnoc(c: Config, g: Gate, steps: seq<Step>, s: Step)
    ensures Interleaving(c, g, steps + [s]) <==> Interleaving(c, g, steps) && Enabled(After(c, g, steps), s)
    ensures Interleaving(c, g, steps + [s]) ==> After(c, g, steps + [s]) == Next(c, After(c, g, steps), s)
    decreases |steps|
  {
    if steps == [] {
      assert [s][1..] == [];
    } else if Enabled(g, steps[0]) {
      assert (steps + [s])[1..] == steps[1..] + [s];
      AfterSnoc(c, Next(c, g, steps[0]), steps[1..], s);
    }
  }

  /** The gate's rule is the one over the history. */
  lemma AllowedIff(c: Config, g: Gate, call: Call)
    requires QuotasKept(c, g.quota)
    ensures Admitted(c, g, call) <==> Allows(c, g.quota.log, call)
  {
    if call.scope.Some? {
      assert Used(g.quota, Some(call.scope.value)) == InScope(g.quota.log, Some(call.scope.value));
    }
  }

  /**
   After every interleaving, the decision on a web request enters it exactly when it is permitted and its scope is below
   both limits; then it is the one remembered for pacing. Otherwise log, counts and pacing stay.
   */
  lemma BeginningDecides(c: Config, steps: seq<Step>, t: Task)
    requires Interleaving(c, INITIAL, steps) && Enabled(After(c, INITIAL, steps), Beginning(t))
    ensures
      var g := After(c, INITIAL, steps);
      var g' := Next(c, g, Beginning(t));
      && (if Allows(c, g.quota.log, g.calls[t]) then
            g'.quota.log == g.quota.log + [Entry(c, Some(t), g.calls[t], g.clock)] && g'.lastAllowed == Some(g.clock)
          else g'.quota == g.quota && g'.lastAllowed == g.lastAllowed)
      && g'.queue.tickets[t].phase == Settled
  {
    var g := After(c, INITIAL, steps);
    InitialHolds(c);
    AfterKeeps(c, INITIAL, steps);
    AllowedIff(c, g, g.calls[t]);
  }

  /** The same for another connector's request, which leaves the pacing alone in either case. */
  lemma ElsewhereDecides(c: Config, steps: seq<Step>, call: Call)
    requires Interleaving(c, INITIAL, steps)
    ensures
      var g := After(c, INITIAL, steps);
      var g' := Next(c, g, Elsewhere(call));
      && (if Allows(c, g.quota.log, call) then g'.quota.log == g.quota.log + [Entry(c, None, call, g.clock)]
          else g'.quota == g.quota)
      && g'.lastAllowed == g.lastAllowed && g'.queue == g.queue
  {
    var g := After(c, INITIAL, steps);
    InitialHolds(c);
    AfterKeeps(c, INITIAL, steps);
    AllowedIff(c, g, call);
  }

  /** One step, in terms of the history before it. */
  lemma StepRecords(c: Config, before: seq<Step>, s: Step)
    requires Interleaving(c, INITIAL, before) && Enabled(After(c, INITIAL, before), s)
    requires
      var g := After(c, INITIAL, before);
      g.calls == Arrived(before) && g.clock == Elapsed(before) && g.quota.log == History(c, before)
    ensures
      var g' := Next(c, After(c, INITIAL, before), s);
      && g'.calls == Arrived(before + [s]) && g'.clock == Elapsed(before + [s])
      && g'.quota.log == History(c, before + [s])
  {
    var g := After(c, INITIAL, before);
    InitialHolds(c);
    AfterKeeps(c, INITIAL, before);
    assert (before + [s])[..|before|] == before;
    hide GateInvariant, After, Interleaving, Allows, Admitted;
    match s {
      case Beginning(t) => BeginningDecides(c, before, t);
      case Elsewhere(call) => ElsewhereDecides(c, before, call);
      case _ =>
    }
  }

  /** What the gate holds after a run is what the run's history says. */
  lemma {:induction false} GateIsHistory(c: Config, steps: seq<Step>)
    requires Interleaving(c, INITIAL, steps)
    ensures
      var g := After(c, INITIAL, steps);
      g.calls == Arrived(steps) && g.clock == Elapsed(steps) && g.quota.log == History(c, steps)
    decreases |steps|
  {
    if steps != [] {
      var before, s := steps[..|steps| - 1], steps[|steps| - 1];
      assert steps == before + [s];
      AfterSnoc(c, INITIAL, before, s);
      GateIsHistory(c, before);
      StepRecords(c, before, s);
    }
  }

  /** The counts are those of the log. */
  lemma CountsAreTheLogs(c: Config, steps: seq<Step>, scope: Option<Scope>)
    requires Interleaving(c, INITIAL, steps)
    ensures var q := After(c, INITIAL, steps).quota; Used(q, scope) == Counted(q.log, scope)
  {
    InitialHolds(c);
    AfterKeeps(c, INITIAL, steps);
    var q := After(c, INITIAL, steps).quota;
    if scope.Some? {
      assert Used(q, Some(scope.value)) == InScope(q.log, Some(scope.value));
    }
  }

  /** The last web admission of a log. */
  function LastWeb(log: seq<Admission>): Option<Admission> {
    if log == [] then None
    else if log[|log| - 1].task.Some? then Some(log[|log| - 1])
    else LastWeb(log[..|log| - 1])
  }

  lemma {:induction false} LastWebOnly(log: seq<Admission>)
    ensures LastWeb(log) == if WebOnly(log) == [] then None else Some(WebOnly(log)[|WebOnly(log)| - 1])
  {
    if log != [] {
      LastWebOnly(log[..|log| - 1]);
    }
  }

  /** `time` is no sooner than one spacing after `a`. */
  predicate Due(c: Config, a: Admission, time: int) {
    time as real >= a.time as real + c.spacing
  }

  lemma WaitUntilDue(c: Config, g: Gate, a: Admission)
    requires g.lastAllowed == Some(a.time)
    ensures WaitMs(c, g) > 0 <==> !Due(c, a, g.clock)
    ensures WaitMs(c, g) > 0 ==> Due(c, a, g.clock + WaitMs(c, g)) && !Due(c, a, g.clock + WaitMs(c, g) - 1)
  {
  }

  lemma LastRemembered(c: Config, g: Gate)
    requires GateInvariant(c, g)
    ensures LastWeb(g.quota.log).None? <==> g.lastAllowed.None?
    ensures g.lastAllowed.Some? ==> g.lastAllowed.value == LastWeb(g.quota.log).value.time
    ensures forall t :: CanEnter(g.queue, t) ==> t !in g.wake
  {
    LastWebOnly(g.quota.log);
    hide QuotasKept, LogSettled, NobodyEarly, Invariant, AllWeb, Spaced, WebOnly, LastWeb;
  }

  /**
   A request that starts its turn waits exactly when it is early and the quota would let it through, and then until the
   first millisecond at which it is due.
   */
  lemma WaitIsExact(c: Config, steps: seq<Step>, t: Task)
    requires Interleaving(c, INITIAL, steps) && Enabled(After(c, INITIAL, steps), Starting(t))
    ensures
      var g := After(c, INITIAL, steps);
      var g' := Next(c, g, Starting(t));
      var last, call := LastWeb(g.quota.log), g.calls[t];
      && (t in g'.wake <==>
            last.Some? && !Due(c, last.value, g.clock) && Allows(c, g.quota.log, call.(permitted := true)))
      && (t in g'.wake ==> Due(c, last.value, g'.wake[t]) && !Due(c, last.value, g'.wake[t] - 1))
  {
    var g := After(c, INITIAL, steps);
    InitialHolds(c);
    AfterKeeps(c, INITIAL, steps);
    LastRemembered(c, g);
    AllowedIff(c, g, g.calls[t].(permitted := true));
    hide GateInvariant, Interleaving, Allows, LastWeb, Due, WaitMs, Enter, QuotasKept;
    if g.lastAllowed.Some? {
      WaitUntilDue(c, g, LastWeb(g.quota.log).value);
    } else {
      assert WaitMs(c, g) == 0 by { NoWait(c, g); }
    }
  }

  lemma NoWait(c: Config, g: Gate)
    requires g.lastAllowed.None?
    ensures WaitMs(c, g) == 0
  {
  }

  // ---------------------------------------------------------------------------------------------------------
  // The shared state as the gates change it, in the synchronous pieces between awaits.

  class SharedConnectorState {
    const config: Config
    var waiting: Queue
    var calls: seq<Call>
    var timers: map<Task, int>
    var clock: int
    var lastAllowedAt: Option<int>
    var requestBudgets: map<Scope, nat>
    var admittedRequests: nat
    var records: seq<Admission>

    function View(): Gate
      reads this
    {
      Gate(waiting, calls, timers, clock, lastAllowedAt, Quota(requestBudgets, admittedRequests, records))
    }

    constructor (config: Config)
      ensures this.config == config && View() == INITIAL
    {
      this.config := config;
      waiting, calls, timers, clock, lastAllowedAt := EMPTY, [], map[], 0, None;
      requestBudgets, admittedRequests, records := map[], 0, [];
    }

    function RequestsUsed(scope: Option<Scope>): nat
      reads this
    {
      if scope.Some? then if scope.value in requestBudgets then requestBudgets[scope.value] else 0 else admittedRequests
    }

    /** Up to the first await of `beginWhenAvailable`. */
    method Queueing(call: Call) returns (t: Task)
      modifies this
      ensures View() == Next(config, old(View()), Arriving(call)) && t == |old(waiting.tickets)|
    {
      t := |waiting.tickets|;
      waiting := Arrive(waiting, WEB);
      calls := calls + [call];
    }

    /** The previous request is done: compute the wait, and set a timer for it. */
    method StartTurn(t: Task)
      requires Enabled(View(), Starting(t))
      modifies this
      ensures View() == Next(config, old(View()), Starting(t))
    {
      var call := calls[t];
      var waitMs := WaitMs(config, View());
      if waitMs > 0 && RequestsUsed(call.scope) < Limit(config, call) {
        timers := timers[t := clock + waitMs];
      }
      waiting := Enter(waiting, t);
    }

    /** `begin`: the rules, and on admission the counts and the time. */
    method Begin(t: Task) returns (allowed: bool)
      requires Enabled(View(), Beginning(t))
      modifies this
      ensures View() == Next(config, old(View()), Beginning(t))
      ensures allowed == Admitted(config, old(View()), old(calls)[t])
    {
      var call := calls[t];
      allowed := RequestsUsed(call.scope) < Limit(config, call) && call.permitted;
      if allowed {
        lastAllowedAt := Some(clock);
        if call.scope.Some? {
          requestBudgets := requestBudgets[call.scope.value := RequestsUsed(call.scope) + 1];
        }
        admittedRequests := admittedRequests + 1;
        records := records + [Admission(Some(t), call.scope, Limit(config, call), clock)];
      }
      waiting := Settle(waiting, t);
    }
  }
}
