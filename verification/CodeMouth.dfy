/**
 The repair loop: propose, apply, verify, then keep the step or roll it back. Diagnostics measure progress.
 Everything behind a port (proposer, compiler, planner, clock) is an arbitrary function of what it is given.
 */
module CodeMouth {
  import opened Common
  import opened LineEdits

  /** A compiler finding. `path` is already in the spelling the loop compares: forward slashes, lower case. */
  datatype Diagnostic = Diagnostic(id: string, kind: string, path: Option<string>)

  datatype Verification = Verification(testsSucceeded: bool, diagnostics: seq<Diagnostic>)

  datatype Decision = Continue | StoppedRepeatedFailure | StoppedOtherwise

  datatype Outcome = Resolved | NoProposal | AwaitingSelection | Stopped | BudgetExhausted

  datatype Result = Result(outcome: Outcome, attempts: nat, finalDiagnostics: seq<Diagnostic>, applied: seq<Op>)

  datatype Ports<!C, !S> = Ports(
    retrieve: Files -> C,
    verify: Files -> Verification,
    propose: (C, seq<Diagnostic>, nat) -> Option<seq<Op>>,
    offered: nat -> bool,
    expired: nat -> bool,
    spelling: string -> string,
    createSession: nat -> S,
    permits: (S, seq<Diagnostic>, seq<Op>) -> bool,
    record: (S, seq<Diagnostic>, seq<Op>, Verification) -> (S, Decision),
    spent: S -> bool)

  // ---------------------------------------------------------------------------------------------------------
  // Which diagnostics count.

  predicate EndsWith(s: string, suffix: string) {
    |suffix| <= |s| && s[|s| - |suffix|..] == suffix
  }

  /** A missing path counts as the empty one. */
  function FileOf(d: Diagnostic): string {
    if d.path.Some? then d.path.value else ""
  }

  predicate InTouched(d: Diagnostic, touched: set<string>) {
    exists value :: value in touched && (EndsWith(FileOf(d), value) || EndsWith(value, FileOf(d)))
  }

  function OnlyTouched(ds: seq<Diagnostic>, touched: set<string>): seq<Diagnostic> {
    if ds == [] then []
    else (if InTouched(ds[0], touched) then [ds[0]] else []) + OnlyTouched(ds[1..], touched)
  }

  function Ids(ds: seq<Diagnostic>): set<string> {
    set d | d in ds :: d.id
  }

  function Kinds(ds: seq<Diagnostic>): set<string> {
    set d | d in ds :: d.kind
  }

  /** `patchResolvedTarget`. */
  predicate PatchResolved(before: seq<Diagnostic>, after: seq<Diagnostic>, touched: set<string>) {
    && (forall d :: d in after ==> !InTouched(d, touched))
    && (forall d :: d in after ==> d.id in Ids(before))
  }

  /** `patchReducedDiagnostics`. */
  predicate PatchReduced(before: seq<Diagnostic>, after: seq<Diagnostic>, touched: set<string>) {
    && (forall d :: d in after ==> d.kind in Kinds(before))
    && |OnlyTouched(after, touched)| < |OnlyTouched(before, touched)|
  }

  /** `diagnosticsForTarget`, for a target in compared spelling. */
  function ForTarget(ds: seq<Diagnostic>, target: string): seq<Diagnostic> {
    if ds == [] then []
    else
      var file := FileOf(ds[0]);
      var first := if file != "" && (EndsWith(file, target) || EndsWith(target, file)) then [ds[0]] else [];
      first + ForTarget(ds[1..], target)
  }

  /** A diagnostic without a path counts against every edit, whatever it touches. */
  lemma PathlessCountsEverywhere(d: Diagnostic, touched: set<string>)
    requires FileOf(d) == "" && touched != {}
    ensures InTouched(d, touched)
  {
    var value :| value in touched;
    assert EndsWith(value, "");
  }

  function Pathless(ds: seq<Diagnostic>): nat {
    if ds == [] then 0 else (if FileOf(ds[0]) == "" then 1 else 0) + Pathless(ds[1..])
  }

  /** The gate counts what the proposer is shown, and the pathless diagnostics it is not shown. */
  lemma {:induction false} GateCountsMore(ds: seq<Diagnostic>, target: string)
    ensures |OnlyTouched(ds, {target})| == |ForTarget(ds, target)| + Pathless(ds)
  {
    if ds != [] {
      GateCountsMore(ds[1..], target);
      if FileOf(ds[0]) == "" { PathlessCountsEverywhere(ds[0], {target}); }
    }
  }

  lemma {:induction false} OnlyTouchedEmpty(ds: seq<Diagnostic>, touched: set<string>)
    ensures OnlyTouched(ds, touched) == [] <==> forall d :: d in ds ==> !InTouched(d, touched)
  {
    if ds != [] {
      assert ds == [ds[0]] + ds[1..];
      OnlyTouchedEmpty(ds[1..], touched);
    }
  }

  /** When an id fixes its diagnostic, a resolving step that had something to resolve also counts as progress. */
  lemma ResolvedIsProgress(before: seq<Diagnostic>, after: seq<Diagnostic>, touched: set<string>)
    requires PatchResolved(before, after, touched)
    requires forall a, b :: a in after && b in before && a.id == b.id ==> a == b
    ensures PatchReduced(before, after, touched) <==> exists d :: d in before && InTouched(d, touched)
  {
    OnlyTouchedEmpty(after, touched);
    OnlyTouchedEmpty(before, touched);
    forall d | d in after
      ensures d.kind in Kinds(before)
    {
      var b :| b in before && b.id == d.id;
    }
  }

  lemma LettersEnd(a: char, b: char)
    ensures EndsWith([a], [b]) <==> a == b
  {
    assert [a][0..] == [a];
  }

  lemma OneDiagnostic(d: Diagnostic, c: char, touched: set<string>)
    requires d.path == Some([c])
    requires forall v :: v in touched ==> |v| == 1
    ensures OnlyTouched([d], touched) == if [c] in touched then [d] else []
    ensures InTouched(d, touched) <==> [c] in touched
  {
    assert [d][1..] == [];
    forall v | v in touched
      ensures (EndsWith([c], v) || EndsWith(v, [c])) <==> v == [c]
    {
      assert v == [v[0]];
      LettersEnd(c, v[0]);
      LettersEnd(v[0], c);
    }
  }

  /** A diagnostic outside the touched files in place of one inside is progress when the kind is the same. */
  lemma MovedOutIsReduced(d: Diagnostic, e: Diagnostic, c: char, c': char, touched: set<string>)
    requires d.path == Some([c]) && e.path == Some([c']) && d.kind == e.kind
    requires forall v :: v in touched ==> |v| == 1
    requires [c] in touched && [c'] !in touched
    ensures PatchReduced([d], [e], touched)
  {
    OneDiagnostic(d, c, touched);
    OneDiagnostic(e, c', touched);
    assert d in [d];
  }

  lemma KindsAndIdsOfOne(d: Diagnostic)
    ensures Kinds([d]) == {d.kind} && Ids([d]) == {d.id}
  {
    assert d in [d];
  }

  /** The resolving step compares ids: it lets a new kind through outside the touched files. */
  lemma ResolvedMayBringKind(here: Diagnostic, other: Diagnostic, c: char, touched: set<string>)
    requires here.id == other.id && here.kind != other.kind && other.path == Some([c])
    requires (forall v :: v in touched ==> |v| == 1) && [c] !in touched
    ensures PatchResolved([here], [other], touched) && !(Kinds([other]) <= Kinds([here]))
  {
    OneDiagnostic(other, c, touched);
    KindsAndIdsOfOne(here);
    KindsAndIdsOfOne(other);
    assert other.kind in Kinds([other]);
  }

  /** A kept step compares kinds: it lets a new id through. */
  lemma ReducedMayBringId(here: Diagnostic, moved: Diagnostic, c: char, c': char, touched: set<string>)
    requires here.path == Some([c]) && moved.path == Some([c']) && here.kind == moved.kind && here.id != moved.id
    requires (forall v :: v in touched ==> |v| == 1) && [c] in touched && [c'] !in touched
    ensures PatchReduced([here], [moved], touched) && !(Ids([moved]) <= Ids([here]))
  {
    MovedOutIsReduced(here, moved, c, c', touched);
    KindsAndIdsOfOne(here);
    KindsAndIdsOfOne(moved);
    assert moved.id in Ids([moved]);
  }

  // ---------------------------------------------------------------------------------------------------------
  // Chains of kept steps.

  function ApplyAll(files: Files, kept: seq<seq<Op>>): Files {
    if kept == [] then files else Apply(ApplyAll(files, kept[..|kept| - 1]), kept[|kept| - 1]).files
  }

  function Touched(spelling: string -> string, target: string, ops: seq<Op>): set<string> {
    {spelling(target)} + set op | op in ops :: spelling(op.path)
  }

  function DiagnosticsAt<C, S>(ports: Ports<C, S>, files: Files): seq<Diagnostic> {
    ports.verify(files).diagnostics
  }

  /** A kept step strictly reduced the diagnostics in the files it touched. */
  ghost predicate Reduces<C, S>(ports: Ports<C, S>, target: string, start: Files, kept: seq<seq<Op>>, i: nat)
    requires i < |kept|
  {
    PatchReduced(DiagnosticsAt(ports, ApplyAll(start, kept[..i])),
                 DiagnosticsAt(ports, ApplyAll(start, kept[..i + 1])),
                 Touched(ports.spelling, target, kept[i]))
  }

  ghost predicate Converging<C, S>(ports: Ports<C, S>, target: string, start: Files, kept: seq<seq<Op>>) {
    forall i: nat :: i < |kept| ==> Reduces(ports, target, start, kept, i)
  }

  /** The last kept step left nothing in the files it touched and no id that was absent before it. */
  ghost predicate EndsResolved<C, S>(ports: Ports<C, S>, target: string, start: Files, kept: seq<seq<Op>>) {
    var n := |kept| - 1;
    && n >= 0
    && Converging(ports, target, start, kept[..n])
    && PatchResolved(DiagnosticsAt(ports, ApplyAll(start, kept[..n])),
                     DiagnosticsAt(ports, ApplyAll(start, kept)),
                     Touched(ports.spelling, target, kept[n]))
    && ports.verify(ApplyAll(start, kept)).testsSucceeded
  }

  lemma ReducesPrefix<C, S>(ports: Ports<C, S>, target: string, start: Files, kept: seq<seq<Op>>, n: nat, i: nat)
    requires i < n <= |kept|
    ensures Reduces(ports, target, start, kept[..n], i) <==> Reduces(ports, target, start, kept, i)
  {
    hide PatchReduced, DiagnosticsAt, Touched, ApplyAll;
    assert kept[..n][..i] == kept[..i] && kept[..n][..i + 1] == kept[..i + 1];
  }

  /** Two touched sets that tell the diagnostics apart in the same way. */
  ghost predicate SameTouch(a: set<string>, b: set<string>) {
    forall d :: InTouched(d, a) <==> InTouched(d, b)
  }

  lemma {:induction false} SameTouchSameCount(ds: seq<Diagnostic>, a: set<string>, b: set<string>)
    requires SameTouch(a, b)
    ensures OnlyTouched(ds, a) == OnlyTouched(ds, b)
  {
    if ds != [] {
      assert InTouched(ds[0], a) <==> InTouched(ds[0], b);
      SameTouchSameCount(ds[1..], a, b);
    }
  }

  /** Proposals that edit the target file only touch exactly that file. */
  lemma TargetOnlyTouched(spelling: string -> string, target: string, ops: seq<Op>)
    requires forall op :: op in ops ==> spelling(op.path) == spelling(target)
    ensures Touched(spelling, target, ops) == {spelling(target)}
  {
  }

  // With different classifications progress is no measure.

  /** A diagnostic of the same kind in the target file, which every touched set holds. */
  function InTarget(d: Diagnostic, target: string): Diagnostic {
    d.(path := Some(target))
  }

  lemma TargetTouched(d: Diagnostic, target: string, touched: set<string>)
    requires target in touched
    ensures InTouched(InTarget(d, target), touched)
  {
    assert target[0..] == target;
    assert EndsWith(FileOf(InTarget(d, target)), target);
  }

  lemma OneOrTwo(d: Diagnostic, touched: set<string>)
    ensures |OnlyTouched([d], touched)| == if InTouched(d, touched) then 1 else 0
    ensures |OnlyTouched([d, d], touched)| == if InTouched(d, touched) then 2 else 0
    ensures Kinds([d]) == {d.kind} && Kinds([d, d]) == {d.kind}
  {
    assert [d][1..] == [] && [d, d][1..] == [d];
    assert d in [d] && d in [d, d];
  }

  /** Two diagnostics that only one step touches, against one that both touch: progress in both directions. */
  lemma TwoForOne(d: Diagnostic, e: Diagnostic, a: set<string>, b: set<string>)
    requires InTouched(d, a) && !InTouched(d, b) && InTouched(e, a) && InTouched(e, b) && e.kind == d.kind
    ensures PatchReduced([d, d], [e], a) && PatchReduced([e], [d, d], b)
  {
    OneOrTwo(d, a);
    OneOrTwo(d, b);
    OneOrTwo(e, a);
    OneOrTwo(e, b);
  }

  lemma CycleOf(d: Diagnostic, target: string, a: set<string>, b: set<string>)
    returns (x: seq<Diagnostic>, y: seq<Diagnostic>)
    requires target in a && target in b && InTouched(d, a) != InTouched(d, b)
    ensures PatchReduced(x, y, a) && PatchReduced(y, x, b)
  {
    var e := InTarget(d, target);
    TargetTouched(d, target, a);
    TargetTouched(d, target, b);
    hide InTouched;
    if InTouched(d, a) {
      x, y := [d, d], [e];
      TwoForOne(d, e, a, b);
    } else {
      x, y := [e], [d, d];
      TwoForOne(d, e, b, a);
    }
  }

  /** Two steps can each count as strict progress and lead back exactly when their touched sets classify differently. */
  lemma CycleIffTouchDiffers(target: string, a: set<string>, b: set<string>)
    requires target in a && target in b
    ensures (exists x, y :: PatchReduced(x, y, a) && PatchReduced(y, x, b))
            <==> exists d :: InTouched(d, a) != InTouched(d, b)
  {
    if d :| InTouched(d, a) != InTouched(d, b) {
      var x, y := CycleOf(d, target, a, b);
    } else {
      forall x, y | PatchReduced(x, y, a)
        ensures !PatchReduced(y, x, b)
      {
        SameTouchSameCount(x, a, b);
        SameTouchSameCount(y, a, b);
      }
    }
  }

  // ---------------------------------------------------------------------------------------------------------
  // The loop.

  lemma ConvergingSnoc<C, S>(ports: Ports<C, S>, target: string, start: Files, kept: seq<seq<Op>>, ops: seq<Op>)
    requires Converging(ports, target, start, kept)
    requires PatchReduced(DiagnosticsAt(ports, ApplyAll(start, kept)),
                          DiagnosticsAt(ports, Apply(ApplyAll(start, kept), ops).files),
                          Touched(ports.spelling, target, ops))
    ensures ApplyAll(start, kept + [ops]) == Apply(ApplyAll(start, kept), ops).files
    ensures Converging(ports, target, start, kept + [ops])
  {
    var longer := kept + [ops];
    assert longer[..|kept|] == kept && longer[..|kept| + 1] == longer;
    assert ApplyAll(start, longer) == Apply(ApplyAll(start, kept), ops).files;
    assert Reduces(ports, target, start, longer, |kept|);
    hide Reduces, ApplyAll, Apply;
    forall i: nat | i < |longer|
      ensures Reduces(ports, target, start, longer, i)
    {
      if i < |kept| {
        ReducesPrefix(ports, target, start, longer, |kept|, i);
      }
    }
  }

  datatype Verdict = Solves | Improves | Fails

  /** The gate's verdict on a proposal applied to `files`. */
  function Judge<C, S>(
    ports: Ports<C, S>, target: string, files: Files, diagnostics: seq<Diagnostic>, ops: seq<Op>): Verdict {
    var after := ports.verify(Apply(files, ops).files);
    var touched := Touched(ports.spelling, target, ops);
    if PatchResolved(diagnostics, after.diagnostics, touched) && after.testsSucceeded then Solves
    else if PatchReduced(diagnostics, after.diagnostics, touched) then Improves
    else Fails
  }

  /** What the loop knows at its head, or when it returns. */
  datatype Head<C> = Head(files: Files, diagnostics: seq<Diagnostic>, context: C)

  function FirstHead<C, S>(ports: Ports<C, S>, start: Files): Head<C> {
    Head(start, DiagnosticsAt(ports, start), ports.retrieve(start))
  }

  function JudgeAt<C, S>(ports: Ports<C, S>, target: string, h: Head<C>, ops: seq<Op>): Verdict {
    Judge(ports, target, h.files, h.diagnostics, ops)
  }

  /** What trying a proposal makes of it. */
  function NextHead<C, S>(ports: Ports<C, S>, target: string, h: Head<C>, ops: seq<Op>): Head<C> {
    var after := Apply(h.files, ops);
    match JudgeAt(ports, target, h, ops)
    case Solves => Head(after.files, DiagnosticsAt(ports, after.files), h.context)
    case Improves => Head(after.files, DiagnosticsAt(ports, after.files), ports.retrieve(after.files))
    case Fails => h.(files := Rollback(after))
  }

  function HeadAfter<C, S>(ports: Ports<C, S>, target: string, start: Files, tried: seq<seq<Op>>): Head<C> {
    if tried == [] then FirstHead(ports, start)
    else NextHead(ports, target, HeadAfter(ports, target, start, tried[..|tried| - 1]), tried[|tried| - 1])
  }

  /** The gate's verdict on the last proposal tried. */
  function LastVerdict<C, S>(ports: Ports<C, S>, target: string, start: Files, tried: seq<seq<Op>>): Verdict
    requires tried != []
  {
    JudgeAt(ports, target, HeadAfter(ports, target, start, tried[..|tried| - 1]), tried[|tried| - 1])
  }

  /** Of the proposals tried, those the gate did not reject. */
  function Kept<C, S>(ports: Ports<C, S>, target: string, start: Files, tried: seq<seq<Op>>): seq<seq<Op>> {
    if tried == [] then []
    else
      Kept(ports, target, start, tried[..|tried| - 1])
      + if LastVerdict(ports, target, start, tried) == Fails then [] else [tried[|tried| - 1]]
  }

  /** No proposal tried resolved the target. */
  predicate NoneSolved<C, S>(ports: Ports<C, S>, target: string, start: Files, tried: seq<seq<Op>>) {
    tried != [] ==>
      && LastVerdict(ports, target, start, tried) != Solves
      && NoneSolved(ports, target, start, tried[..|tried| - 1])
  }

  /** The workspace is the start with exactly the kept proposals applied; diagnostics and context are those of it. */
  predicate InStep<C(==), S>(ports: Ports<C, S>, target: string, start: Files, tried: seq<seq<Op>>) {
    var h := HeadAfter(ports, target, start, tried);
    && h.files == ApplyAll(start, Kept(ports, target, start, tried))
    && h.diagnostics == DiagnosticsAt(ports, h.files)
    && (NoneSolved(ports, target, start, tried) ==> h.context == ports.retrieve(h.files))
  }

  /** That holds at every loop head and at the end. */
  predicate AlwaysInStep<C(==), S>(ports: Ports<C, S>, target: string, start: Files, tried: seq<seq<Op>>) {
    InStep(ports, target, start, tried)
    && (tried != [] ==> AlwaysInStep(ports, target, start, tried[..|tried| - 1]))
  }

  /** Every rejected proposal touched only files that were there when it was tried. */
  predicate RejectsTouchPresent<C, S>(ports: Ports<C, S>, target: string, start: Files, tried: seq<seq<Op>>) {
    tried != [] ==>
      var before := tried[..|tried| - 1];
      && (LastVerdict(ports, target, start, tried) == Fails ==>
            Paths(tried[|tried| - 1]) <= HeadAfter(ports, target, start, before).files.Keys)
      && RejectsTouchPresent(ports, target, start, before)
  }

  /** One proposal more: the loop stays in step unless it was rejected and had created a file, and then it does not. */
  lemma TryInStepIff<C, S>(ports: Ports<C, S>, target: string, start: Files, tried: seq<seq<Op>>, ops: seq<Op>)
    requires InStep(ports, target, start, tried) && NoneSolved(ports, target, start, tried)
    ensures
      var h := HeadAfter(ports, target, start, tried);
      InStep(ports, target, start, tried + [ops])
      <==> (JudgeAt(ports, target, h, ops) == Fails ==> Paths(ops) <= h.files.Keys)
  {
    hide ApplyAll, Apply, Rollback, Judge, DiagnosticsAt, HeadAfter, Kept, NoneSolved, LastVerdict;
    var h := HeadAfter(ports, target, start, tried);
    AfterOneMore(ports, target, start, tried, ops);
    ApplyAllSnoc(start, Kept(ports, target, start, tried), ops);
    RollbackRestoresIffExisting(h.files, ops);
  }

  /** One proposal more, in terms of those before it. */
  lemma AfterOneMore<C, S>(ports: Ports<C, S>, target: string, start: Files, tried: seq<seq<Op>>, ops: seq<Op>)
    ensures
      var more := tried + [ops];
      var h, kept := HeadAfter(ports, target, start, tried), Kept(ports, target, start, tried);
      var verdict := JudgeAt(ports, target, h, ops);
      && HeadAfter(ports, target, start, more) == NextHead(ports, target, h, ops)
      && LastVerdict(ports, target, start, more) == verdict
      && Kept(ports, target, start, more) == (if verdict == Fails then kept else kept + [ops])
      && (NoneSolved(ports, target, start, more) <==> verdict != Solves && NoneSolved(ports, target, start, tried))
  {
    hide NextHead, JudgeAt;
    var more := tried + [ops];
    assert more[..|more| - 1] == tried && more[|more| - 1] == ops;
    assert Kept(ports, target, start, tried) + [] == Kept(ports, target, start, tried);
  }

  lemma ApplyAllSnoc(start: Files, kept: seq<seq<Op>>, ops: seq<Op>)
    ensures ApplyAll(start, kept + [ops]) == Apply(ApplyAll(start, kept), ops).files
  {
    assert (kept + [ops])[..|kept|] == kept;
  }

  /** The two conditions with one proposal more. */
  lemma AlwaysOneMore<C, S>(ports: Ports<C, S>, target: string, start: Files, before: seq<seq<Op>>, ops: seq<Op>)
    ensures
      var tried, h := before + [ops], HeadAfter(ports, target, start, before);
      && (AlwaysInStep(ports, target, start, tried)
          <==> InStep(ports, target, start, tried) && AlwaysInStep(ports, target, start, before))
      && (RejectsTouchPresent(ports, target, start, tried)
          <==> (JudgeAt(ports, target, h, ops) == Fails ==> Paths(ops) <= h.files.Keys)
               && RejectsTouchPresent(ports, target, start, before))
  {
    var tried := before + [ops];
    assert tried[..|tried| - 1] == before && tried[|tried| - 1] == ops;
    hide InStep, JudgeAt, HeadAfter;
  }

  lemma AlwaysNow<C, S>(ports: Ports<C, S>, target: string, start: Files, tried: seq<seq<Op>>)
    requires AlwaysInStep(ports, target, start, tried)
    ensures InStep(ports, target, start, tried)
  {
  }

  lemma LastNotSolved<C, S>(ports: Ports<C, S>, target: string, start: Files, tried: seq<seq<Op>>)
    ensures tried != [] && NoneSolved(ports, target, start, tried) ==>
      NoneSolved(ports, target, start, tried[..|tried| - 1]) && LastVerdict(ports, target, start, tried) != Solves
  {
  }

  lemma NothingTried<C, S>(ports: Ports<C, S>, target: string, start: Files)
    ensures AlwaysInStep(ports, target, start, []) && RejectsTouchPresent(ports, target, start, [])
    ensures NoneSolved(ports, target, start, []) && Kept(ports, target, start, []) == []
    ensures Converging(ports, target, start, [])
    ensures HeadAfter(ports, target, start, []).diagnostics == DiagnosticsAt(ports, start)
  {
  }

  /**
   At every head and at the end the loop is in step, whatever was rejected and rolled back, exactly when the rejected
   proposals touched only files that were there.
   */
  lemma {:induction false} InStepIffRejectsTouchPresent<C, S>(
    ports: Ports<C, S>, target: string, start: Files, tried: seq<seq<Op>>)
    requires tried != [] ==> NoneSolved(ports, target, start, tried[..|tried| - 1])
    ensures AlwaysInStep(ports, target, start, tried) <==> RejectsTouchPresent(ports, target, start, tried)
    decreases |tried|
  {
    hide *;
    if tried == [] {
      NothingTried(ports, target, start);
    } else {
      var before, ops := tried[..|tried| - 1], tried[|tried| - 1];
      assert tried == before + [ops];
      LastNotSolved(ports, target, start, before);
      InStepIffRejectsTouchPresent(ports, target, start, before);
      AlwaysOneMore(ports, target, start, before, ops);
      if AlwaysInStep(ports, target, start, before) {
        AlwaysNow(ports, target, start, before);
        TryInStepIff(ports, target, start, before, ops);
      }
    }
  }

  /** In step, the kept steps converge; and when the last one resolves the target, it ends the chain as such. */
  lemma {:induction false} InStepConverges<C, S>(
    ports: Ports<C, S>, target: string, start: Files, tried: seq<seq<Op>>)
    requires AlwaysInStep(ports, target, start, tried)
    ensures NoneSolved(ports, target, start, tried) ==>
              Converging(ports, target, start, Kept(ports, target, start, tried))
    ensures tried != [] && NoneSolved(ports, target, start, tried[..|tried| - 1])
            && LastVerdict(ports, target, start, tried) == Solves ==>
              EndsResolved(ports, target, start, Kept(ports, target, start, tried))
    decreases |tried|
  {
    hide *;
    if tried == [] {
      NothingTried(ports, target, start);
    } else {
      var before, ops := tried[..|tried| - 1], tried[|tried| - 1];
      assert tried == before + [ops];
      AlwaysOneMore(ports, target, start, before, ops);
      InStepConverges(ports, target, start, before);
      LastNotSolved(ports, target, start, tried);
      if NoneSolved(ports, target, start, before) {
        AlwaysNow(ports, target, start, before);
        TriedConverges(ports, target, start, before, ops);
      }
    }
  }

  lemma TriedConverges<C, S>(ports: Ports<C, S>, target: string, start: Files, before: seq<seq<Op>>, ops: seq<Op>)
    requires InStep(ports, target, start, before)
    requires Converging(ports, target, start, Kept(ports, target, start, before))
    ensures
      var tried := before + [ops];
      var kept := Kept(ports, target, start, tried);
      if LastVerdict(ports, target, start, tried) == Solves then EndsResolved(ports, target, start, kept)
      else Converging(ports, target, start, kept)
  {
    var tried := before + [ops];
    var kept := Kept(ports, target, start, before);
    var files := ApplyAll(start, kept);
    hide Converging, Reduces, ApplyAll, Apply, Touched, PatchReduced, PatchResolved, HeadAfter, Kept;
    hide LastVerdict, NoneSolved;
    AfterOneMore(ports, target, start, before, ops);
    ApplyAllSnoc(start, kept, ops);
    match LastVerdict(ports, target, start, tried)
    case Solves =>
      assert (kept + [ops])[..|kept|] == kept;
    case Improves =>
      ConvergingSnoc(ports, target, start, kept, ops);
    case Fails =>
  }

  // ---------------------------------------------------------------------------------------------------------
  // Progress along every run, in step or not: the loop compares the diagnostics it holds.

  lemma ImprovedHead<C, S>(ports: Ports<C, S>, target: string, h: Head<C>, ops: seq<Op>)
    ensures
      var next := NextHead(ports, target, h, ops).diagnostics;
      match JudgeAt(ports, target, h, ops)
      case Solves => PatchResolved(h.diagnostics, next, Touched(ports.spelling, target, ops))
      case Improves => PatchReduced(h.diagnostics, next, Touched(ports.spelling, target, ops))
      case Fails => next == h.diagnostics
  {
    hide Apply, Rollback, Touched, PatchReduced, PatchResolved;
  }

  lemma ReducedKinds(before: seq<Diagnostic>, after: seq<Diagnostic>, touched: set<string>)
    requires PatchReduced(before, after, touched)
    ensures Kinds(after) <= Kinds(before)
    ensures |OnlyTouched(after, touched)| < |OnlyTouched(before, touched)|
  {
  }

  /** No run brings in a kind of diagnostic that was not there at the start, before it solves its target. */
  lemma {:induction false} KindsNeverGrow<C, S>(ports: Ports<C, S>, target: string, start: Files, tried: seq<seq<Op>>)
    requires NoneSolved(ports, target, start, tried)
    ensures Kinds(HeadAfter(ports, target, start, tried).diagnostics) <= Kinds(DiagnosticsAt(ports, start))
    decreases |tried|
  {
    hide *;
    if tried == [] {
      NothingTried(ports, target, start);
    } else {
      var before, ops := tried[..|tried| - 1], tried[|tried| - 1];
      var h := HeadAfter(ports, target, start, before);
      LastNotSolved(ports, target, start, tried);
      assert tried == before + [ops];
      AfterOneMore(ports, target, start, before, ops);
      ImprovedHead(ports, target, h, ops);
      if JudgeAt(ports, target, h, ops) == Improves {
        ReducedKinds(h.diagnostics, HeadAfter(ports, target, start, tried).diagnostics,
                     Touched(ports.spelling, target, ops));
      }
      KindsNeverGrow(ports, target, start, before);
    }
  }

  /** The kept proposals' touched files all tell the diagnostics apart as `touched` does. */
  ghost predicate AllSameTouch<C, S>(ports: Ports<C, S>, target: string, kept: seq<seq<Op>>, touched: set<string>) {
    forall i :: 0 <= i < |kept| ==> SameTouch(Touched(ports.spelling, target, kept[i]), touched)
  }

  lemma AllSameTouchSnoc<C, S>(
    ports: Ports<C, S>, target: string, kept: seq<seq<Op>>, ops: seq<Op>, touched: set<string>)
    requires AllSameTouch(ports, target, kept + [ops], touched)
    ensures AllSameTouch(ports, target, kept, touched) && SameTouch(Touched(ports.spelling, target, ops), touched)
  {
    hide SameTouch, Touched;
    var longer := kept + [ops];
    assert longer[|kept|] == ops;
    assert forall i :: 0 <= i < |kept| ==> longer[i] == kept[i];
  }

  /**
   When the kept proposals' touched files tell the diagnostics apart in the same way, the count in those files falls
   with each of them: their number is bounded by the starting count in every run, without any ceiling on iterations.
   */
  lemma {:induction false} KeptStepsBounded<C, S>(
    ports: Ports<C, S>, target: string, start: Files, tried: seq<seq<Op>>, touched: set<string>)
    requires NoneSolved(ports, target, start, tried)
    requires AllSameTouch(ports, target, Kept(ports, target, start, tried), touched)
    ensures |Kept(ports, target, start, tried)|
            + |OnlyTouched(HeadAfter(ports, target, start, tried).diagnostics, touched)|
            <= |OnlyTouched(DiagnosticsAt(ports, start), touched)|
    decreases |tried|
  {
    hide *;
    if tried == [] {
      NothingTried(ports, target, start);
    } else {
      var before, ops := tried[..|tried| - 1], tried[|tried| - 1];
      var h, own := HeadAfter(ports, target, start, before), Touched(ports.spelling, target, ops);
      var kept := Kept(ports, target, start, before);
      LastNotSolved(ports, target, start, tried);
      assert tried == before + [ops];
      AfterOneMore(ports, target, start, before, ops);
      ImprovedHead(ports, target, h, ops);
      if JudgeAt(ports, target, h, ops) == Improves {
        var next := HeadAfter(ports, target, start, tried).diagnostics;
        ReducedKinds(h.diagnostics, next, own);
        AllSameTouchSnoc(ports, target, kept, ops, touched);
        SameTouchSameCount(h.diagnostics, own, touched);
        SameTouchSameCount(next, own, touched);
      }
      KeptStepsBounded(ports, target, start, before, touched);
    }
  }

  /** So no such run comes back to the diagnostics it started from, once it has kept a proposal. */
  lemma SameTouchNeverCycles<C, S>(
    ports: Ports<C, S>, target: string, start: Files, tried: seq<seq<Op>>, touched: set<string>)
    requires NoneSolved(ports, target, start, tried) && Kept(ports, target, start, tried) != []
    requires AllSameTouch(ports, target, Kept(ports, target, start, tried), touched)
    ensures HeadAfter(ports, target, start, tried).diagnostics != DiagnosticsAt(ports, start)
  {
    KeptStepsBounded(ports, target, start, tried, touched);
  }

  /**
   The cycle on real proposals: when two proposals' touched sets classify some diagnostic differently, there is a
   compiler under which the loop keeps both, one after the other, and holds the diagnostics of the start again.
   */
  lemma ProposalsMayCycle<C, S>(
    ports: Ports<C, S>, target: string, start: Files, first: seq<Op>, second: seq<Op>, d: Diagnostic)
    returns (compiler: Files -> Verification)
    requires
      var middle := Apply(start, first).files;
      middle != start && middle != Apply(middle, second).files
    requires
      InTouched(d, Touched(ports.spelling, target, first)) != InTouched(d, Touched(ports.spelling, target, second))
    ensures
      var cycling, tried := ports.(verify := compiler), [first, second];
      && NoneSolved(cycling, target, start, tried) && Kept(cycling, target, start, tried) == tried
      && HeadAfter(cycling, target, start, tried).diagnostics == DiagnosticsAt(cycling, start)
      && HeadAfter(cycling, target, start, tried).files == ApplyAll(start, tried)
  {
    var middle := Apply(start, first).files;
    var end := Apply(middle, second).files;
    var a, b := Touched(ports.spelling, target, first), Touched(ports.spelling, target, second);
    var x, y := CycleOf(d, ports.spelling(target), a, b);
    compiler := files => Verification(false, if files == middle then y else x);
    var cycling := ports.(verify := compiler);
    ImprovingTurn(cycling, target, FirstHead(cycling, start), first, y);
    var second' := Head(middle, y, cycling.retrieve(middle));
    ImprovingTurn(cycling, target, second', second, x);
    hide PatchReduced, Apply, ApplyAll, Touched, JudgeAt, NextHead;
    AfterOneMore(cycling, target, start, [], first);
    AfterOneMore(cycling, target, start, [first], second);
    assert [] + [first] == [first] && [first] + [second] == [first, second];
    NothingTried(cycling, target, start);
    hide *;
    TwoSteps(start, first, second);
  }

  /** A proposal that reduces the diagnostics without passing tests is kept. */
  lemma ImprovingTurn<C, S>(ports: Ports<C, S>, target: string, h: Head<C>, ops: seq<Op>, after: seq<Diagnostic>)
    requires ports.verify(Apply(h.files, ops).files) == Verification(false, after)
    requires PatchReduced(h.diagnostics, after, Touched(ports.spelling, target, ops))
    ensures JudgeAt(ports, target, h, ops) == Improves
    ensures
      var files := Apply(h.files, ops).files;
      NextHead(ports, target, h, ops) == Head(files, after, ports.retrieve(files))
  {
    hide Apply, Touched, PatchReduced, PatchResolved;
  }

  lemma TwoSteps(start: Files, first: seq<Op>, second: seq<Op>)
    ensures
      var kept := [first, second];
      && ApplyAll(start, kept[..0]) == start
      && ApplyAll(start, kept[..1]) == Apply(start, first).files
      && ApplyAll(start, kept[..2]) == ApplyAll(start, kept) == Apply(Apply(start, first).files, second).files
  {
    var kept := [first, second];
    assert kept[..2] == kept && kept[..1] == [first] && [first][..0] == [];
  }

  function Ceiling(maxAttempts: Option<nat>, starting: nat): nat {
    Max(4, if maxAttempts.Some? then maxAttempts.value else starting * 8)
  }

  /** Apply, verify, and undo the proposal if the gate finds no progress. */
  method TryProposal<C, S>(
    ws: Workspace, target: string, ports: Ports<C, S>, diagnostics: seq<Diagnostic>, ops: seq<Op>)
    returns (verdict: Verdict, verification: Verification)
    modifies ws
    ensures verdict == Judge(ports, target, old(ws.files), diagnostics, ops)
    ensures verification == ports.verify(Apply(old(ws.files), ops).files)
    ensures
      var after := Apply(old(ws.files), ops);
      ws.files == if verdict == Fails then Rollback(after) else after.files
  {
    var originals := ws.ApplyOperations(ops);
    verification := ports.verify(ws.files);
    var touched := Touched(ports.spelling, target, ops);
    if PatchResolved(diagnostics, verification.diagnostics, touched) && verification.testsSucceeded {
      verdict := Solves;
    } else if PatchReduced(diagnostics, verification.diagnostics, touched) {
      verdict := Improves;
    } else {
      verdict := Fails;
      ws.WriteBack(originals);
    }
  }

  // The loop on values.

  datatype Loop<C, S> = Loop(files: Files, diagnostics: seq<Diagnostic>, context: C, session: S, applied: seq<Op>)

  /** One turn of the loop: go round again, or return. */
  datatype Round<C, S> = Return(files: Files, result: Result) | Again(loop: Loop<C, S>)

  function RoundOf<C, S>(ports: Ports<C, S>, target: string, ceiling: nat, s: Loop<C, S>, attempt: nat): Round<C, S>
    requires 1 <= attempt
  {
    var ended := outcome => Return(s.files, Result(outcome, attempt - 1, s.diagnostics, s.applied));
    var proposal := ports.propose(s.context, ForTarget(s.diagnostics, ports.spelling(target)), attempt);
    if ports.expired(attempt) then ended(Stopped)
    else if proposal.None? || proposal.value == [] then
      ended(if ports.offered(attempt) then AwaitingSelection else NoProposal)
    else if !ports.permits(s.session, s.diagnostics, proposal.value) then ended(BudgetExhausted)
    else AttemptOf(ports, target, ceiling, s, attempt, proposal.value)
  }

  function AttemptOf<C, S>(
    ports: Ports<C, S>, target: string, ceiling: nat, s: Loop<C, S>, attempt: nat, ops: seq<Op>): Round<C, S>
  {
    var after := Apply(s.files, ops);
    var verification := ports.verify(after.files);
    var (session, decision) := ports.record(s.session, s.diagnostics, ops, verification);
    var renewed := ports.createSession(Max(1, ceiling - attempt));
    match Judge(ports, target, s.files, s.diagnostics, ops)
    case Solves => Return(after.files, Result(Resolved, attempt, verification.diagnostics, s.applied + ops))
    case Improves =>
      Again(Loop(after.files, verification.diagnostics, ports.retrieve(after.files), renewed, s.applied + ops))
    case Fails =>
      var back := Rollback(after);
      if decision == Continue || (decision == StoppedRepeatedFailure && attempt < ceiling) then
        Again(s.(files := back, session := if ports.spent(session) then renewed else session))
      else Return(back, Result(Stopped, attempt, s.diagnostics, s.applied))
  }

  function Repair<C, S>(ports: Ports<C, S>, target: string, ceiling: nat, s: Loop<C, S>, attempt: nat): (Files, Result)
    requires 1 <= attempt <= ceiling + 1
    decreases ceiling + 1 - attempt
  {
    if attempt > ceiling then (s.files, Result(BudgetExhausted, ceiling, s.diagnostics, s.applied))
    else
      match RoundOf(ports, target, ceiling, s, attempt)
      case Return(files, result) => (files, result)
      case Again(next) => Repair(ports, target, ceiling, next, attempt + 1)
  }

  function FirstLoop<C, S>(ports: Ports<C, S>, maxAttempts: Option<nat>, files: Files): Loop<C, S> {
    var diagnostics := ports.verify(files).diagnostics;
    Loop(files, diagnostics, ports.retrieve(files), ports.createSession(Ceiling(maxAttempts, |diagnostics|)), [])
  }

  function HeadOf<C, S>(s: Loop<C, S>): Head<C> {
    Head(s.files, s.diagnostics, s.context)
  }

  /** The part of a turn that follows a permitted proposal. */
  method Attempt<C, S>(
    ws: Workspace, target: string, ports: Ports<C, S>, ceiling: nat, attempt: nat, s: Loop<C, S>, ops: seq<Op>)
    returns (round: Round<C, S>)
    requires ws.files == s.files
    modifies ws
    ensures round == AttemptOf(ports, target, ceiling, s, attempt, ops)
    ensures ws.files == if round.Return? then round.files else round.loop.files
  {
    hide Judge, Apply, Rollback;
    var verdict, verification := TryProposal(ws, target, ports, s.diagnostics, ops);
    var (next, decision) := ports.record(s.session, s.diagnostics, ops, verification);
    if verdict == Solves {
      return Return(ws.files, Result(Resolved, attempt, verification.diagnostics, s.applied + ops));
    }
    if verdict == Improves {
      var session := ports.createSession(Max(1, ceiling - attempt));
      return Again(Loop(ws.files, verification.diagnostics, ports.retrieve(ws.files), session, s.applied + ops));
    }
    var session := next;
    if ports.spent(session) {
      session := ports.createSession(Max(1, ceiling - attempt));
    }
    var stalledWithHypothesesLeft := decision == StoppedRepeatedFailure && attempt < ceiling;
    if decision != Continue && !stalledWithHypothesesLeft {
      return Return(ws.files, Result(Stopped, attempt, s.diagnostics, s.applied));
    }
    round := Again(Loop(ws.files, s.diagnostics, s.context, session, s.applied));
  }

  /** One turn: ask for a proposal, and try it if there is one and the planner permits it. */
  method Turn<C, S>(ws: Workspace, target: string, ports: Ports<C, S>, ceiling: nat, attempt: nat, s: Loop<C, S>)
    returns (round: Round<C, S>, ghost proposed: Option<seq<Op>>)
    requires 1 <= attempt && ws.files == s.files
    modifies ws
    ensures round == RoundOf(ports, target, ceiling, s, attempt)
    ensures ws.files == if round.Return? then round.files else round.loop.files
    ensures TurnLogged(ports, target, s, attempt, round, proposed)
    ensures proposed == Trying(ports, target, s, attempt)
  {
    hide AttemptOf, TurnLogged;
    proposed := None;
    var outcome := Stopped;
    if !ports.expired(attempt) {
      var proposal := ports.propose(s.context, ForTarget(s.diagnostics, ports.spelling(target)), attempt);
      if proposal.None? || proposal.value == [] {
        outcome := if ports.offered(attempt) then AwaitingSelection else NoProposal;
      } else if !ports.permits(s.session, s.diagnostics, proposal.value) {
        outcome := BudgetExhausted;
      } else {
        round := Attempt(ws, target, ports, ceiling, attempt, s, proposal.value);
        proposed := proposal;
        AttemptLogs(ports, target, ceiling, s, attempt, proposal.value);
        return;
      }
    }
    round := Return(s.files, Result(outcome, attempt - 1, s.diagnostics, s.applied));
    NoAttemptLogs(ports, target, s, attempt, outcome);
  }

  /** The proposal a turn tries, if it does. */
  function Trying<C, S>(ports: Ports<C, S>, target: string, s: Loop<C, S>, attempt: nat): Option<seq<Op>> {
    var proposal := ports.propose(s.context, ForTarget(s.diagnostics, ports.spelling(target)), attempt);
    if ports.expired(attempt) || proposal.None? || proposal.value == []
       || !ports.permits(s.session, s.diagnostics, proposal.value) then None
    else proposal
  }

  /** What a turn did, in terms of the heads: it tried a proposal, or it returned at the head it found. */
  predicate TurnLogged<C(==), S>(
    ports: Ports<C, S>, target: string, s: Loop<C, S>, attempt: nat, round: Round<C, S>, proposed: Option<seq<Op>>)
  {
    var h := if proposed.Some? then NextHead(ports, target, HeadOf(s), proposed.value) else HeadOf(s);
    var verdict := if proposed.Some? then JudgeAt(ports, target, HeadOf(s), proposed.value) else Fails;
    var applied := if verdict == Fails then s.applied else s.applied + proposed.value;
    match round
    case Again(next) => proposed.Some? && verdict != Solves && HeadOf(next) == h && next.applied == applied
    case Return(files, result) =>
      && files == h.files && result.finalDiagnostics == h.diagnostics && result.applied == applied
      && (result.outcome == Resolved <==> verdict == Solves)
      && result.attempts == if proposed.Some? then attempt else attempt - 1
  }

  lemma AttemptLogs<C, S>(
    ports: Ports<C, S>, target: string, ceiling: nat, s: Loop<C, S>, attempt: nat, ops: seq<Op>)
    ensures TurnLogged(ports, target, s, attempt, AttemptOf(ports, target, ceiling, s, attempt, ops), Some(ops))
  {
    hide Judge, Apply, Rollback;
  }

  lemma NoAttemptLogs<C, S>(ports: Ports<C, S>, target: string, s: Loop<C, S>, attempt: nat, outcome: Outcome)
    requires outcome != Resolved && 1 <= attempt
    ensures TurnLogged(
              ports, target, s, attempt, Return(s.files, Result(outcome, attempt - 1, s.diagnostics, s.applied)), None)
  {
  }

  lemma RepairStep<C, S>(ports: Ports<C, S>, target: string, ceiling: nat, s: Loop<C, S>, attempt: nat)
    requires 1 <= attempt <= ceiling
    ensures
      var round := RoundOf(ports, target, ceiling, s, attempt);
      Repair(ports, target, ceiling, s, attempt)
      == if round.Return? then (round.files, round.result) else Repair(ports, target, ceiling, round.loop, attempt + 1)
  {
  }

  lemma RepairEnd<C, S>(ports: Ports<C, S>, target: string, ceiling: nat, s: Loop<C, S>)
    ensures Repair(ports, target, ceiling, s, ceiling + 1)
         == (s.files, Result(BudgetExhausted, ceiling, s.diagnostics, s.applied))
  {
  }

  /** A loop state and the proposals tried on the way to it. */
  predicate Reached<C(==), S>(ports: Ports<C, S>, target: string, start: Files, s: Loop<C, S>, tried: seq<seq<Op>>) {
    && HeadOf(s) == HeadAfter(ports, target, start, tried)
    && s.applied == Concat(Kept(ports, target, start, tried))
    && NoneSolved(ports, target, start, tried)
  }

  /** A result and the proposals tried on the way to it. */
  predicate EndReached<C(==), S>(
    ports: Ports<C, S>, target: string, start: Files, files: Files, result: Result, tried: seq<seq<Op>>)
  {
    var h := HeadAfter(ports, target, start, tried);
    && files == h.files && result.finalDiagnostics == h.diagnostics
    && result.applied == Concat(Kept(ports, target, start, tried))
    && result.attempts == |tried|
    && (tried != [] ==> NoneSolved(ports, target, start, tried[..|tried| - 1]))
    && (result.outcome == Resolved <==> tried != [] && LastVerdict(ports, target, start, tried) == Solves)
  }

  lemma TurnReaches<C, S>(
    ports: Ports<C, S>, target: string, start: Files, s: Loop<C, S>, tried: seq<seq<Op>>, round: Round<C, S>,
    proposed: Option<seq<Op>>)
    requires Reached(ports, target, start, s, tried)
    requires TurnLogged(ports, target, s, |tried| + 1, round, proposed)
    ensures
      var more := if proposed.Some? then tried + [proposed.value] else tried;
      match round
      case Again(next) => |more| == |tried| + 1 && Reached(ports, target, start, next, more)
      case Return(files, result) => EndReached(ports, target, start, files, result, more)
  {
    hide NextHead, JudgeAt, HeadAfter, Kept, LastVerdict;
    if proposed.Some? {
      var more := tried + [proposed.value];
      assert more[..|more| - 1] == tried;
      AfterOneMore(ports, target, start, tried, proposed.value);
      ConcatAppend(Kept(ports, target, start, tried), proposed.value);
    } else {
      LastNotSolved(ports, target, start, tried);
    }
  }

  lemma CeilingReaches<C, S>(
    ports: Ports<C, S>, target: string, start: Files, s: Loop<C, S>, tried: seq<seq<Op>>, result: Result)
    requires Reached(ports, target, start, s, tried)
    requires result == Result(BudgetExhausted, |tried|, s.diagnostics, s.applied)
    ensures EndReached(ports, target, start, s.files, result, tried)
  {
    LastNotSolved(ports, target, start, tried);
  }

  lemma FirstReached<C, S>(ports: Ports<C, S>, target: string, maxAttempts: Option<nat>, start: Files)
    ensures Reached(ports, target, start, FirstLoop(ports, maxAttempts, start), [])
  {
  }

  method Begin<C, S>(ws: Workspace, ports: Ports<C, S>, maxAttempts: Option<nat>) returns (s: Loop<C, S>, ceiling: nat)
    ensures s == FirstLoop(ports, maxAttempts, ws.files) && s.files == ws.files
    ensures ceiling == Ceiling(maxAttempts, |DiagnosticsAt(ports, ws.files)|)
  {
    var diagnostics := ports.verify(ws.files).diagnostics;
    ceiling := Ceiling(maxAttempts, |diagnostics|);
    s := Loop(ws.files, diagnostics, ports.retrieve(ws.files), ports.createSession(ceiling), []);
  }

  // ---------------------------------------------------------------------------------------------------------
  // When a run ends and how, from the proposals tried: sessions and decisions are a fold over them.

  /** What recording the last proposal tried gives: the session, and the planner's decision. */
  function Recorded<C, S>(
    ports: Ports<C, S>, target: string, ceiling: nat, start: Files, tried: seq<seq<Op>>): (S, Decision)
    requires tried != []
    decreases |tried|, 0
  {
    var before, ops := tried[..|tried| - 1], tried[|tried| - 1];
    var h := HeadAfter(ports, target, start, before);
    ports.record(SessionAfter(ports, target, ceiling, start, before), h.diagnostics, ops,
                 ports.verify(Apply(h.files, ops).files))
  }

  /** The session behind these proposals: a new one after a kept one, or when a rejected one has spent it. */
  function SessionAfter<C, S>(ports: Ports<C, S>, target: string, ceiling: nat, start: Files, tried: seq<seq<Op>>): S
    decreases |tried|, 1
  {
    if tried == [] then ports.createSession(ceiling)
    else
      var session := Recorded(ports, target, ceiling, start, tried).0;
      var verdict := LastVerdict(ports, target, start, tried);
      if verdict == Improves || (verdict == Fails && ports.spent(session)) then
        ports.createSession(Max(1, ceiling - |tried|))
      else session
  }

  /** The last proposal failed, and the planner neither goes on nor reports a stall with attempts left. */
  predicate GivesUp<C, S>(ports: Ports<C, S>, target: string, ceiling: nat, start: Files, tried: seq<seq<Op>>) {
    tried != [] && LastVerdict(ports, target, start, tried) == Fails &&
    match Recorded(ports, target, ceiling, start, tried).1
    case Continue => false
    case StoppedRepeatedFailure => |tried| >= ceiling
    case StoppedOtherwise => true
  }

  /** What the proposer answers at the head behind these proposals. */
  function Answer<C, S>(ports: Ports<C, S>, target: string, start: Files, tried: seq<seq<Op>>): Option<seq<Op>> {
    var h := HeadAfter(ports, target, start, tried);
    ports.propose(h.context, ForTarget(h.diagnostics, ports.spelling(target)), |tried| + 1)
  }

  predicate Nothing(answer: Option<seq<Op>>) {
    answer == None || answer == Some([])
  }

  predicate Permitted<C, S>(
    ports: Ports<C, S>, target: string, ceiling: nat, start: Files, tried: seq<seq<Op>>, ops: seq<Op>)
  {
    var h := HeadAfter(ports, target, start, tried);
    ports.permits(SessionAfter(ports, target, ceiling, start, tried), h.diagnostics, ops)
  }

  /** Behind these proposals there is another attempt to be made, and time for it. */
  predicate GoesOn<C, S>(ports: Ports<C, S>, target: string, ceiling: nat, start: Files, tried: seq<seq<Op>>) {
    && (tried != [] ==> LastVerdict(ports, target, start, tried) != Solves)
    && !GivesUp(ports, target, ceiling, start, tried)
    && |tried| < ceiling && !ports.expired(|tried| + 1)
  }

  /** Each proposal tried is the answer at its head, permitted, with the run going on there. */
  predicate Attempted<C, S>(ports: Ports<C, S>, target: string, ceiling: nat, start: Files, tried: seq<seq<Op>>) {
    forall i :: 0 <= i < |tried| ==> TriedNext(ports, target, ceiling, start, tried[..i], tried[i])
  }

  predicate TriedNext<C, S>(
    ports: Ports<C, S>, target: string, ceiling: nat, start: Files, tried: seq<seq<Op>>, ops: seq<Op>)
  {
    && GoesOn(ports, target, ceiling, start, tried)
    && ops != [] && Answer(ports, target, start, tried) == Some(ops)
    && Permitted(ports, target, ceiling, start, tried, ops)
  }

  /**
   The five ways to end, each exactly when: the last proposal solved the target; the planner gave up or the time was
   over; nothing was proposed, with or without fixes on offer; the planner refused or the attempts were used up.
   */
  predicate EndsAs<C, S>(
    ports: Ports<C, S>, target: string, ceiling: nat, start: Files, tried: seq<seq<Op>>, outcome: Outcome)
  {
    var solved := tried != [] && LastVerdict(ports, target, start, tried) == Solves;
    var givesUp := GivesUp(ports, target, ceiling, start, tried);
    var timely := GoesOn(ports, target, ceiling, start, tried);
    var answer := Answer(ports, target, start, tried);
    && (outcome == Resolved <==> solved)
    && (outcome == Stopped <==> givesUp || (!solved && |tried| < ceiling && ports.expired(|tried| + 1)))
    && (outcome == AwaitingSelection <==> timely && Nothing(answer) && ports.offered(|tried| + 1))
    && (outcome == NoProposal <==> timely && Nothing(answer) && !ports.offered(|tried| + 1))
    && (outcome == BudgetExhausted <==>
          || (timely && !Nothing(answer) && !Permitted(ports, target, ceiling, start, tried, answer.value))
          || (!solved && !givesUp && |tried| >= ceiling))
  }

  /** The state of the loop is the fold's, and its last proposal neither solved the target nor made it give up. */
  predicate InFold<C, S(==)>(
    ports: Ports<C, S>, target: string, ceiling: nat, start: Files, s: Loop<C, S>, tried: seq<seq<Op>>)
  {
    && s.session == SessionAfter(ports, target, ceiling, start, tried)
    && !GivesUp(ports, target, ceiling, start, tried)
    && Attempted(ports, target, ceiling, start, tried)
  }

  lemma RecordedSnoc<C, S>(
    ports: Ports<C, S>, target: string, ceiling: nat, start: Files, tried: seq<seq<Op>>, ops: seq<Op>)
    ensures
      var h := HeadAfter(ports, target, start, tried);
      Recorded(ports, target, ceiling, start, tried + [ops])
      == ports.record(SessionAfter(ports, target, ceiling, start, tried), h.diagnostics, ops,
                      ports.verify(Apply(h.files, ops).files))
  {
    var more := tried + [ops];
    assert more[..|more| - 1] == tried && more[|more| - 1] == ops;
  }

  lemma AttemptedSnoc<C, S>(
    ports: Ports<C, S>, target: string, ceiling: nat, start: Files, tried: seq<seq<Op>>, ops: seq<Op>)
    requires Attempted(ports, target, ceiling, start, tried) && TriedNext(ports, target, ceiling, start, tried, ops)
    ensures Attempted(ports, target, ceiling, start, tried + [ops])
  {
    hide TriedNext;
    var more := tried + [ops];
    forall i | 0 <= i < |more|
      ensures TriedNext(ports, target, ceiling, start, more[..i], more[i])
    {
      if i < |tried| {
        assert more[..i] == tried[..i] && more[i] == tried[i];
      } else {
        assert more[..i] == tried;
      }
    }
  }

  /** A turn that tries nothing ends the run for the reason the fold gives. */
  lemma NothingTriedEnds<C, S>(
    ports: Ports<C, S>, target: string, ceiling: nat, start: Files, s: Loop<C, S>, tried: seq<seq<Op>>)
    requires Reached(ports, target, start, s, tried) && InFold(ports, target, ceiling, start, s, tried)
    requires |tried| < ceiling && Trying(ports, target, s, |tried| + 1).None?
    ensures
      var round := RoundOf(ports, target, ceiling, s, |tried| + 1);
      round.Return? && EndsAs(ports, target, ceiling, start, tried, round.result.outcome)
    ensures Attempted(ports, target, ceiling, start, tried)
  {
    LastNotSolved(ports, target, start, tried);
    hide HeadAfter, SessionAfter, GivesUp, Attempted, LastVerdict, ForTarget, Kept;
  }

  lemma TryingIsNext<C, S>(
    ports: Ports<C, S>, target: string, ceiling: nat, start: Files, s: Loop<C, S>, tried: seq<seq<Op>>, ops: seq<Op>)
    requires Reached(ports, target, start, s, tried) && InFold(ports, target, ceiling, start, s, tried)
    requires |tried| < ceiling && Trying(ports, target, s, |tried| + 1) == Some(ops)
    ensures TriedNext(ports, target, ceiling, start, tried, ops)
    ensures Attempted(ports, target, ceiling, start, tried)
  {
    LastNotSolved(ports, target, start, tried);
    hide HeadAfter, SessionAfter, GivesUp, Attempted, LastVerdict, ForTarget, Kept;
  }

  /** What one more proposal does to the session, and whether the planner gives up on it. */
  lemma FoldSnoc<C, S>(
    ports: Ports<C, S>, target: string, ceiling: nat, start: Files, tried: seq<seq<Op>>, ops: seq<Op>)
    ensures
      var more := tried + [ops];
      var (session, decision) := Recorded(ports, target, ceiling, start, more);
      var verdict := LastVerdict(ports, target, start, more);
      && SessionAfter(ports, target, ceiling, start, more)
         == (if verdict == Improves || (verdict == Fails && ports.spent(session)) then
               ports.createSession(Max(1, ceiling - |more|))
             else session)
      && (GivesUp(ports, target, ceiling, start, more) <==>
            verdict == Fails && decision != Continue && !(decision == StoppedRepeatedFailure && |more| < ceiling))
  {
    hide Recorded, LastVerdict;
  }

  /** The turn of a proposal that is tried, by its verdict and what is recorded. */
  lemma RoundTries<C, S>(
    ports: Ports<C, S>, target: string, ceiling: nat, s: Loop<C, S>, attempt: nat, ops: seq<Op>)
    requires 1 <= attempt && Trying(ports, target, s, attempt) == Some(ops)
    ensures
      var (session, decision) := ports.record(s.session, s.diagnostics, ops, ports.verify(Apply(s.files, ops).files));
      var renewed := ports.createSession(Max(1, ceiling - attempt));
      match RoundOf(ports, target, ceiling, s, attempt)
      case Return(_, result) =>
        if JudgeAt(ports, target, HeadOf(s), ops) == Solves then result.outcome == Resolved
        else
          && JudgeAt(ports, target, HeadOf(s), ops) == Fails && result.outcome == Stopped
          && decision != Continue && !(decision == StoppedRepeatedFailure && attempt < ceiling)
      case Again(next) =>
        if JudgeAt(ports, target, HeadOf(s), ops) == Improves then next.session == renewed
        else
          && JudgeAt(ports, target, HeadOf(s), ops) == Fails
          && next.session == (if ports.spent(session) then renewed else session)
          && (decision == Continue || (decision == StoppedRepeatedFailure && attempt < ceiling))
  {
    hide Judge, Apply, Rollback, ForTarget;
  }

  /** A proposal that solves the target, or on which the planner gives up, is the end; the five ways are apart. */
  lemma EndsOnProposal<C, S>(
    ports: Ports<C, S>, target: string, ceiling: nat, start: Files, tried: seq<seq<Op>>)
    requires tried != []
    ensures LastVerdict(ports, target, start, tried) == Solves ==>
      EndsAs(ports, target, ceiling, start, tried, Resolved)
    ensures GivesUp(ports, target, ceiling, start, tried) ==> EndsAs(ports, target, ceiling, start, tried, Stopped)
  {
    hide HeadAfter, SessionAfter, LastVerdict, Answer, Permitted, Recorded;
  }

  lemma ReachedHead<C, S>(ports: Ports<C, S>, target: string, start: Files, s: Loop<C, S>, tried: seq<seq<Op>>)
    requires Reached(ports, target, start, s, tried)
    ensures HeadOf(s) == HeadAfter(ports, target, start, tried)
    ensures
      var h := HeadAfter(ports, target, start, tried);
      h.files == s.files && h.diagnostics == s.diagnostics
  {
  }

  lemma InFoldSession<C, S>(
    ports: Ports<C, S>, target: string, ceiling: nat, start: Files, s: Loop<C, S>, tried: seq<seq<Op>>)
    ensures InFold(ports, target, ceiling, start, s, tried) <==>
      && s.session == SessionAfter(ports, target, ceiling, start, tried)
      && !GivesUp(ports, target, ceiling, start, tried) && Attempted(ports, target, ceiling, start, tried)
  {
  }

  /** A turn that tries a proposal goes on or ends as the fold says. */
  lemma TriedFolds<C, S>(
    ports: Ports<C, S>, target: string, ceiling: nat, start: Files, s: Loop<C, S>, tried: seq<seq<Op>>, ops: seq<Op>)
    requires Reached(ports, target, start, s, tried) && InFold(ports, target, ceiling, start, s, tried)
    requires |tried| < ceiling && Trying(ports, target, s, |tried| + 1) == Some(ops)
    ensures
      var more := tried + [ops];
      Attempted(ports, target, ceiling, start, more) &&
      match RoundOf(ports, target, ceiling, s, |tried| + 1)
      case Again(next) => InFold(ports, target, ceiling, start, next, more)
      case Return(_, result) => EndsAs(ports, target, ceiling, start, more, result.outcome)
  {
    hide *;
    var more := tried + [ops];
    TryingIsNext(ports, target, ceiling, start, s, tried, ops);
    AttemptedSnoc(ports, target, ceiling, start, tried, ops);
    AfterOneMore(ports, target, start, tried, ops);
    RecordedSnoc(ports, target, ceiling, start, tried, ops);
    FoldSnoc(ports, target, ceiling, start, tried, ops);
    ReachedHead(ports, target, start, s, tried);
    InFoldSession(ports, target, ceiling, start, s, tried);
    RoundTries(ports, target, ceiling, s, |tried| + 1, ops);
    EndsOnProposal(ports, target, ceiling, start, more);
    match RoundOf(ports, target, ceiling, s, |tried| + 1)
    case Again(next) => InFoldSession(ports, target, ceiling, start, next, more);
    case Return(_, _) =>
  }

  lemma CeilingEnds<C, S>(
    ports: Ports<C, S>, target: string, ceiling: nat, start: Files, s: Loop<C, S>, tried: seq<seq<Op>>)
    requires Reached(ports, target, start, s, tried) && InFold(ports, target, ceiling, start, s, tried)
    requires |tried| == ceiling
    ensures Attempted(ports, target, ceiling, start, tried)
    ensures EndsAs(ports, target, ceiling, start, tried, BudgetExhausted)
  {
    LastNotSolved(ports, target, start, tried);
    hide HeadAfter, SessionAfter, GivesUp, Attempted, LastVerdict;
  }

  lemma FirstInFold<C, S>(ports: Ports<C, S>, target: string, maxAttempts: Option<nat>, start: Files)
    ensures
      var ceiling := Ceiling(maxAttempts, |DiagnosticsAt(ports, start)|);
      InFold(ports, target, ceiling, start, FirstLoop(ports, maxAttempts, start), [])
  {
  }

  /** The attempts are used up after four, and after as many as the caller allows or eight for each diagnostic. */
  lemma CeilingMeans(maxAttempts: Option<nat>, diagnostics: nat, n: nat)
    ensures n >= Ceiling(maxAttempts, diagnostics) <==>
      n >= 4 && match maxAttempts case Some(m) => n >= m case None => n >= 8 * diagnostics
  {
  }

  /** What the verdicts mean, diagnostic by diagnostic. */
  lemma VerdictMeans<C, S>(ports: Ports<C, S>, target: string, h: Head<C>, ops: seq<Op>)
    ensures
      var after := ports.verify(Apply(h.files, ops).files);
      var touched := Touched(ports.spelling, target, ops);
      var solves := after.testsSucceeded && forall d :: d in after.diagnostics ==>
        !InTouched(d, touched) && exists b :: b in h.diagnostics && b.id == d.id;
      var improves := |OnlyTouched(after.diagnostics, touched)| < |OnlyTouched(h.diagnostics, touched)| &&
        forall d :: d in after.diagnostics ==> exists b :: b in h.diagnostics && b.kind == d.kind;
      && (JudgeAt(ports, target, h, ops) == Solves <==> solves)
      && (JudgeAt(ports, target, h, ops) == Fails <==> !solves && !improves)
  {
    hide OnlyTouched, InTouched, Touched, Apply;
  }

  /** The whole run on values, with the proposals tried; `RunKeepsGuarantee` says what it comes to. */
  method RunCodeMouth<C, S>(ws: Workspace, target: string, ports: Ports<C, S>, maxAttempts: Option<nat>)
    returns (result: Result, ghost tried: seq<seq<Op>>)
    modifies ws
    ensures (ws.files, result) == Repair(ports, target, Ceiling(maxAttempts, |DiagnosticsAt(ports, old(ws.files))|),
                                         FirstLoop(ports, maxAttempts, old(ws.files)), 1)
    ensures EndReached(ports, target, old(ws.files), ws.files, result, tried)
    ensures |tried| <= Ceiling(maxAttempts, |DiagnosticsAt(ports, old(ws.files))|)
    ensures Guaranteed(ports, target, old(ws.files), ws.files, result, tried)
    ensures
      var ceiling := Ceiling(maxAttempts, |DiagnosticsAt(ports, old(ws.files))|);
      && Attempted(ports, target, ceiling, old(ws.files), tried)
      && EndsAs(ports, target, ceiling, old(ws.files), tried, result.outcome)
  {
    hide *;
    ghost var start := ws.files;
    var s, ceiling := Begin(ws, ports, maxAttempts);
    tried := [];
    FirstReached(ports, target, maxAttempts, start);
    FirstInFold(ports, target, maxAttempts, start);
    for attempt := 1 to ceiling + 1
      invariant ws.files == s.files && |tried| == attempt - 1 && Reached(ports, target, start, s, tried)
      invariant InFold(ports, target, ceiling, start, s, tried)
      invariant Repair(ports, target, ceiling, FirstLoop(ports, maxAttempts, start), 1)
             == Repair(ports, target, ceiling, s, attempt)
    {
      var round;
      ghost var proposed;
      RepairStep(ports, target, ceiling, s, attempt);
      round, proposed := Turn(ws, target, ports, ceiling, attempt, s);
      TurnReaches(ports, target, start, s, tried, round, proposed);
      if proposed.Some? {
        TriedFolds(ports, target, ceiling, start, s, tried, proposed.value);
      } else {
        NothingTriedEnds(ports, target, ceiling, start, s, tried);
      }
      tried := if proposed.Some? then tried + [proposed.value] else tried;
      if round.Return? {
        result := round.result;
        RunKeepsGuarantee(ports, target, start, ws.files, result, tried);
        return;
      }
      s := round.loop;
    }
    result := Result(BudgetExhausted, ceiling, s.diagnostics, s.applied);
    RepairEnd(ports, target, ceiling, s);
    CeilingReaches(ports, target, start, s, tried, result);
    CeilingEnds(ports, target, ceiling, start, s, tried);
    RunKeepsGuarantee(ports, target, start, ws.files, result, tried);
  }

  /** The proposals tried without the last one, if that solved the target. */
  function Unsolved<C, S>(ports: Ports<C, S>, target: string, start: Files, tried: seq<seq<Op>>): seq<seq<Op>> {
    if tried != [] && LastVerdict(ports, target, start, tried) == Solves then tried[..|tried| - 1] else tried
  }

  /** What holds of the diagnostics in every run: kinds never grow, and equal classification bounds the kept steps. */
  ghost predicate Progresses<C, S>(ports: Ports<C, S>, target: string, start: Files, tried: seq<seq<Op>>) {
    var first, last := DiagnosticsAt(ports, start), HeadAfter(ports, target, start, tried).diagnostics;
    && Kinds(last) <= Kinds(first)
    && forall touched :: AllSameTouch(ports, target, Kept(ports, target, start, tried), touched) ==>
         |Kept(ports, target, start, tried)| + |OnlyTouched(last, touched)| <= |OnlyTouched(first, touched)|
  }

  lemma RunProgresses<C, S>(ports: Ports<C, S>, target: string, start: Files, tried: seq<seq<Op>>)
    requires NoneSolved(ports, target, start, tried)
    ensures Progresses(ports, target, start, tried)
  {
    KindsNeverGrow(ports, target, start, tried);
    hide Kinds, OnlyTouched, HeadAfter, Kept, AllSameTouch, NoneSolved, DiagnosticsAt;
    forall touched | AllSameTouch(ports, target, Kept(ports, target, start, tried), touched)
      ensures |Kept(ports, target, start, tried)|
              + |OnlyTouched(HeadAfter(ports, target, start, tried).diagnostics, touched)|
              <= |OnlyTouched(DiagnosticsAt(ports, start), touched)|
    {
      KeptStepsBounded(ports, target, start, tried, touched);
    }
  }

  /**
   What the loop guarantees: up to a resolving end its diagnostics progress; it is in step throughout exactly when
   rejected proposals touched only present files; and then the files are the start with the kept proposals applied, the
   result's diagnostics are theirs, the kept steps converge, and a resolved end leaves nothing in the touched files and
   no new id.
   */
  ghost predicate Guaranteed<C, S>(
    ports: Ports<C, S>, target: string, start: Files, files: Files, result: Result, tried: seq<seq<Op>>)
  {
    var kept := Kept(ports, target, start, tried);
    && Progresses(ports, target, start, Unsolved(ports, target, start, tried))
    && (AlwaysInStep(ports, target, start, tried) <==> RejectsTouchPresent(ports, target, start, tried))
    && (RejectsTouchPresent(ports, target, start, tried) ==>
          && files == ApplyAll(start, kept) && result.finalDiagnostics == DiagnosticsAt(ports, files)
          && if result.outcome == Resolved then EndsResolved(ports, target, start, kept)
             else Converging(ports, target, start, kept))
  }

  lemma UnsolvedNotSolved<C, S>(ports: Ports<C, S>, target: string, start: Files, tried: seq<seq<Op>>)
    requires tried != [] ==> NoneSolved(ports, target, start, tried[..|tried| - 1])
    ensures NoneSolved(ports, target, start, Unsolved(ports, target, start, tried))
  {
    hide LastVerdict;
  }

  lemma RunKeepsGuarantee<C, S>(
    ports: Ports<C, S>, target: string, start: Files, files: Files, result: Result, tried: seq<seq<Op>>)
    requires EndReached(ports, target, start, files, result, tried)
    ensures Guaranteed(ports, target, start, files, result, tried)
  {
    UnsolvedNotSolved(ports, target, start, tried);
    RunProgresses(ports, target, start, Unsolved(ports, target, start, tried));
    InStepIffRejectsTouchPresent(ports, target, start, tried);
    if AlwaysInStep(ports, target, start, tried) {
      InStepConverges(ports, target, start, tried);
    }
    hide HeadAfter, Kept, Converging, EndsResolved, ApplyAll, Progresses, Unsolved;
  }
}
