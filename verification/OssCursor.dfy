/**
 Training a repository snapshot over many bounded runs. A run considers a window of files from its start index,
 trains the selected projections of each, and reports the index the next run starts at.
 */
module OssCursor {
  import opened Common
  import opened Training

  /** One text derived from a file; `blank` when it trims to nothing. */
  datatype Projection = Projection(input: Input, blank: bool)

  datatype System = Docs | Code

  /** `system` is `None` for files that are no language training material. */
  datatype File = File(system: Option<System>, verbatim: Projection, surface: Projection, prose: Projection)

  datatype Options = Options(includeDocs: bool, includeSource: bool, maxFilesPerRun: nat)

  function Projections(file: File, o: Options): seq<Projection> {
    match file.system
    case None => []
    case Some(Docs) => if o.includeDocs then [file.verbatim] else []
    case Some(Code) =>
      if !o.includeSource then [] else [file.surface] + (if o.includeDocs then [file.prose] else [])
  }

  /** The projections that are trained: selected and not blank. */
  function Work(projections: seq<Projection>): seq<Input> {
    if projections == [] then []
    else (if projections[0].blank then [] else [projections[0].input]) + Work(projections[1..])
  }

  function WorkOf(file: File, o: Options): seq<Input> {
    Work(Projections(file, o))
  }

  // ---------------------------------------------------------------------------------------------------------
  // One file.

  /** `Thrown` is a conflict; `Died` is any other end of the run inside the file: a crash, or a rejection not caught. */
  datatype FileResult = Completed | Incomplete | Thrown | Died

  /** How far a call got in which the run ended. */
  datatype Death = BeforeMark | AfterMark | AfterCommit(report: Report)

  datatype CallFate = Lives(fate: Fate) | Dies(death: Death)

  /** The storage a dying call leaves: that of a call that fails where it died. */
  function LeftBehind(store: Store, input: Input, death: Death): Store {
    match death
    case BeforeMark => store
    case AfterMark => Train(store, input, PreparationFails).0
    case AfterCommit(report) => Train(store, input, CommitsUnacknowledged(report)).0
  }

  /** One projection: train it, and look for a committed checkpoint when training raised an error. */
  function TrainOne(store: Store, input: Input, fate: CallFate): (Store, FileResult) {
    if fate.Dies? then (LeftBehind(store, input, fate.death), Died) else TrainAlive(store, input, fate.fate)
  }

  function TrainAlive(store: Store, input: Input, fate: Fate): (Store, FileResult) {
    var (after, result) := Train(store, input, fate);
    match result
    case Reported(_) => (after, Completed)
    case ConflictError => (after, Thrown)
    case Error =>
      match ReadCompleted(after, input)
      case Reported(_) => (after, Completed)
      case ConflictError => (after, Thrown)
      case Error => (after, Incomplete)
  }

  /** The projections in order; the first failure ends the file. `fates(j)` is what happens to the j-th call. */
  function TrainFile(store: Store, work: seq<Input>, fates: nat -> CallFate, j: nat): (Store, FileResult)
    requires j <= |work|
    decreases |work| - j
  {
    if j == |work| then (store, Completed)
    else
      var (after, result) := TrainOne(store, work[j], fates(j));
      if result == Completed then TrainFile(after, work, fates, j + 1) else (after, result)
  }

  lemma TrainOneSafe(store: Store, input: Input, fate: CallFate)
    requires Sound(store) && RowsWritten(store)
    ensures
      var (after, result) := TrainOne(store, input, fate);
      && Sound(after) && RowsWritten(after) && Forward(store, after)
      && (result == Completed ==> Trained(after, input))
      && (result == Incomplete ==> !Trained(after, input))
  {
    match fate
    case Lives(f) => TrainSafe(store, input, f);
    case Dies(BeforeMark) =>
    case Dies(AfterMark) => TrainSafe(store, input, PreparationFails);
    case Dies(AfterCommit(report)) => TrainSafe(store, input, CommitsUnacknowledged(report));
  }

  /** A dying call is a run of the protocol's steps that ends in a crash. */
  lemma DyingCallIsARun(s: State, w: Worker, input: Input, death: Death) returns (steps: seq<(Worker, Action)>)
    requires PhaseOf(s, w) == Idle && RowsWritten(s.store)
    ensures RunOk(s, steps, Free) && steps != [] && steps[|steps| - 1] == (w, Crash)
    ensures RunOf(s, steps).store == LeftBehind(s.store, input, death)
    ensures PhaseOf(RunOf(s, steps), w) == Idle
  {
    steps := [];
    if death.AfterMark? {
      steps := TrainIsARun(s, w, input, PreparationFails);
    } else if death.AfterCommit? {
      steps := TrainIsARun(s, w, input, CommitsUnacknowledged(death.report));
    }
    steps := OneMore(s, steps, w, Crash);
  }

  lemma ForwardTrans(a: Store, b: Store, c: Store)
    requires Forward(a, b) && Forward(b, c)
    ensures Forward(a, c)
  {
  }

  predicate AllTrained(store: Store, work: seq<Input>) {
    forall input :: input in work ==> Trained(store, input)
  }

  lemma TrainedStays(a: Store, b: Store, work: seq<Input>)
    requires Forward(a, b) && AllTrained(a, work)
    ensures AllTrained(b, work)
  {
  }

  lemma {:induction false} TrainFileSafe(store: Store, work: seq<Input>, fates: nat -> CallFate, j: nat)
    requires Sound(store) && RowsWritten(store) && j <= |work| && AllTrained(store, work[..j])
    ensures
      var (after, result) := TrainFile(store, work, fates, j);
      && Sound(after) && RowsWritten(after) && Forward(store, after)
      && (result == Completed ==> AllTrained(after, work))
      && (result == Incomplete ==> !AllTrained(after, work))
    decreases |work| - j
  {
    if j == |work| {
      assert work[..j] == work;
    } else {
      var (after, result) := TrainOne(store, work[j], fates(j));
      TrainOneSafe(store, work[j], fates(j));
      if result == Completed {
        TrainedStays(store, after, work[..j]);
        assert work[..j + 1] == work[..j] + [work[j]];
        TrainFileSafe(after, work, fates, j + 1);
        ForwardTrans(store, after, TrainFile(after, work, fates, j + 1).0);
      }
    }
  }

  // ---------------------------------------------------------------------------------------------------------
  // One run.

  /**
   The circumstances of a run: the fate of every call, where the heap bound is found exceeded, where a file's bytes or
   its declarations cannot be read, and where the run dies between two files or before its report.
   */
  datatype Weather = Weather(
    fate: nat -> nat -> CallFate,
    heapFull: nat -> bool,
    readFails: nat -> bool,
    diesAt: nat -> bool)

  /** The loop state: how each considered file ended, and the offset of the first one left incomplete. */
  datatype Progress = Progress(store: Store, results: seq<FileResult>, firstIncomplete: Option<nat>, dead: bool)
  {
    function Considered(): nat { |results| }

    /** The run is over without a report. */
    predicate Over() {
      dead || (results != [] && (results[|results| - 1] == Thrown || results[|results| - 1] == Died))
    }
  }

  /** The window loop from the first file not yet considered. */
  function TrainWindow(p: Progress, window: seq<File>, o: Options, w: Weather): Progress
    requires p.Considered() <= |window|
    decreases |window| - p.Considered()
  {
    if p.Over() then p
    else if w.diesAt(p.Considered()) then p.(dead := true)
    else if p.Considered() == |window| || w.heapFull(p.Considered()) then p
    else TrainWindow(NextFile(p, window[p.Considered()], o, w), window, o, w)
  }

  /** One file. It is read only when it has something selected, and a read that fails is not caught. */
  function FileEnd(store: Store, file: File, o: Options, w: Weather, offset: nat): (Store, FileResult) {
    if Projections(file, o) != [] && w.readFails(offset) then (store, Died)
    else TrainFile(store, WorkOf(file, o), w.fate(offset), 0)
  }

  function NextFile(p: Progress, file: File, o: Options, w: Weather): Progress {
    var offset := p.Considered();
    var (after, result) := FileEnd(p.store, file, o, w, offset);
    Progress(
      after,
      p.results + [result],
      if result == Incomplete && p.firstIncomplete.None? then Some(offset) else p.firstIncomplete,
      p.dead)
  }

  function Window(files: seq<File>, start: nat, o: Options): seq<File>
    requires start <= |files|
  {
    files[start..Min(start + o.maxFilesPerRun, |files|)]
  }

  /** A run's report; a run that throws or dies gives none. */
  datatype RunReport = Report(nextFileIndex: nat) | NoReport

  function TrainRun(store: Store, files: seq<File>, start: nat, o: Options, w: Weather): (Store, RunReport)
    requires start <= |files|
  {
    var p := WindowEnd(store, files, start, o, w);
    (p.store,
     if p.Over() then NoReport
     else RunReport.Report(start + (if p.firstIncomplete.Some? then p.firstIncomplete.value else p.Considered())))
  }

  /** Where a run's loop ends. */
  function WindowEnd(store: Store, files: seq<File>, start: nat, o: Options, w: Weather): Progress
    requires start <= |files|
  {
    TrainWindow(Progress(store, [], None, false), Window(files, start, o), o, w)
  }

  /** At a loop head: completed files are trained, and the first incomplete one is the one remembered. */
  predicate WindowSound(p: Progress, window: seq<File>, o: Options) {
    && p.Considered() <= |window|
    && (forall i :: 0 <= i < p.Considered() && p.results[i] == Completed ==> AllTrained(p.store, WorkOf(window[i], o)))
    && (forall i :: 0 <= i < p.Considered() - 1 ==> p.results[i] != Thrown && p.results[i] != Died)
    && p.firstIncomplete == IndexOf(p.results, Incomplete)
  }

  lemma IndexOfSnoc<T>(s: seq<T>, last: T, x: T)
    ensures
      IndexOf(s + [last], x) == if IndexOf(s, x).Some? then IndexOf(s, x) else if last == x then Some(|s|) else None
  {
    var all := s + [last];
    if IndexOf(s, x).Some? {
      var i := IndexOf(s, x).value;
      assert all[i] == x && all[..i] == s[..i];
      IndexOfFirst(all, x, i);
    } else if last == x {
      assert all[..|s|] == s;
      IndexOfFirst(all, x, |s|);
    }
  }

  lemma {:induction false} TrainWindowSafe(p: Progress, window: seq<File>, o: Options, w: Weather)
    requires Sound(p.store) && RowsWritten(p.store) && WindowSound(p, window, o)
    ensures
      var end := TrainWindow(p, window, o, w);
      && Sound(end.store) && RowsWritten(end.store) && Forward(p.store, end.store)
      && WindowSound(end, window, o)
    decreases |window| - p.Considered()
  {
    if !p.Over() && !w.diesAt(p.Considered()) && p.Considered() < |window| && !w.heapFull(p.Considered()) {
      NextFileSafe(p, window, o, w);
      var next := NextFile(p, window[p.Considered()], o, w);
      TrainWindowSafe(next, window, o, w);
      ForwardTrans(p.store, next.store, TrainWindow(next, window, o, w).store);
    }
  }

  lemma NextFileSafe(p: Progress, window: seq<File>, o: Options, w: Weather)
    requires Sound(p.store) && RowsWritten(p.store) && WindowSound(p, window, o)
    requires !p.Over() && p.Considered() < |window|
    ensures
      var next := NextFile(p, window[p.Considered()], o, w);
      && Sound(next.store) && RowsWritten(next.store) && Forward(p.store, next.store)
      && WindowSound(next, window, o)
  {
    var n := p.Considered();
    var work := WorkOf(window[n], o);
    var next := NextFile(p, window[n], o, w);
    if Projections(window[n], o) == [] || !w.readFails(n) {
      TrainFileSafe(p.store, work, w.fate(n), 0);
    }
    IndexOfSnoc(p.results, next.results[n], Incomplete);
    forall i | 0 <= i <= n && next.results[i] == Completed
      ensures AllTrained(next.store, WorkOf(window[i], o))
    {
      if i < n {
        TrainedStays(p.store, next.store, WorkOf(window[i], o));
      }
    }
  }

  /** All files before the cursor are trained. */
  predicate Below(store: Store, files: seq<File>, cursor: nat, o: Options) {
    cursor <= |files| && forall i :: 0 <= i < cursor ==> AllTrained(store, WorkOf(files[i], o))
  }

  /**
   One run: the cursor stops at the first file with a failed projection, or else behind the last considered file; every
   file that did not fail is trained, also behind the first failed one.
   */
  lemma RunSafeAt(store: Store, files: seq<File>, start: nat, o: Options, w: Weather)
    requires Sound(store) && RowsWritten(store) && start <= |files|
    ensures
      var (after, report) := TrainRun(store, files, start, o, w);
      var end := WindowEnd(store, files, start, o, w);
      var results := end.results;
      && Sound(after) && RowsWritten(after) && Forward(store, after)
      && start + |results| <= |files|
      && (report.NoReport? <==> end.dead || Thrown in results || Died in results)
      && (forall i :: 0 <= i < |results| && results[i] == Completed ==> AllTrained(after, WorkOf(files[start + i], o)))
      && (report.Report? ==>
           && start <= report.nextFileIndex <= start + |results|
           && Incomplete !in results[..report.nextFileIndex - start]
           && (report.nextFileIndex < start + |results| ==> results[report.nextFileIndex - start] == Incomplete))
  {
    var window := Window(files, start, o);
    var end := WindowEnd(store, files, start, o, w);
    TrainWindowSafe(Progress(store, [], None, false), window, o, w);
    forall i | 0 <= i < |end.results| && end.results[i] == Completed
      ensures AllTrained(end.store, WorkOf(files[start + i], o))
    {
      assert window[i] == files[start + i];
    }
    assert end.results[..|end.results|] == end.results;
  }

  /** The files below the reported index are trained when those below the start index were. */
  lemma RunMovesCursor(store: Store, files: seq<File>, start: nat, o: Options, w: Weather)
    requires Sound(store) && RowsWritten(store) && Below(store, files, start, o)
    ensures
      var (after, report) := TrainRun(store, files, start, o, w);
      var cursor := if report.Report? then report.nextFileIndex else start;
      Sound(after) && RowsWritten(after) && start <= cursor && Below(after, files, cursor, o)
  {
    RunSafeAt(store, files, start, o, w);
    var (after, report) := TrainRun(store, files, start, o, w);
    var results := WindowEnd(store, files, start, o, w).results;
    var cursor := if report.Report? then report.nextFileIndex else start;
    forall i | 0 <= i < cursor
      ensures i < |files| && AllTrained(after, WorkOf(files[i], o))
    {
      if i < start {
        TrainedStays(store, after, WorkOf(files[i], o));
      } else {
        var k := i - start;
        assert results[k] == results[..cursor - start][k] != Incomplete && results[k] != Thrown && results[k] != Died;
        assert files[start + k] == files[i];
      }
    }
  }

  // ---------------------------------------------------------------------------------------------------------
  // Many runs.

  /** Durable storage, and the index the operator starts the next run at: the last one reported. */
  datatype Campaign = Campaign(store: Store, cursor: nat)

  function NextRun(c: Campaign, files: seq<File>, o: Options, w: Weather): Campaign
    requires c.cursor <= |files|
  {
    var (after, report) := TrainRun(c.store, files, c.cursor, o, w);
    Campaign(after, if report.Report? then report.nextFileIndex else c.cursor)
  }

  ghost predicate CampaignSound(c: Campaign, files: seq<File>, o: Options) {
    Sound(c.store) && RowsWritten(c.store) && Below(c.store, files, c.cursor, o)
  }

  ghost predicate RunsFrom(c: Campaign, files: seq<File>, o: Options, weathers: seq<Weather>, end: Campaign)
    decreases |weathers|
  {
    if weathers == [] then end == c
    else c.cursor <= |files| && RunsFrom(NextRun(c, files, o, weathers[0]), files, o, weathers[1..], end)
  }

  /** Each trained item has exactly one commit, of its own binding. */
  lemma TrainedOnce(store: Store, input: Input)
    requires Sound(store) && Trained(store, input)
    ensures |CommitsOf(store.learned, input.id)| == 1 && CommitsOf(store.learned, input.id)[0].binding == input.binding
  {
    assert ItemSound(store, input.id);
  }

  /**
   Any number of runs, each started where the last one said, keep the campaign sound and never move the cursor back.
   */
  lemma {:induction false} CampaignSafe(
    c: Campaign, files: seq<File>, o: Options, weathers: seq<Weather>, end: Campaign)
    requires CampaignSound(c, files, o) && RunsFrom(c, files, o, weathers, end)
    ensures CampaignSound(end, files, o) && c.cursor <= end.cursor
    decreases |weathers|
  {
    if weathers != [] {
      RunMovesCursor(c.store, files, c.cursor, o, weathers[0]);
      var next := NextRun(c, files, o, weathers[0]);
      CampaignSafe(next, files, o, weathers[1..], end);
    }
  }

  /** From empty storage, every selected projection of every file below the cursor is committed exactly once. */
  lemma EveryFileBelowCursorOnce(
    files: seq<File>, o: Options, weathers: seq<Weather>, end: Campaign, i: nat, input: Input)
    requires RunsFrom(Campaign(NOTHING_YET.store, 0), files, o, weathers, end)
    requires i < end.cursor
    ensures i < |files|
    ensures input in WorkOf(files[i], o) ==> Trained(end.store, input) && |CommitsOf(end.store.learned, input.id)| == 1
  {
    assert Sound(NOTHING_YET.store) by { assert forall id :: CommitsOf([], id) == []; }
    CampaignSafe(Campaign(NOTHING_YET.store, 0), files, o, weathers, end);
    if input in WorkOf(files[i], o) {
      TrainedOnce(end.store, input);
    }
  }

  // ---------------------------------------------------------------------------------------------------------
  // What a run considers, by file index: a fold over the files, with nothing said of windows or loops.

  /** The storage when the run comes to its `k`-th file. */
  function StoreAt(store: Store, files: seq<File>, start: nat, o: Options, w: Weather, k: nat): Store
    requires start + k <= |files|
  {
    if k == 0 then store
    else FileEnd(StoreAt(store, files, start, o, w, k - 1), files[start + k - 1], o, w, k - 1).0
  }

  /** How its `k`-th file ends. */
  function ResultAt(store: Store, files: seq<File>, start: nat, o: Options, w: Weather, k: nat): FileResult
    requires start + k < |files|
  {
    FileEnd(StoreAt(store, files, start, o, w, k), files[start + k], o, w, k).1
  }

  /** A file with which the run ends. */
  predicate Last(result: FileResult) {
    result == Thrown || result == Died
  }

  /** The run has come through `n` files, none of which ended it. */
  predicate CameThrough(store: Store, files: seq<File>, start: nat, o: Options, w: Weather, n: nat) {
    && start + n <= |files| && n <= o.maxFilesPerRun
    && (forall k :: 0 <= k < n ==> !w.diesAt(k) && !w.heapFull(k))
    && (forall k :: 0 <= k < n ==> !Last(ResultAt(store, files, start, o, w, k)))
  }

  /** The loop has done what the fold says. */
  ghost predicate Follows(p: Progress, store: Store, files: seq<File>, start: nat, o: Options, w: Weather) {
    && start + p.Considered() <= |files|
    && p.store == StoreAt(store, files, start, o, w, p.Considered())
    && (forall k :: 0 <= k < p.Considered() ==> p.results[k] == ResultAt(store, files, start, o, w, k))
    && p.firstIncomplete == IndexOf(p.results, Incomplete)
  }

  /** Where a run ends, having considered `n` files. */
  predicate EndsAfter(
    store: Store, files: seq<File>, start: nat, o: Options, w: Weather, n: nat, after: Store, report: RunReport)
    requires start + n <= |files|
  {
    var ended := n > 0 && Last(ResultAt(store, files, start, o, w, n - 1));
    && CameThrough(store, files, start, o, w, if ended then n - 1 else n)
    && (ended ==> n <= o.maxFilesPerRun && !w.diesAt(n - 1) && !w.heapFull(n - 1))
    && (!ended && !w.diesAt(n) ==> n == o.maxFilesPerRun || start + n == |files| || w.heapFull(n))
    && after == StoreAt(store, files, start, o, w, n)
    && (report.NoReport? <==> ended || w.diesAt(n))
    && (report.Report? ==>
          && start <= report.nextFileIndex <= start + n
          && (forall k :: 0 <= k < report.nextFileIndex - start ==>
                ResultAt(store, files, start, o, w, k) != Incomplete)
          && (report.nextFileIndex < start + n ==>
                ResultAt(store, files, start, o, w, report.nextFileIndex - start) == Incomplete))
  }

  predicate Ended(p: Progress) {
    p.results != [] && Last(p.results[|p.results| - 1])
  }

  /** Where the loop stands: it came through all files but perhaps a last one, with nothing against considering them. */
  ghost predicate LoopAt(p: Progress, store: Store, files: seq<File>, start: nat, o: Options, w: Weather) {
    var n := p.Considered();
    && Follows(p, store, files, start, o, w) && n <= o.maxFilesPerRun
    && CameThrough(store, files, start, o, w, if Ended(p) then n - 1 else n)
    && (Ended(p) ==> !w.diesAt(n - 1) && !w.heapFull(n - 1))
  }

  lemma NextFollows(p: Progress, store: Store, files: seq<File>, start: nat, o: Options, w: Weather)
    requires Follows(p, store, files, start, o, w) && start + p.Considered() < |files|
    ensures
      var next := NextFile(p, files[start + p.Considered()], o, w);
      Follows(next, store, files, start, o, w)
      && next.Considered() == p.Considered() + 1 && next.dead == p.dead
      && next.results[p.Considered()] == ResultAt(store, files, start, o, w, p.Considered())
  {
    var n := p.Considered();
    IndexOfSnoc(p.results, ResultAt(store, files, start, o, w, n), Incomplete);
    StoreStep(store, files, start, o, w, n);
    hide FileEnd, IndexOf, StoreAt;
  }

  lemma StoreStep(store: Store, files: seq<File>, start: nat, o: Options, w: Weather, n: nat)
    requires start + n < |files|
    ensures StoreAt(store, files, start, o, w, n + 1)
         == FileEnd(StoreAt(store, files, start, o, w, n), files[start + n], o, w, n).0
  {
  }

  lemma OneMoreFile(p: Progress, store: Store, files: seq<File>, start: nat, o: Options, w: Weather)
    requires LoopAt(p, store, files, start, o, w) && !Ended(p)
    requires start + p.Considered() < |files| && p.Considered() < o.maxFilesPerRun
    requires !w.diesAt(p.Considered()) && !w.heapFull(p.Considered())
    ensures
      var next := NextFile(p, files[start + p.Considered()], o, w);
      LoopAt(next, store, files, start, o, w) && next.Considered() == p.Considered() + 1 && next.dead == p.dead
  {
    hide Follows, ResultAt, NextFile, FileEnd, StoreAt, IndexOf;
    NextFollows(p, store, files, start, o, w);
  }

  lemma WindowIs(files: seq<File>, start: nat, o: Options)
    requires start <= |files|
    ensures |Window(files, start, o)| == Min(o.maxFilesPerRun, |files| - start)
    ensures forall k :: 0 <= k < |Window(files, start, o)| ==> Window(files, start, o)[k] == files[start + k]
  {
  }

  lemma OneTurn(p: Progress, window: seq<File>, o: Options, w: Weather)
    requires p.Considered() <= |window|
    ensures
      var n := p.Considered();
      TrainWindow(p, window, o, w)
      == if p.dead || Ended(p) then p
         else if w.diesAt(n) then p.(dead := true)
         else if n == |window| || w.heapFull(n) then p
         else TrainWindow(NextFile(p, window[n], o, w), window, o, w)
  {
    hide NextFile;
  }

  lemma {:induction false} LoopFollows(
    p: Progress, store: Store, files: seq<File>, start: nat, o: Options, w: Weather)
    requires start <= |files| && LoopAt(p, store, files, start, o, w) && !p.dead
    requires p.Considered() <= |Window(files, start, o)|
    ensures
      var end := TrainWindow(p, Window(files, start, o), o, w);
      var n := end.Considered();
      && LoopAt(end, store, files, start, o, w) && n <= |Window(files, start, o)|
      && (end.dead <==> !Ended(end) && w.diesAt(n))
      && (!Ended(end) && !end.dead ==> n == |Window(files, start, o)| || w.heapFull(n))
    decreases |Window(files, start, o)| - p.Considered()
  {
    var window, n := Window(files, start, o), p.Considered();
    WindowIs(files, start, o);
    OneTurn(p, window, o, w);
    DeadLoop(p, store, files, start, o, w);
    hide *;
    if !Ended(p) && !w.diesAt(n) && n < |window| && !w.heapFull(n) {
      OneMoreFile(p, store, files, start, o, w);
      LoopFollows(NextFile(p, window[n], o, w), store, files, start, o, w);
    }
  }

  lemma DeadLoop(p: Progress, store: Store, files: seq<File>, start: nat, o: Options, w: Weather)
    requires LoopAt(p, store, files, start, o, w)
    ensures LoopAt(p.(dead := true), store, files, start, o, w) && (Ended(p.(dead := true)) <==> Ended(p))
  {
    hide StoreAt, ResultAt;
  }

  /**
   A run considers files one by one from its start until one ends it, it dies, the heap is full, or it has considered
   as many as it may; storage and report are those of that many files.
   */
  lemma RunExactly(store: Store, files: seq<File>, start: nat, o: Options, w: Weather) returns (n: nat)
    requires start <= |files|
    ensures start + n <= |files|
    ensures
      var (after, report) := TrainRun(store, files, start, o, w);
      EndsAfter(store, files, start, o, w, n, after, report)
  {
    var first := Progress(store, [], None, false);
    LoopFollows(first, store, files, start, o, w);
    WindowIs(files, start, o);
    var end := WindowEnd(store, files, start, o, w);
    n := end.Considered();
    assert end.results[..n] == end.results;
    hide StoreAt, FileEnd, TrainWindow;
  }

  /** Where a run that reports stops short, the file there ended incomplete or the heap was full. */
  lemma ReportsShort(store: Store, files: seq<File>, start: nat, o: Options, w: Weather)
    requires start <= |files| && TrainRun(store, files, start, o, w).1.Report?
    ensures
      var next, whole := TrainRun(store, files, start, o, w).1.nextFileIndex, Min(start + o.maxFilesPerRun, |files|);
      && start <= next <= whole
      && (next < whole ==> ResultAt(store, files, start, o, w, next - start) == Incomplete || w.heapFull(next - start))
  {
    var n := RunExactly(store, files, start, o, w);
  }

  /** With no incomplete file and no full heap a run that reports has considered all it may. */
  lemma ReportsWhole(store: Store, files: seq<File>, start: nat, o: Options, w: Weather)
    requires start <= |files| && TrainRun(store, files, start, o, w).1.Report?
    requires forall k :: 0 <= k < o.maxFilesPerRun && start + k < |files| ==>
      !w.heapFull(k) && ResultAt(store, files, start, o, w, k) != Incomplete
    ensures TrainRun(store, files, start, o, w).1.nextFileIndex == Min(start + o.maxFilesPerRun, |files|)
  {
    ReportsShort(store, files, start, o, w);
  }

  // ---------------------------------------------------------------------------------------------------------
  // Undisturbed runs finish.

  ghost predicate AllCommit(fates: nat -> CallFate) {
    forall j :: fates(j).Lives? && fates(j).fate.Commits?
  }

  /** Nothing goes wrong: no read, no call, no crash, and memory enough. */
  ghost predicate Undisturbed(w: Weather) {
    forall k :: !w.heapFull(k) && !w.readFails(k) && !w.diesAt(k) && AllCommit(w.fate(k))
  }

  /** No id stands for two different texts. */
  predicate Compatible(files: seq<File>, o: Options) {
    forall f, g, a, b :: f in files && g in files && a in WorkOf(f, o) && b in WorkOf(g, o) && a.id == b.id ==>
      a.root == b.root && a.item == b.item && a.binding == b.binding
  }

  /** Rows of these files' work are bound to it. */
  predicate Friendly(store: Store, files: seq<File>, o: Options) {
    && RowsWritten(store)
    && forall f, a :: f in files && a in WorkOf(f, o) && a.id in store.rows ==>
         var row := store.rows[a.id]; row.root == a.root && row.item == a.item && row.binding == a.binding
  }

  /** A call on such storage is never in conflict. */
  lemma NoConflict(store: Store, files: seq<File>, o: Options, file: File, input: Input)
    requires Friendly(store, files, o) && file in files && input in WorkOf(file, o)
    ensures !Inspect(Lookup(store, input.id), input).Conflict?
  {
  }

  lemma CommitFriendly(store: Store, files: seq<File>, o: Options, file: File, input: Input, report: Report)
    requires Compatible(files, o) && Friendly(store, files, o) && file in files && input in WorkOf(file, o)
    ensures Friendly(Transact(PutRunning(store, input), input, report), files, o)
  {
    hide WorkOf;
  }

  lemma OneCompletes(store: Store, files: seq<File>, o: Options, file: File, input: Input, fate: CallFate)
    requires Compatible(files, o) && Friendly(store, files, o) && file in files && input in WorkOf(file, o)
    requires fate.Lives? && fate.fate.Commits?
    ensures TrainOne(store, input, fate).1 == Completed && Friendly(TrainOne(store, input, fate).0, files, o)
  {
    NoConflict(store, files, o, file, input);
    CommitFriendly(store, files, o, file, input, fate.fate.report);
    hide WorkOf, Compatible, Friendly, Inspect, Lookup, Transact, PutRunning;
  }

  lemma {:induction false} FileCompletes(
    store: Store, files: seq<File>, o: Options, file: File, fates: nat -> CallFate, j: nat)
    requires Compatible(files, o) && Friendly(store, files, o) && file in files && j <= |WorkOf(file, o)|
    requires AllCommit(fates)
    ensures
      var (after, result) := TrainFile(store, WorkOf(file, o), fates, j);
      result == Completed && Friendly(after, files, o)
    decreases |WorkOf(file, o)| - j
  {
    var work := WorkOf(file, o);
    if j < |work| {
      OneCompletes(store, files, o, file, work[j], fates(j));
      hide Friendly, Compatible, TrainOne, WorkOf;
      FileCompletes(TrainOne(store, work[j], fates(j)).0, files, o, file, fates, j + 1);
    }
  }

  lemma {:induction false} AllComplete(store: Store, files: seq<File>, start: nat, o: Options, w: Weather, k: nat)
    requires Compatible(files, o) && Friendly(store, files, o) && Undisturbed(w) && start + k <= |files|
    ensures Friendly(StoreAt(store, files, start, o, w, k), files, o)
    ensures start + k < |files| ==> ResultAt(store, files, start, o, w, k) == Completed
  {
    if k > 0 {
      AllComplete(store, files, start, o, w, k - 1);
      FileCompletes(StoreAt(store, files, start, o, w, k - 1), files, o, files[start + k - 1], w.fate(k - 1), 0);
    }
    if start + k < |files| {
      FileCompletes(StoreAt(store, files, start, o, w, k), files, o, files[start + k], w.fate(k), 0);
    }
  }

  /** An undisturbed run reports, and has considered all it may. */
  lemma UndisturbedRun(store: Store, files: seq<File>, start: nat, o: Options, w: Weather)
    requires Compatible(files, o) && Friendly(store, files, o) && Undisturbed(w) && start <= |files|
    ensures
      var (after, report) := TrainRun(store, files, start, o, w);
      report == RunReport.Report(Min(start + o.maxFilesPerRun, |files|)) && Friendly(after, files, o)
  {
    var n := RunExactly(store, files, start, o, w);
    AllComplete(store, files, start, o, w, n);
    forall k | 0 <= k && start + k < |files|
      ensures ResultAt(store, files, start, o, w, k) == Completed
    {
      AllComplete(store, files, start, o, w, k);
    }
    hide ResultAt, StoreAt, Friendly, Compatible, TrainRun;
    assert n > 0 ==> ResultAt(store, files, start, o, w, n - 1) == Completed;
  }

  lemma {:induction false} UndisturbedRuns(
    c: Campaign, files: seq<File>, o: Options, weathers: seq<Weather>, end: Campaign)
    requires Compatible(files, o) && Friendly(c.store, files, o) && c.cursor <= |files| && o.maxFilesPerRun >= 1
    requires (forall w :: w in weathers ==> Undisturbed(w)) && RunsFrom(c, files, o, weathers, end)
    ensures Min(c.cursor + |weathers|, |files|) <= end.cursor <= |files|
    decreases |weathers|
  {
    if weathers != [] {
      assert weathers[0] in weathers && forall w :: w in weathers[1..] ==> w in weathers;
      UndisturbedRun(c.store, files, c.cursor, o, weathers[0]);
      hide Friendly, Compatible, Undisturbed, TrainRun;
      UndisturbedRuns(NextRun(c, files, o, weathers[0]), files, o, weathers[1..], end);
    }
  }

  /**
   With room for a file in each run, as many undisturbed runs as there are files bring the cursor from empty storage to
   the end, with every selected projection of every file committed exactly once.
   */
  lemma UndisturbedCampaignFinishes(files: seq<File>, o: Options, weathers: seq<Weather>, end: Campaign)
    requires Compatible(files, o) && o.maxFilesPerRun >= 1
    requires |weathers| >= |files| && forall w :: w in weathers ==> Undisturbed(w)
    requires RunsFrom(Campaign(NOTHING_YET.store, 0), files, o, weathers, end)
    ensures end.cursor == |files|
    ensures forall f, input :: f in files && input in WorkOf(f, o) ==>
      Trained(end.store, input) && |CommitsOf(end.store.learned, input.id)| == 1
  {
    UndisturbedRuns(Campaign(NOTHING_YET.store, 0), files, o, weathers, end);
    forall f, input | f in files && input in WorkOf(f, o)
      ensures Trained(end.store, input) && |CommitsOf(end.store.learned, input.id)| == 1
    {
      var i :| 0 <= i < |files| && files[i] == f;
      EveryFileBelowCursorOnce(files, o, weathers, end, i, input);
    }
  }

  /** What is selected: documents with their text, code with its surface and, with documents included, its prose. */
  lemma SelectionMeans(file: File, o: Options, input: Input)
    ensures input in WorkOf(file, o) <==>
      || (file.system == Some(Docs) && o.includeDocs && !file.verbatim.blank && input == file.verbatim.input)
      || (file.system == Some(Code) && o.includeSource && !file.surface.blank && input == file.surface.input)
      || (file.system == Some(Code) && o.includeSource && o.includeDocs
          && !file.prose.blank && input == file.prose.input)
  {
    WorkPair(file.surface, file.prose);
    WorkPair(file.verbatim, file.prose);
    assert [file.surface] + [] == [file.surface];
  }

  lemma WorkPair(a: Projection, b: Projection)
    ensures Work([]) == [] && Work([a]) == if a.blank then [] else [a.input]
    ensures Work([a] + [b]) == (if a.blank then [] else [a.input]) + (if b.blank then [] else [b.input])
  {
    assert [a][1..] == [] && [b][1..] == [] && ([a] + [b])[1..] == [b];
  }

  // ---------------------------------------------------------------------------------------------------------
  // The loops.

  /** The run ends inside this call, and leaves what the call has written so far. */
  method DieInCall(storage: CorpusStorage, input: Input, death: Death)
    modifies storage
    ensures storage.View() == LeftBehind(old(storage.View()), input, death)
  {
    if death.AfterMark? {
      var failed := storage.TrainText(input, PreparationFails);
    } else if death.AfterCommit? {
      var unacknowledged := storage.TrainText(input, CommitsUnacknowledged(death.report));
    }
  }

  method TrainFileByLoop(
    storage: CorpusStorage, file: File, o: Options, fates: nat -> CallFate)
    returns (result: FileResult)
    modifies storage
    ensures (storage.View(), result) == TrainFile(old(storage.View()), WorkOf(file, o), fates, 0)
  {
    var projections := Projections(file, o);
    ghost var work := WorkOf(file, o);
    var calls := 0;
    for i := 0 to |projections|
      invariant calls <= |work| && work[calls..] == Work(projections[i..])
      invariant TrainFile(storage.View(), work, fates, calls) == TrainFile(old(storage.View()), work, fates, 0)
    {
      var projected := projections[i];
      assert projections[i..][1..] == projections[i + 1..];
      if projected.blank {
        continue;
      }
      assert work[calls] == work[calls..][0] == projected.input;
      assert work[calls + 1..] == work[calls..][1..];
      if fates(calls).Dies? {
        DieInCall(storage, projected.input, fates(calls).death);
        return Died;
      }
      var trained := storage.TrainText(projected.input, fates(calls).fate);
      if trained.ConflictError? {
        return Thrown;
      }
      if trained.Error? {
        var committed := ReadCompleted(storage.View(), projected.input);
        if committed.ConflictError? {
          return Thrown;
        }
        if committed.Error? {
          return Incomplete;
        }
      }
      calls := calls + 1;
    }
    return Completed;
  }

  method TrainOssCorpus(storage: CorpusStorage, files: seq<File>, startFileIndex: nat, o: Options, w: Weather)
    returns (report: RunReport)
    requires startFileIndex <= |files|
    modifies storage
    ensures (storage.View(), report) == TrainRun(old(storage.View()), files, startFileIndex, o, w)
  {
    var window := Window(files, startFileIndex, o);
    var results: seq<FileResult> := [];
    var filesConsidered := 0;
    var firstIncompleteFileOffset: Option<nat> := None;
    while true
      invariant filesConsidered == |results| <= |window|
      invariant !Progress(storage.View(), results, firstIncompleteFileOffset, false).Over()
      invariant TrainWindow(Progress(storage.View(), results, firstIncompleteFileOffset, false), window, o, w)
             == TrainWindow(Progress(old(storage.View()), [], None, false), window, o, w)
      decreases |window| - filesConsidered
    {
      if w.diesAt(filesConsidered) {
        return NoReport;
      }
      if filesConsidered == |window| || w.heapFull(filesConsidered) {
        break;
      }
      var fileOffset := filesConsidered;
      filesConsidered := filesConsidered + 1;
      if Projections(window[fileOffset], o) != [] && w.readFails(fileOffset) {
        results := results + [Died];
        return NoReport;
      }
      var result := TrainFileByLoop(storage, window[fileOffset], o, w.fate(fileOffset));
      results := results + [result];
      if result == Thrown || result == Died {
        return NoReport;
      }
      if result == Incomplete && firstIncompleteFileOffset.None? {
        firstIncompleteFileOffset := Some(fileOffset);
      }
    }
    return RunReport.Report(
      startFileIndex + (if firstIncompleteFileOffset.Some? then firstIncompleteFileOffset.value else filesConsidered));
  }
}
