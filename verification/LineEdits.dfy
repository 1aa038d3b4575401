/**
 Line edits on files: how a repair operation changes a text, how both ports apply a list of operations, and what
 their rollback restores.
 */
module LineEdits {
  import opened Common

  type Files = map<string, string>

  datatype Kind = Replace | Delete | Other

  /** A repair operation. Line numbers count from 1; an absent or zero start line means "append". */
  datatype Op = Op(kind: Kind, path: string, startLine: Option<nat>, endLine: Option<nat>, content: Option<string>)

  // ---------------------------------------------------------------------------------------------------------
  // Lines.

  predicate CrLfAt(s: string, i: nat) {
    i + 1 < |s| && s[i] == '\r' && s[i + 1] == '\n'
  }

  /** `split(/\r?\n/)`. */
  function SplitLines(s: string): (lines: seq<string>)
    ensures |lines| >= 1
  {
    if s == "" then [""]
    else if s[0] == '\n' then [""] + SplitLines(s[1..])
    else if CrLfAt(s, 0) then [""] + SplitLines(s[2..])
    else
      var rest := SplitLines(s[1..]);
      [[s[0]] + rest[0]] + rest[1..]
  }

  function Join(lines: seq<string>, newline: string): string
    requires |lines| >= 1
  {
    if |lines| == 1 then lines[0] else lines[0] + newline + Join(lines[1..], newline)
  }

  /** The line ending an edit writes back: CRLF as soon as the text holds one. */
  function Newline(s: string): string {
    if exists i: nat :: i < |s| && CrLfAt(s, i) then "\r\n" else "\n"
  }

  /** All line feeds have a carriage return before them, or none has. */
  predicate Uniform(s: string) {
    || (forall i: nat :: i < |s| ==> !CrLfAt(s, i))
    || (forall i: nat :: i < |s| && s[i] == '\n' ==> i > 0 && CrLfAt(s, i - 1))
  }

  /** Line feeds without a carriage return before them. */
  function BareFeeds(s: string): nat {
    if s == "" then 0
    else if s[0] == '\n' then 1 + BareFeeds(s[1..])
    else if CrLfAt(s, 0) then BareFeeds(s[2..])
    else BareFeeds(s[1..])
  }

  lemma JoinOnto(first: string, lines: seq<string>, newline: string)
    requires |lines| >= 1
    ensures Join([first + lines[0]] + lines[1..], newline) == first + Join(lines, newline)
  {
    var onto := [first + lines[0]] + lines[1..];
    if |lines| > 1 {
      assert onto[1..] == lines[1..];
      assert first + lines[0] + newline + Join(lines[1..], newline)
          == first + (lines[0] + newline + Join(lines[1..], newline));
    }
  }

  lemma JoinEmptyLine(lines: seq<string>, newline: string)
    requires |lines| >= 1
    ensures Join([""] + lines, newline) == newline + Join(lines, newline)
  {
    assert ([""] + lines)[1..] == lines;
    assert "" + newline == newline;
  }

  lemma {:induction false} JoinLf(s: string)
    requires forall i: nat :: i < |s| ==> !CrLfAt(s, i)
    ensures Join(SplitLines(s), "\n") == s
  {
    if s != "" {
      assert s == [s[0]] + s[1..] && !CrLfAt(s, 0);
      assert forall i: nat :: i < |s[1..]| && CrLfAt(s[1..], i) ==> CrLfAt(s, i + 1);
      JoinLf(s[1..]);
      if s[0] == '\n' {
        JoinEmptyLine(SplitLines(s[1..]), "\n");
      } else {
        JoinOnto([s[0]], SplitLines(s[1..]), "\n");
      }
    }
  }

  /** Writing CRLF back adds one character for each bare line feed, and changes nothing else. */
  lemma {:induction false} JoinCrLf(s: string)
    ensures |Join(SplitLines(s), "\r\n")| == |s| + BareFeeds(s)
    ensures BareFeeds(s) == 0 ==> Join(SplitLines(s), "\r\n") == s
  {
    if s != "" {
      if s[0] == '\n' {
        JoinCrLf(s[1..]);
        JoinEmptyLine(SplitLines(s[1..]), "\r\n");
      } else if CrLfAt(s, 0) {
        assert s == "\r\n" + s[2..];
        JoinCrLf(s[2..]);
        JoinEmptyLine(SplitLines(s[2..]), "\r\n");
      } else {
        assert s == [s[0]] + s[1..];
        JoinCrLf(s[1..]);
        JoinOnto([s[0]], SplitLines(s[1..]), "\r\n");
      }
    }
  }

  lemma {:induction false} NoBareFeeds(s: string)
    ensures BareFeeds(s) == 0 <==> forall i: nat :: i < |s| && s[i] == '\n' ==> i > 0 && CrLfAt(s, i - 1)
  {
    if s != "" {
      var n := if CrLfAt(s, 0) then 2 else 1;
      var rest := s[n..];
      NoBareFeeds(rest);
      assert forall i: nat :: i < |rest| ==> rest[i] == s[i + n];
      assert forall i: nat {:trigger CrLfAt(rest, i)} :: CrLfAt(rest, i) <==> CrLfAt(s, i + n);
      if s[0] != '\n' && BareFeeds(s) == 0 {
        forall i: nat | i < |s| && s[i] == '\n'
          ensures i > 0 && CrLfAt(s, i - 1)
        {
          if i >= n { assert rest[i - n] == '\n'; assert CrLfAt(rest, i - n - 1); }
        }
      }
      if forall i: nat :: i < |s| && s[i] == '\n' ==> i > 0 && CrLfAt(s, i - 1) {
        assert s[0] != '\n';
        forall i: nat | i < |rest| && rest[i] == '\n'
          ensures i > 0 && CrLfAt(rest, i - 1)
        {
          assert s[i + n] == '\n' && CrLfAt(s, i + n - 1);
          if i > 0 { assert CrLfAt(rest, i - 1) <==> CrLfAt(s, i - 1 + n); }
        }
      }
    }
  }

  /** Splitting a text into lines and joining them again gives the text back exactly when its endings are uniform. */
  lemma SplitJoinIffUniform(s: string)
    ensures Join(SplitLines(s), Newline(s)) == s <==> Uniform(s)
  {
    if exists i: nat :: i < |s| && CrLfAt(s, i) {
      JoinCrLf(s);
      NoBareFeeds(s);
    } else {
      JoinLf(s);
    }
  }

  // ---------------------------------------------------------------------------------------------------------
  // One operation on one text.

  function Take(lines: seq<string>, n: nat): seq<string> {
    lines[..Min(n, |lines|)]
  }

  function Drop(lines: seq<string>, n: nat): seq<string> {
    lines[Min(n, |lines|)..]
  }

  function JoinAny(lines: seq<string>, newline: string): string {
    if lines == [] then "" else Join(lines, newline)
  }

  function Content(op: Op): string {
    if op.content.Some? then op.content.value else ""
  }

  predicate HasStart(op: Op) {
    op.startLine.Some? && op.startLine.value > 0
  }

  function EndLine(op: Op): nat
    requires op.startLine.Some?
  {
    if op.endLine.Some? then op.endLine.value else op.startLine.value
  }

  /** The TypeScript port's edit of one text. */
  function Edit(current: string, op: Op): string {
    var newline, lines := Newline(current), SplitLines(current);
    if op.kind == Replace && HasStart(op) then
      Join(Take(lines, op.startLine.value - 1) + SplitLines(Content(op)) + Drop(lines, EndLine(op)), newline)
    else if op.kind == Delete && HasStart(op) then
      JoinAny(Take(lines, op.startLine.value - 1) + Drop(lines, EndLine(op)), newline)
    else current + Content(op)
  }

  /** Lines each followed by a line ending. */
  function Leading(lines: seq<string>, newline: string): string {
    if lines == [] then "" else lines[0] + newline + Leading(lines[1..], newline)
  }

  /** Lines each behind a line ending. */
  function Trailing(lines: seq<string>, newline: string): string {
    if lines == [] then "" else newline + lines[0] + Trailing(lines[1..], newline)
  }

  lemma {:induction false} JoinTail(after: seq<string>, newline: string)
    requires after != []
    ensures newline + Join(after, newline) == Trailing(after, newline)
  {
    if |after| > 1 {
      JoinTail(after[1..], newline);
      assert newline + (after[0] + newline + Join(after[1..], newline))
          == newline + after[0] + (newline + Join(after[1..], newline));
    } else {
      assert after[1..] == [];
    }
  }

  lemma {:induction false} JoinBehind(before: seq<string>, rest: seq<string>, newline: string)
    requires rest != []
    ensures Join(before + rest, newline) == Leading(before, newline) + Join(rest, newline)
  {
    if before == [] {
      assert before + rest == rest;
    } else {
      assert (before + rest)[1..] == before[1..] + rest;
      JoinBehind(before[1..], rest, newline);
    }
  }

  lemma {:induction false} JoinAhead(middle: seq<string>, after: seq<string>, newline: string)
    requires middle != []
    ensures Join(middle + after, newline) == Join(middle, newline) + Trailing(after, newline)
  {
    assert (middle + after)[1..] == middle[1..] + after;
    if |middle| > 1 {
      JoinAhead(middle[1..], after, newline);
    } else if after != [] {
      assert middle[1..] + after == after;
      JoinTail(after, newline);
    } else {
      assert middle + after == middle;
    }
  }

  lemma JoinThree(before: seq<string>, middle: seq<string>, after: seq<string>, newline: string)
    requires middle != []
    ensures Join(before + middle + after, newline)
            == Leading(before, newline) + Join(middle, newline) + Trailing(after, newline)
  {
    hide Join, Leading, Trailing;
    assert before + middle + after == before + (middle + after);
    JoinBehind(before, middle + after, newline);
    JoinAhead(middle, after, newline);
  }

  /** In a text with uniform endings, replacing lines `a` to `b` leaves everything outside them as it was. */
  lemma ReplaceKeepsOutside(text: string, op: Op, a: nat, b: nat) returns (head: string, tail: string)
    requires Uniform(text)
    requires op.kind == Replace && op.startLine == Some(a) && EndLine(op) == b
    requires 1 <= a <= b <= |SplitLines(text)|
    ensures text == head + Join(SplitLines(text)[a - 1..b], Newline(text)) + tail
    ensures Edit(text, op) == head + Join(SplitLines(Content(op)), Newline(text)) + tail
  {
    hide Join, Leading, Trailing, Uniform, Newline, SplitLines, Content;
    var newline, lines := Newline(text), SplitLines(text);
    SplitJoinIffUniform(text);
    assert lines == lines[..a - 1] + lines[a - 1..b] + lines[b..];
    JoinThree(lines[..a - 1], lines[a - 1..b], lines[b..], newline);
    JoinThree(lines[..a - 1], SplitLines(Content(op)), lines[b..], newline);
    head, tail := Leading(lines[..a - 1], newline), Trailing(lines[b..], newline);
  }

  lemma {:induction false} LeadingJoined(lines: seq<string>, newline: string)
    requires lines != []
    ensures Leading(lines, newline) == Join(lines, newline) + newline
  {
    if |lines| > 1 {
      LeadingJoined(lines[1..], newline);
      assert lines[0] + newline + (Join(lines[1..], newline) + newline)
          == lines[0] + newline + Join(lines[1..], newline) + newline;
    } else {
      assert lines[1..] == [];
      assert lines[0] + newline + "" == lines[0] + newline;
    }
  }

  /**
   In a text with uniform endings, deleting lines `a` to `b` takes them out with one line ending, the one behind them if
   something follows, and leaves everything else as it was.
   */
  lemma DeleteKeepsOutside(text: string, op: Op, a: nat, b: nat) returns (head: string, tail: string)
    requires Uniform(text)
    requires op.kind == Delete && op.startLine == Some(a) && EndLine(op) == b
    requires 1 <= a <= b <= |SplitLines(text)|
    ensures text == head + Join(SplitLines(text)[a - 1..b], Newline(text)) + tail
    ensures b < |SplitLines(text)| ==> exists rest :: tail == Newline(text) + rest && Edit(text, op) == head + rest
    ensures b == |SplitLines(text)| ==> tail == ""
    ensures b == |SplitLines(text)| && a > 1 ==> head == Edit(text, op) + Newline(text)
    ensures b == |SplitLines(text)| && a == 1 ==> head == "" && Edit(text, op) == ""
  {
    var newline, lines := Newline(text), SplitLines(text);
    var before, after := lines[..a - 1], lines[b..];
    SplitJoinIffUniform(text);
    assert lines == before + lines[a - 1..b] + after;
    JoinThree(before, lines[a - 1..b], after, newline);
    head, tail := Leading(before, newline), Trailing(after, newline);
    assert Take(lines, a - 1) == before && Drop(lines, b) == after;
    hide Join, SplitLines, Newline;
    if after != [] {
      JoinTail(after, newline);
      JoinBehind(before, after, newline);
      assert Edit(text, op) == Leading(before, newline) + Join(after, newline);
    } else {
      assert before + after == before;
      if before != [] {
        LeadingJoined(before, newline);
      }
    }
  }

  /** Without a start line, and for any other kind, the text stays and the content follows it as it is. */
  lemma AppendKeepsText(text: string, op: Op)
    requires !HasStart(op) || op.kind == Other
    ensures text <= Edit(text, op) && Edit(text, op)[|text|..] == Content(op)
  {
  }

  /** Lines behind the last one: a replace appends its own, a delete takes none. */
  lemma EditsBeyondEnd(text: string, op: Op, a: nat)
    requires Uniform(text) && op.startLine == Some(a) && EndLine(op) >= a > |SplitLines(text)|
    ensures op.kind == Replace ==> Edit(text, op) == text + Trailing(SplitLines(Content(op)), Newline(text))
    ensures op.kind == Delete ==> Edit(text, op) == text
  {
    var newline, lines := Newline(text), SplitLines(text);
    SplitJoinIffUniform(text);
    assert Take(lines, a - 1) == lines && Drop(lines, EndLine(op)) == [];
    assert lines + [] == lines && lines + SplitLines(Content(op)) + [] == lines + SplitLines(Content(op));
    JoinAhead(lines, SplitLines(Content(op)), newline);
  }

  // ---------------------------------------------------------------------------------------------------------
  // Applying a list of operations, and rolling it back.

  /** The files after some operations, with the text each touched path had when it was first read. */
  datatype Applied = Applied(files: Files, originals: Files)

  /** A missing file reads as empty. */
  function Read(files: Files, path: string): string {
    if path in files then files[path] else ""
  }

  /** The TypeScript port: every operation on a path starts from that path's original text. */
  function ApplyOne(state: Applied, op: Op): Applied {
    var current := if op.path in state.originals then state.originals[op.path] else Read(state.files, op.path);
    Applied(state.files[op.path := Edit(current, op)],
            if op.path in state.originals then state.originals else state.originals[op.path := current])
  }

  function ApplyFrom(state: Applied, ops: seq<Op>): Applied
    decreases |ops|
  {
    if ops == [] then state else ApplyFrom(ApplyOne(state, ops[0]), ops[1..])
  }

  function Apply(files: Files, ops: seq<Op>): Applied {
    ApplyFrom(Applied(files, map[]), ops)
  }

  /** Writes every original text back. */
  function Rollback(state: Applied): Files {
    state.files + state.originals
  }

  function Paths(ops: seq<Op>): set<string> {
    set op | op in ops :: op.path
  }

  /** The files as they are left by applying and rolling back: touched paths that did not exist stay, empty. */
  function WithEmpties(files: Files, paths: set<string>): Files {
    map path | path in files.Keys + paths :: Read(files, path)
  }

  /** A state some operations into applying: originals hold what the start held, and only touched paths changed. */
  predicate Tracks(files: Files, state: Applied) {
    && state.files.Keys == files.Keys + state.originals.Keys
    && (forall path :: path in state.originals ==> state.originals[path] == Read(files, path))
    && (forall path :: path in files && path !in state.originals ==> state.files[path] == files[path])
  }

  lemma OneTracks(files: Files, state: Applied, op: Op)
    requires Tracks(files, state)
    ensures Tracks(files, ApplyOne(state, op))
    ensures ApplyOne(state, op).originals.Keys == state.originals.Keys + {op.path}
  {
    if op.path !in state.originals {
      assert Read(state.files, op.path) == Read(files, op.path);
    }
  }

  lemma {:induction false} ApplyTracks(files: Files, state: Applied, ops: seq<Op>)
    requires Tracks(files, state)
    ensures Tracks(files, ApplyFrom(state, ops))
    ensures ApplyFrom(state, ops).originals.Keys == state.originals.Keys + Paths(ops)
    decreases |ops|
  {
    if ops != [] {
      assert ops == [ops[0]] + ops[1..];
      OneTracks(files, state, ops[0]);
      ApplyTracks(files, ApplyOne(state, ops[0]), ops[1..]);
    }
  }

  lemma TrackedRollback(files: Files, state: Applied, paths: set<string>)
    requires Tracks(files, state) && state.originals.Keys == paths
    ensures Rollback(state) == WithEmpties(files, paths)
  {
    hide Read;
    var back := Rollback(state);
    assert back.Keys == files.Keys + paths;
    forall path | path in back
      ensures back[path] == Read(files, path)
    {
      if path !in state.originals {
        ReadExisting(files, path);
      }
    }
  }

  lemma ReadExisting(files: Files, path: string)
    requires path in files
    ensures Read(files, path) == files[path]
  {
  }

  /** Apply then rollback, whatever the operations and however often a path repeats. */
  lemma RollbackLeaves(files: Files, ops: seq<Op>)
    ensures Rollback(Apply(files, ops)) == WithEmpties(files, Paths(ops))
    ensures forall path :: path in files.Keys + Paths(ops) ==>
      Rollback(Apply(files, ops))[path] == if path in files then files[path] else ""
  {
    ApplyTracks(files, Applied(files, map[]), ops);
    TrackedRollback(files, Apply(files, ops), Paths(ops));
  }

  /** The rollback restores the workspace exactly when every touched file existed. */
  lemma RollbackRestoresIffExisting(files: Files, ops: seq<Op>)
    ensures Rollback(Apply(files, ops)) == files <==> Paths(ops) <= files.Keys
  {
    RollbackLeaves(files, ops);
    assert WithEmpties(files, Paths(ops)).Keys == files.Keys + Paths(ops);
    if Paths(ops) <= files.Keys {
      assert files.Keys + Paths(ops) == files.Keys;
    }
  }

  /** The last operation on a path decides its text, computed from the original; other paths are untouched. */
  lemma {:induction false} LastOperationWins(files: Files, state: Applied, ops: seq<Op>, path: string)
    requires Tracks(files, state)
    ensures path !in Paths(ops) ==>
      && (path in ApplyFrom(state, ops).files <==> path in state.files)
      && Read(ApplyFrom(state, ops).files, path) == Read(state.files, path)
    ensures forall i :: 0 <= i < |ops| && ops[i].path == path && path !in Paths(ops[i + 1..]) ==>
      Read(ApplyFrom(state, ops).files, path) == Edit(Read(files, path), ops[i])
    decreases |ops|
  {
    if ops != [] {
      assert ops == [ops[0]] + ops[1..];
      LastOperationWins(files, ApplyOne(state, ops[0]), ops[1..], path);
      forall i | 0 <= i < |ops| && ops[i].path == path && path !in Paths(ops[i + 1..])
        ensures Read(ApplyFrom(state, ops).files, path) == Edit(Read(files, path), ops[i])
      {
        if i > 0 {
          assert ops[1..][i - 1] == ops[i] && ops[1..][i..] == ops[i + 1..];
        }
      }
    }
  }

  // ---------------------------------------------------------------------------------------------------------
  // Spellings: the TypeScript port keeps originals by the path as given, the file system finds files by what it means.

  /** The originals by given path, and the order in which they were kept. */
  datatype Spelled = Spelled(files: Files, order: seq<string>, originals: Files)

  function SpelledOne(resolve: string -> string, s: Spelled, op: Op): Spelled {
    var file := resolve(op.path);
    var known := op.path in s.originals;
    var current := if known then s.originals[op.path] else Read(s.files, file);
    Spelled(s.files[file := Edit(current, op)],
            if known then s.order else s.order + [op.path],
            if known then s.originals else s.originals[op.path := current])
  }

  function SpelledFrom(resolve: string -> string, s: Spelled, ops: seq<Op>): Spelled
    decreases |ops|
  {
    if ops == [] then s else SpelledFrom(resolve, SpelledOne(resolve, s, ops[0]), ops[1..])
  }

  function SpelledApply(resolve: string -> string, files: Files, ops: seq<Op>): Spelled {
    SpelledFrom(resolve, Spelled(files, [], map[]), ops)
  }

  /** One write per original, in the order they were kept. */
  function Restored(resolve: string -> string, files: Files, order: seq<string>, originals: Files): Files {
    if order == [] then files
    else
      var last := order[|order| - 1];
      var before := Restored(resolve, files, order[..|order| - 1], originals);
      if last in originals then before[resolve(last) := originals[last]] else before
  }

  function SpelledRollback(resolve: string -> string, s: Spelled): Files {
    Restored(resolve, s.files, s.order, s.originals)
  }

  function Resolved(resolve: string -> string, ops: seq<Op>): (r: seq<Op>)
    ensures |r| == |ops| && forall i :: 0 <= i < |r| ==> r[i] == ops[i].(path := resolve(ops[i].path))
  {
    seq(|ops|, i requires 0 <= i < |ops| => ops[i].(path := resolve(ops[i].path)))
  }

  /** No file goes by two names. */
  predicate OneName(resolve: string -> string, names: set<string>) {
    forall a, b :: a in names && b in names && resolve(a) == resolve(b) ==> a == b
  }

  /** One of these names means the file. */
  predicate Named(resolve: string -> string, names: seq<string>, file: string) {
    exists name :: name in names && resolve(name) == file
  }

  ghost predicate Mirrors(resolve: string -> string, s: Spelled, t: Applied) {
    && s.files == t.files
    && (forall name :: name in s.order <==> name in s.originals)
    && (forall name :: name in s.originals ==>
          resolve(name) in t.originals && t.originals[resolve(name)] == s.originals[name])
    && (forall file :: file in t.originals ==> Named(resolve, s.order, file))
  }

  lemma EditIgnoresPath(op: Op, path: string, current: string)
    ensures Edit(current, op.(path := path)) == Edit(current, op)
  {
  }

  lemma KnownMirrors(resolve: string -> string, s: Spelled, t: Applied, op: Op)
    requires Mirrors(resolve, s, t) && op.path in s.originals
    ensures Mirrors(resolve, SpelledOne(resolve, s, op), ApplyOne(t, op.(path := resolve(op.path))))
  {
    EditIgnoresPath(op, resolve(op.path), s.originals[op.path]);
    hide Edit, Read, Named;
  }

  lemma NewMirrors(resolve: string -> string, s: Spelled, t: Applied, op: Op)
    requires Mirrors(resolve, s, t) && op.path !in s.originals && resolve(op.path) !in t.originals
    ensures Mirrors(resolve, SpelledOne(resolve, s, op), ApplyOne(t, op.(path := resolve(op.path))))
  {
    EditIgnoresPath(op, resolve(op.path), Read(s.files, resolve(op.path)));
    NamedSnoc(resolve, s.order, op.path);
    hide Edit, Read, Named;
  }

  lemma OneMirrors(resolve: string -> string, s: Spelled, t: Applied, op: Op, names: set<string>)
    requires Mirrors(resolve, s, t) && OneName(resolve, names) && op.path in names && s.originals.Keys <= names
    ensures Mirrors(resolve, SpelledOne(resolve, s, op), ApplyOne(t, op.(path := resolve(op.path))))
  {
    if op.path in s.originals {
      KnownMirrors(resolve, s, t, op);
    } else {
      assert resolve(op.path) !in t.originals by { assert forall name :: name in s.order ==> name in names; }
      hide Mirrors;
      NewMirrors(resolve, s, t, op);
    }
  }

  lemma NamedSnoc(resolve: string -> string, names: seq<string>, name: string)
    ensures forall file ::
      Named(resolve, names + [name], file) <==> Named(resolve, names, file) || resolve(name) == file
  {
    forall file
      ensures Named(resolve, names + [name], file) <==> Named(resolve, names, file) || resolve(name) == file
    {
      assert name in names + [name];
    }
  }

  lemma {:induction false} AllMirror(
    resolve: string -> string, s: Spelled, t: Applied, ops: seq<Op>, names: set<string>)
    requires Mirrors(resolve, s, t) && OneName(resolve, names) && Paths(ops) <= names && s.originals.Keys <= names
    ensures Mirrors(resolve, SpelledFrom(resolve, s, ops), ApplyFrom(t, Resolved(resolve, ops)))
    decreases |ops|
  {
    if ops != [] {
      var first := Resolved(resolve, ops);
      assert ops[0] in ops && ops[0].path in Paths(ops);
      assert first[1..] == Resolved(resolve, ops[1..]);
      assert Paths(ops[1..]) <= Paths(ops);
      OneMirrors(resolve, s, t, ops[0], names);
      hide Mirrors, Edit;
      AllMirror(resolve, SpelledOne(resolve, s, ops[0]), ApplyOne(t, first[0]), ops[1..], names);
    }
  }

  lemma {:induction false} RestoredMirrors(
    resolve: string -> string, files: Files, order: seq<string>, originals: Files, kept: Files)
    requires forall name :: name in order ==>
      name in originals && resolve(name) in kept && kept[resolve(name)] == originals[name]
    ensures
      var back := Restored(resolve, files, order, originals);
      && (forall file :: file in back <==> file in files || Named(resolve, order, file))
      && (forall file :: file in back ==> back[file] == if Named(resolve, order, file) then kept[file] else files[file])
    decreases |order|
  {
    if order != [] {
      var before, last := order[..|order| - 1], order[|order| - 1];
      assert order == before + [last];
      RestoredMirrors(resolve, files, before, originals, kept);
      NamedSnoc(resolve, before, last);
    }
  }

  lemma MirrorsRollback(resolve: string -> string, s: Spelled, t: Applied)
    requires Mirrors(resolve, s, t)
    ensures SpelledRollback(resolve, s) == Rollback(t)
  {
    RestoredMirrors(resolve, s.files, s.order, s.originals, t.originals);
    assert forall file :: file in t.originals <==> Named(resolve, s.order, file);
    hide Restored, Named;
    assert SpelledRollback(resolve, s).Keys == Rollback(t).Keys;
  }

  /** When no touched file goes by two names, the port does on given paths what it does on resolved ones. */
  lemma OneNameSuffices(resolve: string -> string, files: Files, ops: seq<Op>)
    requires OneName(resolve, Paths(ops))
    ensures
      var end := SpelledApply(resolve, files, ops);
      && end.files == Apply(files, Resolved(resolve, ops)).files
      && SpelledRollback(resolve, end) == WithEmpties(files, Paths(Resolved(resolve, ops)))
  {
    var s, t := SpelledApply(resolve, files, ops), Apply(files, Resolved(resolve, ops));
    AllMirror(resolve, Spelled(files, [], map[]), Applied(files, map[]), ops, Paths(ops));
    hide Paths, ApplyFrom, SpelledFrom, Resolved, SpelledRollback, Rollback, WithEmpties, OneName;
    MirrorsRollback(resolve, s, t);
    RollbackLeaves(files, Resolved(resolve, ops));
  }

  /** Two names of one file: the rollback writes the text in between last, so the first edit stays. */
  lemma TwoNamesKeepFirstEdit(resolve: string -> string, files: Files, first: Op, second: Op)
    requires first.path != second.path && resolve(first.path) == resolve(second.path)
    ensures
      var file := resolve(first.path);
      var back := SpelledRollback(resolve, SpelledApply(resolve, files, [first, second]));
      file in back && back[file] == Edit(Read(files, file), first)
  {
    hide Edit;
    var ops := [first, second];
    assert ops[1..] == [second] && [second][1..] == [];
    var s0 := Spelled(files, [], map[]);
    var s1 := SpelledOne(resolve, s0, first);
    var s2 := SpelledOne(resolve, s1, second);
    assert SpelledFrom(resolve, s1, [second]) == s2;
    assert s2.order == [first.path, second.path] && s2.order[1] == second.path;
  }

  /** The rollback brings back every workspace in which these names mean present files. */
  ghost predicate RestoresAll(resolve: string -> string, names: set<string>) {
    forall files: Files, ops: seq<Op> :: Paths(ops) <= names && Paths(Resolved(resolve, ops)) <= files.Keys ==>
      SpelledRollback(resolve, SpelledApply(resolve, files, ops)) == files
  }

  /** Rollback restores every workspace and every operations on present files exactly when no file goes by two names. */
  lemma RestoresAllIffOneName(resolve: string -> string, names: set<string>)
    ensures RestoresAll(resolve, names) <==> OneName(resolve, names)
  {
    if OneName(resolve, names) {
      forall files: Files, ops: seq<Op> | Paths(ops) <= names && Paths(Resolved(resolve, ops)) <= files.Keys
        ensures SpelledRollback(resolve, SpelledApply(resolve, files, ops)) == files
      {
        OneNameSuffices(resolve, files, ops);
        assert WithEmpties(files, Paths(Resolved(resolve, ops))) == files;
      }
    } else {
      var a, b :| a in names && b in names && resolve(a) == resolve(b) && a != b;
      AppendStays(resolve, names, a, b);
    }
  }

  /** Two appends to one file under two names: the text of the first stays. */
  lemma AppendStays(resolve: string -> string, names: set<string>, a: string, b: string)
    requires a in names && b in names && a != b && resolve(a) == resolve(b)
    ensures !RestoresAll(resolve, names)
  {
    var first, second := Op(Other, a, None, None, Some("x")), Op(Other, b, None, None, Some("x"));
    var files, ops := map[resolve(a) := ""], [first, second];
    TwoNamesKeepFirstEdit(resolve, files, first, second);
    assert Edit("", first) == "x";
    assert Paths(ops) == {a, b} by { assert first in ops && second in ops; }
    assert Paths(Resolved(resolve, ops)) <= files.Keys;
    assert SpelledRollback(resolve, SpelledApply(resolve, files, ops)) != files;
  }

  // ---------------------------------------------------------------------------------------------------------
  // The clang port: only replacements, each composed with the ones before, and a missing file is an error.

  datatype ClangState = ClangState(files: Files, originals: Files, threw: bool)

  predicate ClangSkips(op: Op) {
    op.kind != Replace || op.startLine.None? || op.content.None?
  }

  /** `Array.prototype.splice` inserting one element, with its clamping of positions and counts. */
  function Splice(lines: seq<string>, start: int, count: int, item: string): seq<string> {
    var from := if start < 0 then Max(|lines| + start, 0) else Min(start, |lines|);
    var removed := Max(0, Min(count, |lines| - from));
    lines[..from] + [item] + lines[from + removed..]
  }

  function ClangEdit(text: string, op: Op): string
    requires !ClangSkips(op)
  {
    var start, end := op.startLine.value, EndLine(op);
    Join(Splice(SplitLines(text), start - 1, end - start + 1, op.content.value), Newline(text))
  }

  /** The clang port replaces lines `a` to `b` by the content as it is, and leaves everything outside them as it was. */
  lemma ClangKeepsOutside(text: string, op: Op, a: nat, b: nat) returns (head: string, tail: string)
    requires Uniform(text) && !ClangSkips(op)
    requires op.startLine == Some(a) && EndLine(op) == b && 1 <= a <= b <= |SplitLines(text)|
    ensures text == head + Join(SplitLines(text)[a - 1..b], Newline(text)) + tail
    ensures ClangEdit(text, op) == head + op.content.value + tail
  {
    hide Splice, Join, Leading, Trailing, Uniform, Newline, SplitLines;
    var newline, lines, item := Newline(text), SplitLines(text), op.content.value;
    SplitJoinIffUniform(text);
    assert lines == lines[..a - 1] + lines[a - 1..b] + lines[b..];
    JoinThree(lines[..a - 1], lines[a - 1..b], lines[b..], newline);
    JoinThree(lines[..a - 1], [item], lines[b..], newline);
    SpliceInside(lines, a, b, item);
    JoinOne(item, newline);
    head, tail := Leading(lines[..a - 1], newline), Trailing(lines[b..], newline);
  }

  lemma SpliceInside(lines: seq<string>, a: nat, b: nat, item: string)
    requires 1 <= a <= b <= |lines|
    ensures Splice(lines, a - 1, b - a + 1, item) == lines[..a - 1] + [item] + lines[b..]
  {
  }

  lemma JoinOne(line: string, newline: string)
    ensures Join([line], newline) == line
  {
  }

  function ClangOne(state: ClangState, op: Op): ClangState {
    if ClangSkips(op) then state
    else if op.path !in state.files then state.(threw := true)
    else
      var text := state.files[op.path];
      ClangState(state.files[op.path := ClangEdit(text, op)],
                 if op.path in state.originals then state.originals else state.originals[op.path := text],
                 false)
  }

  function ClangApplyFrom(state: ClangState, ops: seq<Op>): ClangState
    decreases |ops|
  {
    if ops == [] || state.threw then state else ClangApplyFrom(ClangOne(state, ops[0]), ops[1..])
  }

  function ClangApply(files: Files, ops: seq<Op>): ClangState {
    ClangApplyFrom(ClangState(files, map[], false), ops)
  }

  lemma {:induction false} ClangTracks(files: Files, state: ClangState, ops: seq<Op>)
    requires Tracks(files, Applied(state.files, state.originals)) && state.originals.Keys <= files.Keys && !state.threw
    ensures
      var end := ClangApplyFrom(state, ops);
      && Tracks(files, Applied(end.files, end.originals)) && end.originals.Keys <= files.Keys
      && (end.threw <==> exists op :: op in ops && !ClangSkips(op) && op.path !in files)
    decreases |ops|
  {
    if ops != [] {
      assert ops == [ops[0]] + ops[1..];
      var next := ClangOne(state, ops[0]);
      if !next.threw {
        ClangTracks(files, next, ops[1..]);
      } else {
        assert ClangApplyFrom(next, ops[1..]) == next;
      }
    }
  }

  /** The text of one path after the operations on it, one on top of the other. */
  function Composed(text: string, ops: seq<Op>, path: string): string
    decreases |ops|
  {
    if ops == [] then text
    else Composed(if ops[0].path == path && !ClangSkips(ops[0]) then ClangEdit(text, ops[0]) else text, ops[1..], path)
  }

  /** Every operation used so far edits its file as the ones before it left it. */
  lemma {:induction false} ClangComposes(state: ClangState, ops: seq<Op>, path: string)
    requires path in state.files && !state.threw && !ClangApplyFrom(state, ops).threw
    ensures
      var end := ClangApplyFrom(state, ops);
      path in end.files && end.files[path] == Composed(state.files[path], ops, path)
    decreases |ops|
  {
    if ops != [] {
      ClangComposes(ClangOne(state, ops[0]), ops[1..], path);
    }
  }

  /** What the caller holds of `apply`: its rollback, or nothing when a read threw. */
  function ClangRollback(end: ClangState): Option<Files> {
    if end.threw then None else Some(end.originals)
  }

  predicate ClangMisses(files: Files, op: Op) {
    !ClangSkips(op) && op.path !in files
  }

  /**
   The clang port's apply throws exactly when a used path is missing. Otherwise the caller holds a rollback, and it
   restores every file.
   */
  lemma ClangRollbackRestores(files: Files, ops: seq<Op>)
    ensures
      var end := ClangApply(files, ops);
      && (end.threw <==> exists op :: op in ops && ClangMisses(files, op))
      && (ClangRollback(end).Some? <==> forall op :: op in ops ==> !ClangMisses(files, op))
      && (ClangRollback(end).Some? ==> end.files + ClangRollback(end).value == files)
  {
    ClangTracks(files, ClangState(files, map[], false), ops);
  }

  /** How many operations come before the first that misses its file. */
  function BeforeMiss(files: Files, ops: seq<Op>): (n: nat)
    ensures n <= |ops|
    ensures forall i :: 0 <= i < n ==> !ClangMisses(files, ops[i])
    ensures n < |ops| ==> ClangMisses(files, ops[n])
  {
    if ops == [] || ClangMisses(files, ops[0]) then 0 else 1 + BeforeMiss(files, ops[1..])
  }

  lemma {:induction false} ClangAppend(state: ClangState, a: seq<Op>, b: seq<Op>)
    ensures ClangApplyFrom(state, a + b) == ClangApplyFrom(ClangApplyFrom(state, a), b)
    decreases |a|
  {
    if a == [] {
      assert a + b == b;
    } else if !state.threw {
      assert (a + b)[1..] == a[1..] + b;
      ClangAppend(ClangOne(state, a[0]), a[1..], b);
    }
  }

  /** When apply throws, the operations before the miss stay applied: nothing is there to undo them. */
  lemma ClangThrowLeaves(files: Files, ops: seq<Op>)
    requires ClangApply(files, ops).threw
    ensures
      var end := ClangApply(files, ops);
      var done := ops[..BeforeMiss(files, ops)];
      && end.files == ClangApply(files, done).files
      && ClangRollback(end) == None
      && end.files.Keys == files.Keys
      && (forall path :: path in files ==> end.files[path] == Composed(files[path], done, path))
      && (end.files == files <==> forall path :: path in files ==> Composed(files[path], done, path) == files[path])
  {
    var start, n := ClangState(files, map[], false), BeforeMiss(files, ops);
    var done := ops[..n];
    hide ClangApplyFrom, Composed, ClangEdit, BeforeMiss;
    ClangRollbackRestores(files, ops);
    ClangTracks(files, start, ops);
    assert ops[..|ops|] == ops;
    ClangRollbackRestores(files, done);
    ClangStopsAt(start, ops, n);
    forall path | path in files
      ensures ClangApply(files, done).files[path] == Composed(files[path], done, path)
    {
      ClangComposes(start, done, path);
    }
  }

  lemma ClangStopsAt(state: ClangState, ops: seq<Op>, n: nat)
    requires n < |ops| && !ClangApplyFrom(state, ops[..n]).threw
    requires !ClangSkips(ops[n]) && ops[n].path !in ClangApplyFrom(state, ops[..n]).files
    ensures ClangApplyFrom(state, ops) == ClangApplyFrom(state, ops[..n]).(threw := true)
  {
    var before := ClangApplyFrom(state, ops[..n]);
    assert ops == ops[..n] + ops[n..];
    ClangAppend(state, ops[..n], ops[n..]);
    assert ClangApplyFrom(before, ops[n..]) == ClangApplyFrom(ClangOne(before, ops[n]), ops[n..][1..]);
  }

  /** An edit in front of a missing path: the text `a` stays replaced by `b`, and no rollback reaches the caller. */
  lemma EditBeforeMissing(there: string, missing: string)
    requires there != missing
    ensures
      var files := map[there := "a"];
      var ops := [Op(Replace, there, Some(1), None, Some("b")), Op(Replace, missing, Some(1), None, Some("b"))];
      && ClangApply(files, ops).files == map[there := "b"]
      && ClangRollback(ClangApply(files, ops)) == None
  {
    var files := map[there := "a"];
    var first, second := Op(Replace, there, Some(1), None, Some("b")), Op(Replace, missing, Some(1), None, Some("b"));
    var ops := [first, second];
    var text := "a";
    assert text[1..] == "" && SplitLines("") == [""];
    assert [text[0]] + "" == text && [""][1..] == [];
    assert SplitLines(text) == [[text[0]] + ""] + [];
    assert SplitLines(text) == [text];
    assert Splice(["a"], 0, 1, "b") == ["b"] && Join(["b"], "\n") == "b";
    assert ClangEdit("a", first) == "b";
    assert ops[1..] == [second] && [second][1..] == [];
    var s0 := ClangState(files, map[], false);
    var s1 := ClangOne(s0, first);
    assert ClangApplyFrom(s0, ops) == ClangApplyFrom(s1, [second]);
    assert ClangApplyFrom(s1, [second]) == ClangApplyFrom(ClangOne(s1, second), []);
  }

  /** Two replacements of one existing file: one port keeps the last one only, the other has both. */
  lemma RepeatedPath(files: Files, first: Op, second: Op)
    requires first.path == second.path && first.path in files
    requires !ClangSkips(first) && !ClangSkips(second)
    ensures Read(Apply(files, [first, second]).files, first.path) == Edit(files[first.path], second)
    ensures Read(ClangApply(files, [first, second]).files, first.path)
            == ClangEdit(ClangEdit(files[first.path], first), second)
  {
    var ops := [first, second];
    assert ops[1..] == [second] && ops[2..] == [];
    var s0 := ClangState(files, map[], false);
    var s1 := ClangOne(s0, first);
    var s2 := ClangOne(s1, second);
    assert ClangApplyFrom(s1, [second]) == s2 by { assert [second][1..] == []; }
    LastOperationWins(files, Applied(files, map[]), ops, first.path);
    assert ops[1] == second && second.path !in Paths(ops[2..]);
  }

  // ---------------------------------------------------------------------------------------------------------
  // The files as they are changed in place.

  class Workspace {
    var files: Files

    constructor (files: Files)
      ensures this.files == files
    {
      this.files := files;
    }

    /** The TypeScript port's `apply`; the result is what its rollback closure holds. */
    method ApplyOperations(ops: seq<Op>) returns (originals: Files)
      modifies this
      ensures Applied(files, originals) == Apply(old(files), ops)
    {
      originals := map[];
      for i := 0 to |ops|
        invariant ApplyFrom(Applied(files, originals), ops[i..]) == Apply(old(files), ops)
      {
        var op := ops[i];
        var current := if op.path in originals then originals[op.path] else Read(files, op.path);
        if op.path !in originals {
          originals := originals[op.path := current];
        }
        files := files[op.path := Edit(current, op)];
        assert ops[i..][0] == op && ops[i..][1..] == ops[i + 1..];
      }
    }

    /** The clang port's `apply`: its rollback, or none when the read of a missing file threw. */
    method ClangApplyOperations(ops: seq<Op>) returns (rollback: Option<Files>)
      modifies this
      ensures files == ClangApply(old(files), ops).files && rollback == ClangRollback(ClangApply(old(files), ops))
    {
      var originals: Files := map[];
      for i := 0 to |ops|
        invariant ClangApplyFrom(ClangState(files, originals, false), ops[i..]) == ClangApply(old(files), ops)
      {
        var op := ops[i];
        assert ops[i..][0] == op && ops[i..][1..] == ops[i + 1..];
        if ClangSkips(op) {
          continue;
        }
        if op.path !in files {
          ghost var stopped := ClangOne(ClangState(files, originals, false), op);
          assert ClangApplyFrom(stopped, ops[i + 1..]) == stopped;
          return None;
        }
        if op.path !in originals {
          originals := originals[op.path := files[op.path]];
        }
        files := files[op.path := ClangEdit(files[op.path], op)];
      }
      return Some(originals);
    }

    /** The rollback closure: one write per original. */
    method WriteBack(originals: Files)
      modifies this
      ensures files == old(files) + originals
    {
      var left := originals.Keys;
      while left != {}
        invariant left <= originals.Keys
        invariant files == old(files) + (originals - left)
        decreases left
      {
        var path :| path in left;
        files := files[path := originals[path]];
        left := left - {path};
      }
      assert originals - left == originals;
    }
  }
}
